/** The aggregator service: one task that owns the aggregator and works off a queue of commands. */
module LogService {
  import opened Common
  import opened LogAggregator

  datatype Command =
    | InsertBatch(entries: seq<Option<Bytes>>)
    | GetBatches
    | Shutdown

  /** The entries of an insert that are kept: those that serialize to at most 1 MB. */
  function Accepted(entries: seq<Option<Bytes>>): seq<Bytes> {
    if entries == [] then [] else
      var front, last := Accepted(entries[..|entries| - 1]), entries[|entries| - 1];
      if last.Some? && |last.value| <= MAX_LOG_BYTES then front + [last.value] else front
  }

  /** All entries accepted up to a shutdown, in order. */
  function AcceptedBefore(commands: seq<Command>): seq<Bytes> {
    if commands == [] || commands[0].Shutdown? then []
    else (if commands[0].InsertBatch? then Accepted(commands[0].entries) else []) + AcceptedBefore(commands[1..])
  }

  datatype Outcome = Outcome(responses: seq<seq<seq<Bytes>>>, left: seq<Bytes>)

  lemma {:induction false} AcceptedAreSmall(entries: seq<Option<Bytes>>)
    ensures Small(Accepted(entries))
  {
    if entries != [] {
      AcceptedAreSmall(entries[..|entries| - 1]);
    }
  }

  lemma SmallTogether(a: seq<Bytes>, b: seq<Bytes>)
    requires Small(a) && Small(b)
    ensures Small(a + b)
  {
  }

  /** What the service answers to each `GetBatches`, and what is left in the queue. */
  ghost function Serve(q: seq<Bytes>, commands: seq<Command>): Outcome
    requires Small(q)
    decreases |commands|
  {
    if commands == [] then Outcome([], q) else
      match commands[0]
      case InsertBatch(entries) =>
        AcceptedAreSmall(entries);
        SmallTogether(q, Accepted(entries));
        Serve(q + Accepted(entries), commands[1..])
      case GetBatches =>
        var rest := Serve([], commands[1..]);
        Outcome([Batches(q)] + rest.responses, rest.left)
      case Shutdown => Outcome([], q)
  }

  lemma AnswerIsTheQueue(q: seq<Bytes>, rest: Outcome)
    requires Small(q)
    ensures Flatten(Flatten([Batches(q)] + rest.responses)) + rest.left == q + (Flatten(Flatten(rest.responses)) + rest.left)
  {
    BatchesPartition(q);
    assert ([Batches(q)] + rest.responses)[1..] == rest.responses;
    FlattenAppend(Batches(q), Flatten(rest.responses));
    Regroup(q, Flatten(Flatten(rest.responses)), rest.left);
  }

  /**
   Conservation: the answered batches, one after the other and followed by what is still queued,
   are exactly the accepted entries in the order they came.
   */
  lemma {:induction false} NothingLostOrReordered(q: seq<Bytes>, commands: seq<Command>)
    requires Small(q)
    ensures var o := Serve(q, commands);
      Flatten(Flatten(o.responses)) + o.left == q + AcceptedBefore(commands)
    decreases |commands|
  {
    if commands != [] {
      match commands[0]
      case InsertBatch(entries) =>
        AcceptedAreSmall(entries);
        SmallTogether(q, Accepted(entries));
        NothingLostOrReordered(q + Accepted(entries), commands[1..]);
        Regroup(q, Accepted(entries), AcceptedBefore(commands[1..]));
      case GetBatches =>
        NothingLostOrReordered([], commands[1..]);
        AnswerIsTheQueue(q, Serve([], commands[1..]));
      case Shutdown =>
    }
  }

  // ----- What each request is answered -----

  ghost predicate NoShutdown(commands: seq<Command>) {
    forall i | 0 <= i < |commands| :: !commands[i].Shutdown?
  }

  ghost function Requests(commands: seq<Command>): nat {
    if commands == [] then 0
    else Requests(commands[..|commands| - 1]) + (if commands[|commands| - 1].GetBatches? then 1 else 0)
  }

  /** What was accepted since the last request, and `q` as well when there was none. */
  ghost function SinceRequest(q: seq<Bytes>, commands: seq<Command>): seq<Bytes> {
    if commands == [] then q else
      var front, last := SinceRequest(q, commands[..|commands| - 1]), commands[|commands| - 1];
      match last
      case InsertBatch(entries) => front + Accepted(entries)
      case GetBatches => []
      case Shutdown => front
  }

  lemma {:induction false} SinceIsSmall(q: seq<Bytes>, commands: seq<Command>)
    requires Small(q)
    ensures Small(SinceRequest(q, commands))
  {
    if commands != [] {
      var last := commands[|commands| - 1];
      SinceIsSmall(q, commands[..|commands| - 1]);
      if last.InsertBatch? {
        AcceptedAreSmall(last.entries);
        SmallTogether(SinceRequest(q, commands[..|commands| - 1]), Accepted(last.entries));
      }
    }
  }

  lemma ServeOne(q: seq<Bytes>, c: Command, rest: seq<Command>)
    requires Small(q) && !c.Shutdown?
    ensures Small(SinceRequest(q, [c]))
    ensures var o := Serve(SinceRequest(q, [c]), rest);
      Serve(q, [c] + rest) == if c.GetBatches? then Outcome([Batches(q)] + o.responses, o.left) else o
  {
    SinceIsSmall(q, [c]);
    assert [c][..0] == [] && ([c] + rest)[1..] == rest;
  }

  lemma SinceOneMore(q: seq<Bytes>, a: seq<Command>, c: Command)
    ensures SinceRequest(q, a + [c]) == SinceRequest(SinceRequest(q, a), [c])
    ensures Requests(a + [c]) == Requests(a) + (if c.GetBatches? then 1 else 0)
  {
    assert (a + [c])[..|a|] == a && [c][..0] == [];
  }

  /** The loop may be cut anywhere before a shutdown: it goes on with what was accepted since the last request. */
  lemma {:induction false} ServeInTwo(q: seq<Bytes>, a: seq<Command>, b: seq<Command>)
    requires Small(q) && NoShutdown(a)
    ensures Small(SinceRequest(q, a))
    ensures var first, second := Serve(q, a), Serve(SinceRequest(q, a), b);
      && first.left == SinceRequest(q, a) && |first.responses| == Requests(a)
      && Serve(q, a + b) == Outcome(first.responses + second.responses, second.left)
    decreases |a|
  {
    hide Small, Batches, Accepted, Serve;
    SinceIsSmall(q, a);
    if a == [] {
      assert [] + b == b;
      ServeNothing(q);
    } else {
      var front, c := a[..|a| - 1], a[|a| - 1];
      var mid := SinceRequest(q, front);
      assert a == front + [c] && a + b == front + ([c] + b) && !c.Shutdown? && [c] + [] == [c];
      ServeInTwo(q, front, [c]);
      ServeInTwo(q, front, [c] + b);
      ServeOne(mid, c, b);
      ServeOne(mid, c, []);
      SinceOneMore(q, front, c);
      ServeNothing(SinceRequest(q, a));
      Regroup(Serve(q, front).responses, [Batches(mid)], Serve(SinceRequest(q, a), b).responses);
    }
  }

  lemma ServeNothing(q: seq<Bytes>)
    requires Small(q)
    ensures Serve(q, []) == Outcome([], q)
  {
  }

  /**
   Every request is answered, with exactly what was accepted since the request before it, in the
   fewest batches; what is left at the end is what was accepted since the last one. Nothing after a
   shutdown is looked at.
   */
  lemma EachRequestIsAnswered(q: seq<Bytes>, a: seq<Command>, b: seq<Command>)
    requires Small(q) && NoShutdown(a)
    ensures Small(SinceRequest(q, a))
    ensures |Serve(q, a).responses| == Requests(a) && Serve(q, a).left == SinceRequest(q, a)
    ensures Serve(q, a + [Shutdown] + b) == Serve(q, a)
    ensures var o := Serve(q, a + [GetBatches] + b);
      && Requests(a) < |o.responses|
      && Flatten(o.responses[Requests(a)]) == SinceRequest(q, a)
      && o.responses[Requests(a)] == Batches(SinceRequest(q, a))
  {
    hide Batches, Accepted, SinceRequest, Requests, Small;
    ServeInTwo(q, a, []);
    ServeInTwo(q, a, [Shutdown] + b);
    ServeInTwo(q, a, [GetBatches] + b);
    assert a + [] == a && a + [Shutdown] + b == a + ([Shutdown] + b) && a + [GetBatches] + b == a + ([GetBatches] + b);
    StopsAtShutdown(SinceRequest(q, a), b);
    ServeOne(SinceRequest(q, a), GetBatches, b);
    BatchesPartition(SinceRequest(q, a));
  }

  lemma StopsAtShutdown(q: seq<Bytes>, b: seq<Command>)
    requires Small(q)
    ensures Serve(q, [Shutdown] + b) == Outcome([], q)
  {
  }

  // ----- Which entries are accepted -----

  lemma NothingAccepted()
    ensures Accepted([]) == []
  {
  }

  lemma AcceptedOneMore(entries: seq<Option<Bytes>>, i: nat)
    requires i < |entries|
    ensures Accepted(entries[..i + 1]) ==
      Accepted(entries[..i]) + (if entries[i].Some? && |entries[i].value| <= MAX_LOG_BYTES then [entries[i].value] else [])
  {
    assert entries[..i + 1][..i] == entries[..i];
  }

  predicate Acceptable(entry: Option<Bytes>) {
    entry.Some? && |entry.value| <= MAX_LOG_BYTES
  }

  ghost function AcceptableAmong(entries: seq<Option<Bytes>>): set<int> {
    set i | 0 <= i < |entries| && Acceptable(entries[i])
  }

  /** Exactly the entries that serialize to at most 1 MB are accepted, each once, at the place it has among them. */
  lemma {:induction false} AcceptedExactly(entries: seq<Option<Bytes>>)
    ensures |Accepted(entries)| == |AcceptableAmong(entries)|
    ensures forall i | 0 <= i < |entries| && Acceptable(entries[i]) ::
      |Accepted(entries[..i])| < |Accepted(entries)| && Accepted(entries)[|Accepted(entries[..i])|] == entries[i].value
  {
    if entries != [] {
      var n := |entries| - 1;
      var front := entries[..n];
      AcceptedExactly(front);
      AmongOneMore(entries);
      hide AcceptableAmong;
      assert forall i | 0 <= i < n :: entries[..i] == front[..i];
    }
  }

  lemma AmongOneMore(entries: seq<Option<Bytes>>)
    requires entries != []
    ensures var n := |entries| - 1;
      |AcceptableAmong(entries)| == |AcceptableAmong(entries[..n])| + (if Acceptable(entries[n]) then 1 else 0)
  {
    var n := |entries| - 1;
    assert AcceptableAmong(entries) == AcceptableAmong(entries[..n]) + (if Acceptable(entries[n]) then {n} else {});
  }

  ghost predicate WithinLimits(batches: seq<seq<Bytes>>) {
    forall k | 0 <= k < |batches| :: batches[k] != [] && Fits(batches[k])
  }

  lemma DrainIsWithinLimits(q: seq<Bytes>)
    requires Small(q)
    ensures WithinLimits(Batches(q))
  {
    BatchesPartition(q);
  }

  /** Every answered batch is non-empty and within both limits. */
  lemma {:induction false} AnswersAreWithinLimits(q: seq<Bytes>, commands: seq<Command>)
    requires Small(q)
    ensures forall i | 0 <= i < |Serve(q, commands).responses| :: WithinLimits(Serve(q, commands).responses[i])
    decreases |commands|
  {
    hide WithinLimits;
    if commands != [] {
      match commands[0]
      case InsertBatch(entries) =>
        AcceptedAreSmall(entries);
        SmallTogether(q, Accepted(entries));
        AnswersAreWithinLimits(q + Accepted(entries), commands[1..]);
      case GetBatches =>
        AnswersAreWithinLimits([], commands[1..]);
        DrainIsWithinLimits(q);
      case Shutdown =>
    }
  }

  class AggregatorService {
    const aggregator: Aggregator

    constructor ()
      ensures fresh(aggregator) && aggregator.Valid() && aggregator.messages == []
    {
      aggregator := new Aggregator();
    }

    method InsertAll(entries: seq<Option<Bytes>>)
      requires aggregator.Valid()
      modifies aggregator
      ensures aggregator.Valid()
      ensures aggregator.messages == old(aggregator.messages) + Accepted(entries)
    {
      hide Accepted, Full, TotalBytes, Small;
      assert Accepted(entries[..0]) == [] by {
        NothingAccepted();
      }
      for i := 0 to |entries|
        invariant aggregator.Valid()
        invariant aggregator.messages == old(aggregator.messages) + Accepted(entries[..i])
      {
        AcceptedOneMore(entries, i);
        var _ := aggregator.Insert(entries[i]);
      }
      assert entries[..|entries|] == entries;
    }

    /** `run`: the commands are what the channel delivers before it closes. */
    method Run(commands: seq<Command>) returns (responses: seq<seq<Bytes>>)
      requires aggregator.Valid()
      modifies aggregator
      ensures aggregator.Valid()
      ensures aggregator.messages == Serve(old(aggregator.messages), commands).left
      ensures responses == AllFramed(Serve(old(aggregator.messages), commands).responses)
    {
      responses := [];
      ghost var start, answered := aggregator.messages, [];
      var i := 0;
      while i < |commands|
        invariant 0 <= i <= |commands| && aggregator.Valid()
        invariant responses == AllFramed(answered)
        invariant var rest := Serve(aggregator.messages, commands[i..]);
          Serve(start, commands) == Outcome(answered + rest.responses, rest.left)
      {
        var command := commands[i];
        assert commands[i..][1..] == commands[i + 1..];
        ghost var q := aggregator.messages;
        match command {
          case InsertBatch(entries) =>
            InsertAll(entries);
          case GetBatches =>
            var batches := aggregator.GetAllBatches();
            ghost var rest := Serve([], commands[i + 1..]).responses;
            assert (answered + [Batches(q)]) + rest == answered + ([Batches(q)] + rest);
            answered := answered + [Batches(q)];
            responses := responses + [batches];
          case Shutdown =>
            assert answered + [] == answered;
            return;
        }
        i := i + 1;
      }
      assert answered + [] == answered;
    }
  }

  function AllFramed(responses: seq<seq<seq<Bytes>>>): seq<seq<Bytes>> {
    seq(|responses|, i requires 0 <= i < |responses| => Framed(responses[i]))
  }
}
