/**
 A log entry from insertion to its final fate: the queue of the aggregator, the batches it hands out,
 and what the flusher books for each of them, over any interleaving of inserts and flush cycles. A
 cycle counts from the moment it asks for batches; redelivering earlier ones does not look at the queue.
 */
module LogDelivery {
  import opened Common
  import opened LogAggregator
  import LogService
  import opened LogFlusher

  /** `reachable` says whether the aggregator answers the flush. */
  datatype Event = Insert(entries: seq<Option<Bytes>>) | Cycle(reachable: bool)

  /** Batch `b` of `batches` is booked in the ledger under its index. */
  datatype Pipeline = Pipeline(queue: seq<Bytes>, batches: seq<seq<Bytes>>, ledger: Ledger)

  ghost function Step(network: Network, p: Pipeline, e: Event): Pipeline
    requires Small(p.queue)
  {
    match e
    case Insert(entries) => p.(queue := p.queue + LogService.Accepted(entries))
    case Cycle(reachable) =>
      if !reachable then p.(ledger := AfterFlush(network, p.ledger, None)) else
        var drained := Batches(p.queue);
        Pipeline([], p.batches + drained, AfterFlush(network, p.ledger, Some(|drained|)))
  }

  ghost function After(network: Network, events: seq<Event>): (p: Pipeline)
    ensures Small(p.queue)
  {
    if events == [] then Pipeline([], [], EMPTY) else
      var before, e := After(network, events[..|events| - 1]), events[|events| - 1];
      StaysSmall(network, before, e);
      Step(network, before, e)
  }

  lemma StaysSmall(network: Network, p: Pipeline, e: Event)
    requires Small(p.queue)
    ensures Small(Step(network, p, e).queue)
  {
    if e.Insert? {
      LogService.AcceptedAreSmall(e.entries);
      LogService.SmallTogether(p.queue, LogService.Accepted(e.entries));
    }
  }

  /** All entries accepted in a run, in order. */
  ghost function Inserted(events: seq<Event>): seq<Bytes> {
    if events == [] then [] else
      var front, e := Inserted(events[..|events| - 1]), events[|events| - 1];
      if e.Insert? then front + LogService.Accepted(e.entries) else front
  }

  ghost function Cycles(events: seq<Event>): nat {
    if events == [] then 0
    else Cycles(events[..|events| - 1]) + (if events[|events| - 1].Cycle? then 1 else 0)
  }

  /** Every cycle is a flush, and one that reaches the aggregator leaves nothing queued. */
  lemma {:induction false} CyclesDrain(network: Network, events: seq<Event>)
    ensures After(network, events).ledger.flushes == Cycles(events)
    ensures events != [] && events[|events| - 1] == Cycle(true) ==> After(network, events).queue == []
  {
    if events != [] {
      CyclesDrain(network, events[..|events| - 1]);
      var p, e := After(network, events[..|events| - 1]), events[|events| - 1];
      EveryRunIsBooked(network, events[..|events| - 1]);
      hide AfterFlush, Settled;
      if e.Cycle? {
        FlushKeepsSettled(network, p.ledger, if e.reachable then Some(|Batches(p.queue)|) else None);
      }
    }
  }

  ghost predicate Booked(network: Network, p: Pipeline, inserted: seq<Bytes>) {
    && Flatten(p.batches) + p.queue == inserted
    && LogService.WithinLimits(p.batches)
    && p.ledger.next == |p.batches|
    && Settled(network, p.ledger)
  }

  lemma {:induction false} SendsKeepNext(network: Network, l: Ledger, ids: seq<Id>)
    ensures AfterSends(network, l, ids).next == l.next
    decreases |ids|
  {
    if ids != [] {
      SendsKeepNext(network, AfterSend(network, l, ids[0]), ids[1..]);
    }
  }

  /** A flush books exactly the batches it drained. */
  lemma FlushBooks(network: Network, l: Ledger, drained: Option<nat>)
    ensures AfterFlush(network, l, drained).next == l.next + (if drained.Some? then drained.value else 0)
  {
    hide AfterSends;
    SendsKeepNext(network, l.(pending := []), l.pending);
    var retried := AfterSends(network, l.(pending := []), l.pending);
    if drained.Some? {
      SendsKeepNext(network, AfterDrain(retried, drained.value), Drained(retried.next, drained.value));
    }
  }

  lemma StepKeepsBooked(network: Network, p: Pipeline, e: Event, inserted: seq<Bytes>)
    requires Small(p.queue) && Booked(network, p, inserted)
    ensures Booked(network, Step(network, p, e), if e.Insert? then inserted + LogService.Accepted(e.entries) else inserted)
  {
    hide AfterFlush, Settled, Flatten, Fits, Batches;
    if e.Insert? {
      Regroup(Flatten(p.batches), p.queue, LogService.Accepted(e.entries));
    } else if !e.reachable {
      FlushBooks(network, p.ledger, None);
      FlushKeepsSettled(network, p.ledger, None);
    } else {
      var drained := Batches(p.queue);
      FlushBooks(network, p.ledger, Some(|drained|));
      FlushKeepsSettled(network, p.ledger, Some(|drained|));
      BatchesPartition(p.queue);
      FlattenAppend(p.batches, drained);
      assert Flatten(p.batches + drained) + [] == Flatten(p.batches + drained);
    }
  }

  lemma {:induction false} EveryRunIsBooked(network: Network, events: seq<Event>)
    ensures Booked(network, After(network, events), Inserted(events))
  {
    if events == [] {
      EveryRunIsSettled(network, []);
    } else {
      var front := events[..|events| - 1];
      EveryRunIsBooked(network, front);
      hide Booked, Step;
      StepKeepsBooked(network, After(network, front), events[|events| - 1], Inserted(front));
    }
  }

  /**
   From insertion to fate: the entries accepted in a run are those of the drained batches, in order,
   followed by the queue; every batch is non-empty and within both limits, and is exactly one of
   accepted, rejected and pending once, as the replies to it say.
   */
  lemma EveryEntryHasOneFate(network: Network, events: seq<Event>)
    ensures var p := After(network, events);
      && Flatten(p.batches) + p.queue == Inserted(events)
      && LogService.WithinLimits(p.batches)
      && Distinct(p.ledger.pending)
      && (forall b: Id :: b in p.ledger.fates || b in p.ledger.pending <==> b < |p.batches|)
      && (forall b <- p.ledger.fates :: b !in p.ledger.pending)
      && (forall b: Id | b < |p.batches| :: Honest(network, p.ledger, b))
  {
    EveryRunIsBooked(network, events);
    hide After, Inserted, Flatten, LogService.WithinLimits, Honest, Distinct;
    SettledInPlainTerms(network, After(network, events).ledger);
  }

  lemma SettledInPlainTerms(network: Network, l: Ledger)
    requires Settled(network, l)
    ensures Distinct(l.pending)
    ensures forall b: Id :: b in l.fates || b in l.pending <==> b < l.next
    ensures forall b <- l.fates :: b !in l.pending
    ensures forall b: Id | b < l.next :: Honest(network, l, b)
  {
    hide Honest, Distinct, Persistent;
    assert l.pending + [] == l.pending;
  }
}
