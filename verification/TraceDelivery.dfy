/**
 From requests to sent batches: one task per request hands the pieces to a bounded channel, another
 task moves them from there into the aggregator, and a flush drains that. Every interleaving of any
 number of requests; a flush holds the aggregator's lock from its first batch to its last.
 */
module TraceDelivery {
  import opened Common
  import opened TraceSplit
  import opened TraceAggregator

  const CHANNEL_CAPACITY: nat := 10

  /** A piece, and the request it comes from. */
  datatype Owned<+F, +C> = Owned(request: nat, payload: Payload<F, C>)

  type Piece<F, C> = SendData<Owned<F, C>>

  datatype World<F, C> = World(
    requests: seq<seq<Payload<F, C>>>,
    todo: seq<seq<Piece<F, C>>>,
    channel: seq<Piece<F, C>>,
    queue: seq<Piece<F, C>>,
    sent: seq<seq<Piece<F, C>>>)

  datatype Step<F, C> =
    | Accept(payloads: seq<Payload<F, C>>)
    | Enqueue(request: nat)
    | Add
    | FlushAll

  /** The pieces of one request, as its task hands them over. */
  ghost function Cut<F, C>(request: nat, payloads: seq<Payload<F, C>>, encodedLen: Payload<F, C> -> nat): seq<Piece<F, C>> {
    var pieces := Pieces(payloads, encodedLen);
    seq(|pieces|, i requires 0 <= i < |pieces| => SendData(Owned(request, pieces[i].0), pieces[i].1))
  }

  ghost predicate Enabled<F, C>(w: World<F, C>, s: Step<F, C>) {
    match s
    case Accept(_) => true
    case Enqueue(r) => r < |w.todo| && w.todo[r] != [] && |w.channel| < CHANNEL_CAPACITY
    case Add => w.channel != []
    case FlushAll => true
  }

  ghost function Next<F, C>(w: World<F, C>, s: Step<F, C>, encodedLen: Payload<F, C> -> nat): World<F, C>
    requires Enabled(w, s)
  {
    match s
    case Accept(payloads) =>
      w.(requests := w.requests + [payloads], todo := w.todo + [Cut(|w.requests|, payloads, encodedLen)])
    case Enqueue(r) => w.(todo := w.todo[r := w.todo[r][1..]], channel := w.channel + [w.todo[r][0]])
    case Add => w.(channel := w.channel[1..], queue := w.queue + [w.channel[0]])
    case FlushAll => w.(queue := [], sent := w.sent + Batches(w.queue, MAX_CONTENT_SIZE_BYTES))
  }

  // ----- What comes from one request -----

  /** The pieces of one request among others, in their order. */
  ghost function From<F, C>(q: seq<Piece<F, C>>, request: nat): seq<Piece<F, C>> {
    if q == [] then [] else
      var front, last := From(q[..|q| - 1], request), q[|q| - 1];
      if last.payload.request == request then front + [last] else front
  }

  lemma {:induction false} FromAppend<F, C>(a: seq<Piece<F, C>>, b: seq<Piece<F, C>>, request: nat)
    ensures From(a + b, request) == From(a, request) + From(b, request)
  {
    if b == [] {
      assert a + b == a;
    } else {
      FromAppend(a, b[..|b| - 1], request);
      assert (a + b)[..|a + b| - 1] == a + b[..|b| - 1];
    }
  }

  lemma {:induction false} FromOthers<F, C>(q: seq<Piece<F, C>>, request: nat)
    requires forall p <- q :: p.payload.request != request
    ensures From(q, request) == []
  {
    if q != [] {
      FromOthers(q[..|q| - 1], request);
    }
  }

  lemma FromOneMore<F, C>(q: seq<Piece<F, C>>, p: Piece<F, C>, request: nat)
    ensures From(q + [p], request) == if p.payload.request == request then From(q, request) + [p] else From(q, request)
  {
    assert (q + [p])[..|q|] == q;
  }

  // ----- Conservation -----

  /** The recorded size is the real one, and within the limit unless the piece cannot be cut. */
  ghost predicate Small<F, C>(p: Piece<F, C>, encodedLen: Payload<F, C> -> nat) {
    && p.size == WireSize(p.payload.payload, encodedLen)
    && (p.size <= MAX_CONTENT_SIZE_BYTES || |p.payload.payload.chunks| <= 1)
  }

  /** What a batch takes on the wire. */
  ghost function WireTotal<F, C>(batch: seq<Piece<F, C>>, encodedLen: Payload<F, C> -> nat): nat {
    if batch == [] then 0
    else WireTotal(batch[..|batch| - 1], encodedLen) + WireSize(batch[|batch| - 1].payload.payload, encodedLen)
  }

  /** Within the limit in encoded bytes, or a single piece that cannot be cut. */
  ghost predicate Deliverable<F, C>(batch: seq<Piece<F, C>>, encodedLen: Payload<F, C> -> nat) {
    && batch != []
    && (WireTotal(batch, encodedLen) <= MAX_CONTENT_SIZE_BYTES || (|batch| == 1 && |batch[0].payload.payload.chunks| <= 1))
  }

  /** Everything that was handed over, oldest first. */
  ghost function HandedOver<F, C>(w: World<F, C>): seq<Piece<F, C>> {
    Flatten(w.sent) + w.queue + w.channel
  }

  ghost predicate Conserved<F, C>(w: World<F, C>, encodedLen: Payload<F, C> -> nat) {
    && |w.todo| == |w.requests|
    && (forall p <- HandedOver(w) :: p.payload.request < |w.requests| && Small(p, encodedLen))
    && (forall r, p | 0 <= r < |w.todo| && p in w.todo[r] :: p.payload.request == r && Small(p, encodedLen))
    && (forall r | 0 <= r < |w.requests| :: From(HandedOver(w), r) + w.todo[r] == Cut(r, w.requests[r], encodedLen))
  }

  ghost predicate AllDeliverable<F, C>(sent: seq<seq<Piece<F, C>>>, encodedLen: Payload<F, C> -> nat) {
    forall i | 0 <= i < |sent| :: Deliverable(sent[i], encodedLen)
  }

  lemma CutIsSmall<F, C>(request: nat, payloads: seq<Payload<F, C>>, encodedLen: Payload<F, C> -> nat)
    ensures forall p <- Cut(request, payloads, encodedLen) :: p.payload.request == request && Small(p, encodedLen)
  {
    RecordedSizes(payloads, encodedLen);
  }

  lemma AcceptConserves<F, C>(w: World<F, C>, payloads: seq<Payload<F, C>>, encodedLen: Payload<F, C> -> nat)
    requires Conserved(w, encodedLen)
    ensures Conserved(Next(w, Accept(payloads), encodedLen), encodedLen)
  {
    hide Cut, From, Small;
    var r := |w.requests|;
    CutIsSmall(r, payloads, encodedLen);
    FromOthers(HandedOver(w), r);
    var v := Next(w, Accept(payloads), encodedLen);
    assert HandedOver(v) == HandedOver(w);
    assert v.todo[r] == Cut(r, payloads, encodedLen) && [] + v.todo[r] == v.todo[r];
  }

  lemma EnqueueConserves<F, C>(w: World<F, C>, request: nat, encodedLen: Payload<F, C> -> nat)
    requires Conserved(w, encodedLen) && Enabled(w, Enqueue(request))
    ensures Conserved(Next(w, Enqueue(request), encodedLen), encodedLen)
  {
    hide Cut, From, Small, Flatten;
    var v, p := Next(w, Enqueue(request), encodedLen), w.todo[request][0];
    assert p in w.todo[request];
    assert HandedOver(v) == HandedOver(w) + [p];
    forall r | 0 <= r < |v.requests| ensures From(HandedOver(v), r) + v.todo[r] == Cut(r, v.requests[r], encodedLen) {
      FromOneMore(HandedOver(w), p, r);
      if r == request {
        assert w.todo[r] == [p] + v.todo[r];
        Regroup(From(HandedOver(w), r), [p], v.todo[r]);
      }
    }
  }

  /** Moving pieces on keeps everything that was handed over in its order. */
  lemma MoveKeepsOrder<F, C>(w: World<F, C>, s: Step<F, C>, encodedLen: Payload<F, C> -> nat)
    requires Enabled(w, s) && (s.Add? || s.FlushAll?)
    ensures HandedOver(Next(w, s, encodedLen)) == HandedOver(w)
  {
    if s.Add? {
      assert w.channel == [w.channel[0]] + w.channel[1..];
    } else {
      var batches := Batches(w.queue, MAX_CONTENT_SIZE_BYTES);
      BatchesPartition(w.queue, MAX_CONTENT_SIZE_BYTES);
      FlattenAppend(w.sent, batches);
    }
  }

  lemma StepConserves<F, C>(w: World<F, C>, s: Step<F, C>, encodedLen: Payload<F, C> -> nat)
    requires Conserved(w, encodedLen) && Enabled(w, s)
    ensures Conserved(Next(w, s, encodedLen), encodedLen)
  {
    hide Cut, From, HandedOver, Batches;
    match s
    case Accept(payloads) => AcceptConserves(w, payloads, encodedLen);
    case Enqueue(r) => EnqueueConserves(w, r, encodedLen);
    case Add => MoveKeepsOrder(w, s, encodedLen);
    case FlushAll => MoveKeepsOrder(w, s, encodedLen);
  }

  /** Every member of a batch was queued. */
  lemma {:induction false} FromBatch<T>(parts: seq<seq<T>>, i: nat, x: T)
    requires i < |parts| && x in parts[i]
    ensures x in Flatten(parts)
    decreases i
  {
    if i > 0 {
      FromBatch(parts[1..], i - 1, x);
    }
  }

  lemma {:induction false} TotalIsReal<F, C>(batch: seq<Piece<F, C>>, encodedLen: Payload<F, C> -> nat)
    requires forall p <- batch :: Small(p, encodedLen)
    ensures Total(batch) == WireTotal(batch, encodedLen)
  {
    if batch != [] {
      TotalIsReal(batch[..|batch| - 1], encodedLen);
      assert batch[|batch| - 1] in batch;
    }
  }

  lemma TotalOfOne<P>(q: seq<SendData<P>>)
    requires |q| == 1
    ensures Total(q) == q[0].size
  {
    assert q[..0] == [];
  }

  lemma BatchesAreDeliverable<F, C>(queue: seq<Piece<F, C>>, encodedLen: Payload<F, C> -> nat)
    requires forall p <- queue :: Small(p, encodedLen)
    ensures AllDeliverable(Batches(queue, MAX_CONTENT_SIZE_BYTES), encodedLen)
  {
    hide Batches, Total, Flatten, WireTotal;
    var sent := Batches(queue, MAX_CONTENT_SIZE_BYTES);
    BatchesPartition(queue, MAX_CONTENT_SIZE_BYTES);
    forall i | 0 <= i < |sent| ensures Deliverable(sent[i], encodedLen) {
      assert GoodBatch(sent[i], MAX_CONTENT_SIZE_BYTES);
      forall p | p in sent[i] ensures Small(p, encodedLen) {
        FromBatch(sent, i, p);
      }
      TotalIsReal(sent[i], encodedLen);
      if |sent[i]| == 1 {
        TotalOfOne(sent[i]);
        assert sent[i][0] in sent[i];
      }
    }
  }

  lemma StepKeepsDeliverable<F, C>(w: World<F, C>, s: Step<F, C>, encodedLen: Payload<F, C> -> nat)
    requires Conserved(w, encodedLen) && AllDeliverable(w.sent, encodedLen) && Enabled(w, s)
    ensures AllDeliverable(Next(w, s, encodedLen).sent, encodedLen)
  {
    hide Deliverable, Small, Cut, Batches;
    if s.FlushAll? {
      forall p | p in w.queue ensures Small(p, encodedLen) {
        assert p in HandedOver(w);
      }
      BatchesAreDeliverable(w.queue, encodedLen);
    }
  }

  // ----- Every interleaving -----

  ghost predicate Run<F, C>(worlds: seq<World<F, C>>, steps: seq<Step<F, C>>, encodedLen: Payload<F, C> -> nat) {
    && |worlds| == |steps| + 1
    && worlds[0] == World([], [], [], [], [])
    && (forall i | 0 <= i < |steps| :: Enabled(worlds[i], steps[i]) && worlds[i + 1] == Next(worlds[i], steps[i], encodedLen))
  }

  lemma {:induction false} EveryRunConserves<F, C>(worlds: seq<World<F, C>>, steps: seq<Step<F, C>>, encodedLen: Payload<F, C> -> nat, i: nat)
    requires Run(worlds, steps, encodedLen) && i < |worlds|
    ensures Conserved(worlds[i], encodedLen) && AllDeliverable(worlds[i].sent, encodedLen)
  {
    if i > 0 {
      EveryRunConserves(worlds, steps, encodedLen, i - 1);
      hide Conserved, AllDeliverable, Next, Enabled;
      StepConserves(worlds[i - 1], steps[i - 1], encodedLen);
      StepKeepsDeliverable(worlds[i - 1], steps[i - 1], encodedLen);
    }
  }

  /** The pieces of a request that are still on their way. */
  ghost function Underway<F, C>(w: World<F, C>, request: nat): seq<Piece<F, C>>
    requires request < |w.todo|
  {
    From(w.queue, request) + From(w.channel, request) + w.todo[request]
  }

  ghost function PayloadsOf<F, C>(q: seq<Piece<F, C>>): seq<Payload<F, C>> {
    seq(|q|, i requires 0 <= i < |q| => q[i].payload.payload)
  }

  lemma CutCarries<F, C>(request: nat, payloads: seq<Payload<F, C>>, encodedLen: Payload<F, C> -> nat)
    ensures Carried(PayloadsOf(Cut(request, payloads, encodedLen))) == Carried(payloads)
  {
    hide Split, SplitAll, Carried;
    var budget := MAX_CONTENT_SIZE_BYTES - V07_ENVELOPE_OVERHEAD_BYTES;
    SplitKeepsChunks(payloads, budget, encodedLen);
    assert PayloadsOf(Cut(request, payloads, encodedLen)) == SplitAll(payloads, budget, encodedLen);
  }

  /**
   However requests overlap and whenever flushes come: of each request, what was sent and what is
   underway are exactly its pieces, in order. Once nothing is underway, the chunks sent are those that
   came, in order, with their fields. Every batch is within the limit or is one piece that cannot be cut.
   */
  lemma EveryRequestArrives<F, C>(worlds: seq<World<F, C>>, steps: seq<Step<F, C>>, encodedLen: Payload<F, C> -> nat, i: nat, request: nat)
    requires Run(worlds, steps, encodedLen) && i < |worlds| && request < |worlds[i].requests|
    ensures var w := worlds[i];
      && |w.todo| == |w.requests|
      && From(Flatten(w.sent), request) + Underway(w, request) == Cut(request, w.requests[request], encodedLen)
      && (Underway(w, request) == [] ==> Carried(PayloadsOf(From(Flatten(w.sent), request))) == Carried(w.requests[request]))
      && AllDeliverable(w.sent, encodedLen)
  {
    EveryRunConserves(worlds, steps, encodedLen, i);
    hide Run, From, Cut, PayloadsOf, Carried, AllDeliverable, Flatten;
    var w := worlds[i];
    var sent := Flatten(w.sent);
    FromAppend(sent + w.queue, w.channel, request);
    FromAppend(sent, w.queue, request);
    assert From(HandedOver(w), request) + w.todo[request] == Cut(request, w.requests[request], encodedLen);
    FourParts(From(sent, request), From(w.queue, request), From(w.channel, request), w.todo[request]);
    CutCarries(request, w.requests[request], encodedLen);
    assert From(sent, request) + [] == From(sent, request);
  }

  lemma FourParts<T>(a: seq<T>, b: seq<T>, c: seq<T>, d: seq<T>)
    ensures ((a + b) + c) + d == a + (b + c + d)
  {
  }

  /** A flush leaves nothing behind: what was sent after it is everything the aggregator was given before. */
  lemma FlushSendsTheQueue<F, C>(worlds: seq<World<F, C>>, steps: seq<Step<F, C>>, encodedLen: Payload<F, C> -> nat, i: nat)
    requires Run(worlds, steps, encodedLen) && i < |steps| && steps[i].FlushAll?
    ensures worlds[i + 1].queue == []
    ensures Flatten(worlds[i + 1].sent) == Flatten(worlds[i].sent) + worlds[i].queue
  {
    BatchesPartition(worlds[i].queue, MAX_CONTENT_SIZE_BYTES);
    FlattenAppend(worlds[i].sent, Batches(worlds[i].queue, MAX_CONTENT_SIZE_BYTES));
  }

  ghost function Enqueues<F, C>(steps: seq<Step<F, C>>): nat {
    if steps == [] then 0 else Enqueues(steps[..|steps| - 1]) + (if steps[|steps| - 1].Enqueue? then 1 else 0)
  }

  ghost function Adds<F, C>(steps: seq<Step<F, C>>): nat {
    if steps == [] then 0 else Adds(steps[..|steps| - 1]) + (if steps[|steps| - 1].Add? then 1 else 0)
  }

  /** Each enqueueing hands one piece to the channel, and each adding brings one of them to the aggregator. */
  lemma {:induction false} StepsAreCounted<F, C>(worlds: seq<World<F, C>>, steps: seq<Step<F, C>>, encodedLen: Payload<F, C> -> nat, i: nat)
    requires Run(worlds, steps, encodedLen) && i < |worlds|
    ensures |HandedOver(worlds[i])| == Enqueues(steps[..i])
    ensures |Flatten(worlds[i].sent)| + |worlds[i].queue| == Adds(steps[..i])
  {
    hide HandedOver, Next, Enabled, Flatten;
    if i == 0 {
      NothingAtStart<F, C>();
    } else {
      StepsAreCounted(worlds, steps, encodedLen, i - 1);
      assert steps[..i][..i - 1] == steps[..i - 1];
      StepMovesOne(worlds[i - 1], steps[i - 1], encodedLen);
    }
  }

  lemma NothingAtStart<F, C>()
    ensures HandedOver<F, C>(World([], [], [], [], [])) == [] && Flatten<Piece<F, C>>([]) == []
  {
  }

  lemma StepMovesOne<F, C>(w: World<F, C>, s: Step<F, C>, encodedLen: Payload<F, C> -> nat)
    requires Enabled(w, s)
    ensures var v := Next(w, s, encodedLen);
      && |HandedOver(v)| == |HandedOver(w)| + (if s.Enqueue? then 1 else 0)
      && |Flatten(v.sent)| + |v.queue| == |Flatten(w.sent)| + |w.queue| + (if s.Add? then 1 else 0)
  {
    hide Cut, Flatten, Batches;
    if s.Add? || s.FlushAll? {
      MoveKeepsOrder(w, s, encodedLen);
    }
  }
}
