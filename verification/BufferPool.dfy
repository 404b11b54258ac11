/**
 The DogStatsD reader and processor: packet buffers circulate between a pool, the reader, a bounded
 queue and the processor. Every interleaving of the two tasks, on the path with a single reader, up
 to the moment the processor stops receiving.
 */
module BufferPool {
  import opened Common

  type Buf = nat

  /** A packet holds a buffer; its number is the order in which it was handed over. */
  datatype Packet = Packet(buf: Buf, number: nat)

  /** `draining` is the inner loop that empties the socket without waiting. */
  datatype Reader =
    | Idle(draining: bool)
    | Reading(buf: Buf, draining: bool)
    | Offering(buf: Buf)
    | Exited

  datatype World = World(
    pool: seq<Buf>,
    queue: seq<Packet>,
    reader: Reader,
    processor: Option<Packet>,
    nextBuf: nat,
    handed: nat,
    processed: seq<nat>,
    dropped: seq<nat>)

  const START: World := World([], [], Idle(false), None, 0, 0, [], [])

  datatype ReadResult = GotPacket | GotNothing | WouldBlock | ReadError | ConnectionReset

  datatype Step =
    | TakeBuffer
    | Read(result: ReadResult)
    | Offer
    | Cancel
    | Receive
    | Finish

  predicate Enabled(w: World, s: Step) {
    match s
    case TakeBuffer => w.reader.Idle?
    case Read(result) => w.reader.Reading? && (result.WouldBlock? ==> w.reader.draining)
    case Offer => w.reader.Offering?
    case Cancel => (w.reader.Idle? || w.reader.Reading?) && !w.reader.draining
    case Receive => w.processor.None? && w.queue != []
    case Finish => w.processor.Some?
  }

  function GiveBack(w: World, buf: Buf): World {
    w.(pool := w.pool + [buf])
  }

  /** The pool goes away with its reader, and the buffer the reader holds. */
  function Exit(w: World): World {
    w.(pool := [], reader := Exited)
  }

  function Next(w: World, s: Step, capacity: nat): World
    requires Enabled(w, s)
  {
    match s
    case TakeBuffer =>
      if w.pool != [] then w.(pool := w.pool[1..], reader := Reading(w.pool[0], w.reader.draining))
      else w.(nextBuf := w.nextBuf + 1, reader := Reading(w.nextBuf, w.reader.draining))
    case Read(result) =>
      var buf, draining := w.reader.buf, w.reader.draining;
      (match result
       case GotPacket => w.(reader := Offering(buf))
       case GotNothing => GiveBack(w, buf).(reader := Idle(draining))
       case WouldBlock => GiveBack(w, buf).(reader := Idle(false))
       case ReadError => GiveBack(w, buf).(reader := Idle(false))
       case ConnectionReset => if draining then GiveBack(w, buf).(reader := Idle(false)) else Exit(w))
    case Offer =>
      var buf, number := w.reader.buf, w.handed;
      var offered := w.(handed := w.handed + 1, reader := Idle(true));
      if |w.queue| < capacity then offered.(queue := w.queue + [Packet(buf, number)])
      else GiveBack(offered, buf).(dropped := w.dropped + [number])
    case Cancel => Exit(w)
    case Receive => w.(queue := w.queue[1..], processor := Some(w.queue[0]))
    case Finish =>
      var packet := w.processor.value;
      var finished := w.(processor := None, processed := w.processed + [packet.number]);
      if w.reader.Exited? then finished else GiveBack(finished, packet.buf)
  }

  // ----- Buffers -----

  ghost function Occurs(s: seq<Buf>, b: Buf): nat {
    if s == [] then 0 else Occurs(s[..|s| - 1], b) + (if s[|s| - 1] == b then 1 else 0)
  }

  lemma {:induction false} OccursAppend(a: seq<Buf>, c: seq<Buf>, b: Buf)
    ensures Occurs(a + c, b) == Occurs(a, b) + Occurs(c, b)
  {
    if c == [] {
      assert a + c == a;
    } else {
      OccursAppend(a, c[..|c| - 1], b);
      assert (a + c)[..|a + c| - 1] == a + c[..|c| - 1];
    }
  }

  lemma OccursEnds(s: seq<Buf>, x: Buf, b: Buf)
    ensures Occurs(s + [x], b) == Occurs(s, b) + (if x == b then 1 else 0)
    ensures s != [] ==> Occurs(s, b) == Occurs(s[1..], b) + (if s[0] == b then 1 else 0)
  {
    OccursAppend(s, [x], b);
    assert [x][..0] == [];
    if s != [] {
      OccursAppend([s[0]], s[1..], b);
      assert s == [s[0]] + s[1..] && [s[0]][..0] == [];
    }
  }

  ghost function Bufs(q: seq<Packet>): seq<Buf> {
    seq(|q|, i requires 0 <= i < |q| => q[i].buf)
  }

  ghost function InReader(r: Reader): seq<Buf> {
    if r.Reading? || r.Offering? then [r.buf] else []
  }

  ghost function InProcessor(p: Option<Packet>): seq<Buf> {
    if p.Some? then [p.value.buf] else []
  }

  /** In how many places a buffer is. */
  ghost function Places(w: World, b: Buf): nat {
    Occurs(w.pool, b) + Occurs(Bufs(w.queue), b) + Occurs(InReader(w.reader), b) + Occurs(InProcessor(w.processor), b)
  }

  ghost function InUse(w: World): nat {
    |w.pool| + |w.queue| + |InReader(w.reader)| + |InProcessor(w.processor)|
  }

  ghost predicate BufsOk(w: World, capacity: nat) {
    && |w.queue| <= capacity
    && w.nextBuf <= capacity + 2
    && (forall b: Buf :: Places(w, b) <= if b < w.nextBuf then 1 else 0)
    && (!w.reader.Exited? ==> InUse(w) == w.nextBuf && forall b: Buf | b < w.nextBuf :: Places(w, b) == 1)
  }

  /** A step moves one buffer, or allocates one, or loses some by the reader's exit. */
  ghost predicate MovedOne(w: World, v: World, b: Buf) {
    if v.reader.Exited? then Places(v, b) <= Places(w, b)
    else Places(v, b) == Places(w, b) + (if b == w.nextBuf && v.nextBuf > w.nextBuf then 1 else 0)
  }

  lemma ReaderMovesOne(w: World, s: Step, capacity: nat, b: Buf)
    requires Enabled(w, s) && (s.TakeBuffer? || s.Read? || s.Cancel?)
    ensures MovedOne(w, Next(w, s, capacity), b)
  {
    hide Occurs, Bufs;
    EmptyAndOne(b);
    if s.TakeBuffer? {
      OccursEnds(w.pool, 0, b);
    } else if s.Read? {
      OccursEnds(w.pool, w.reader.buf, b);
    }
  }

  lemma OfferMovesOne(w: World, capacity: nat, b: Buf)
    requires Enabled(w, Offer)
    ensures MovedOne(w, Next(w, Offer, capacity), b)
  {
    hide Occurs, Bufs;
    EmptyAndOne(b);
    if |w.queue| < capacity {
      BufsAppend(w.queue, Packet(w.reader.buf, w.handed));
      OccursEnds(Bufs(w.queue), w.reader.buf, b);
    } else {
      OccursEnds(w.pool, w.reader.buf, b);
    }
  }

  lemma BufsAppend(q: seq<Packet>, packet: Packet)
    ensures Bufs(q + [packet]) == Bufs(q) + [packet.buf]
  {
  }

  lemma ProcessorMovesOne(w: World, s: Step, capacity: nat, b: Buf)
    requires Enabled(w, s) && (s.Receive? || s.Finish?)
    ensures MovedOne(w, Next(w, s, capacity), b)
  {
    if s.Receive? {
      assert Bufs(w.queue)[1..] == Bufs(w.queue[1..]) && Bufs(w.queue)[0] == w.queue[0].buf;
    }
    hide Occurs;
    EmptyAndOne(b);
    if s.Receive? {
      OccursEnds(Bufs(w.queue), 0, b);
    } else {
      OccursEnds(w.pool, w.processor.value.buf, b);
    }
  }

  lemma StepMovesOne(w: World, s: Step, capacity: nat, b: Buf)
    requires Enabled(w, s)
    ensures MovedOne(w, Next(w, s, capacity), b)
  {
    hide MovedOne, Next;
    if s.Offer? {
      OfferMovesOne(w, capacity, b);
    } else if s.Receive? || s.Finish? {
      ProcessorMovesOne(w, s, capacity, b);
    } else {
      ReaderMovesOne(w, s, capacity, b);
    }
  }

  lemma EmptyAndOne(b: Buf)
    ensures Occurs([], b) == 0
    ensures forall x: Buf :: Occurs([x], b) == if x == b then 1 else 0
  {
    forall x: Buf ensures Occurs([x], b) == if x == b then 1 else 0 {
      assert [x][..0] == [];
    }
  }

  lemma StepKeepsBufs(w: World, s: Step, capacity: nat)
    requires BufsOk(w, capacity) && Enabled(w, s)
    ensures BufsOk(Next(w, s, capacity), capacity)
  {
    var v := Next(w, s, capacity);
    forall b: Buf
      ensures Places(v, b) <= if b < v.nextBuf then 1 else 0
      ensures !v.reader.Exited? && b < v.nextBuf ==> Places(v, b) == 1
    {
      StepMovesOne(w, s, capacity, b);
      assert Places(w, b) <= if b < w.nextBuf then 1 else 0;
      assert !w.reader.Exited? && b < w.nextBuf ==> Places(w, b) == 1;
    }
    hide Places;
    assert !v.reader.Exited? ==> !w.reader.Exited?;
  }

  // ----- Packets -----

  ghost function Numbers(q: seq<Packet>): seq<nat> {
    seq(|q|, i requires 0 <= i < |q| => q[i].number)
  }

  /** The packets accepted by the queue, in the order they leave it. */
  ghost function Accepted(w: World): seq<nat> {
    w.processed + (if w.processor.Some? then [w.processor.value.number] else []) + Numbers(w.queue)
  }

  ghost predicate Increasing(s: seq<nat>) {
    forall i, j | 0 <= i < j < |s| :: s[i] < s[j]
  }

  ghost predicate Split(handed: nat, accepted: seq<nat>, dropped: seq<nat>) {
    && Increasing(accepted) && Increasing(dropped)
    && (forall n <- accepted :: n < handed)
    && (forall n <- dropped :: n < handed)
    && (forall n: nat | n < handed :: n in accepted <==> n !in dropped)
    && |accepted| + |dropped| == handed
  }

  lemma SplitAccept(handed: nat, accepted: seq<nat>, dropped: seq<nat>)
    requires Split(handed, accepted, dropped)
    ensures Split(handed + 1, accepted + [handed], dropped)
    ensures Split(handed + 1, accepted, dropped + [handed])
  {
    forall i | 0 <= i < |accepted| ensures accepted[i] < handed {
      assert accepted[i] in accepted;
    }
    forall i | 0 <= i < |dropped| ensures dropped[i] < handed {
      assert dropped[i] in dropped;
    }
    assert handed !in accepted && handed !in dropped;
  }

  ghost predicate PacketsOk(w: World) {
    Split(w.handed, Accepted(w), w.dropped)
  }

  lemma StepKeepsPackets(w: World, s: Step, capacity: nat)
    requires PacketsOk(w) && Enabled(w, s)
    ensures PacketsOk(Next(w, s, capacity))
    ensures Accepted(w) <= Accepted(Next(w, s, capacity))
  {
    hide Split, Accepted;
    StepDrops(w, s, capacity);
    if s.Offer? {
      SplitAccept(w.handed, Accepted(w), w.dropped);
    }
  }

  /** An offer goes to the queue or, when that is full, to the drops; no other step loses or adds a packet. */
  lemma StepDrops(w: World, s: Step, capacity: nat)
    requires Enabled(w, s)
    ensures var v := Next(w, s, capacity);
      && v.dropped == (if s.Offer? && |w.queue| >= capacity then w.dropped + [w.handed] else w.dropped)
      && Accepted(v) == (if s.Offer? && |w.queue| < capacity then Accepted(w) + [w.handed] else Accepted(w))
  {
  }

  // ----- Every interleaving -----

  ghost predicate Run(worlds: seq<World>, steps: seq<Step>, capacity: nat) {
    && |worlds| == |steps| + 1
    && worlds[0] == START
    && (forall i | 0 <= i < |steps| :: Enabled(worlds[i], steps[i]) && worlds[i + 1] == Next(worlds[i], steps[i], capacity))
  }

  lemma {:induction false} EveryRunKeeps(worlds: seq<World>, steps: seq<Step>, capacity: nat, i: nat)
    requires Run(worlds, steps, capacity) && i < |worlds|
    ensures BufsOk(worlds[i], capacity) && PacketsOk(worlds[i])
  {
    if i > 0 {
      EveryRunKeeps(worlds, steps, capacity, i - 1);
      StepKeepsBufs(worlds[i - 1], steps[i - 1], capacity);
      StepKeepsPackets(worlds[i - 1], steps[i - 1], capacity);
    }
  }

  /**
   While the reader runs, every buffer ever allocated is in exactly one of pool, queue, reader and
   processor, and no more than the queue's capacity plus two are ever allocated.
   */
  lemma BuffersAreConserved(worlds: seq<World>, steps: seq<Step>, capacity: nat, i: nat, b: Buf)
    requires Run(worlds, steps, capacity) && i < |worlds| && !worlds[i].reader.Exited?
    ensures Places(worlds[i], b) == if b < worlds[i].nextBuf then 1 else 0
    ensures |worlds[i].pool| <= worlds[i].nextBuf <= capacity + 2
  {
    EveryRunKeeps(worlds, steps, capacity, i);
    hide Run;
    var w := worlds[i];
    assert Places(w, b) <= if b < w.nextBuf then 1 else 0;
  }

  /** Every packet handed over has exactly one fate. */
  lemma PacketsAreConserved(worlds: seq<World>, steps: seq<Step>, capacity: nat, i: nat, n: nat)
    requires Run(worlds, steps, capacity) && i < |worlds| && n < worlds[i].handed
    ensures var w := worlds[i];
      multiset(w.processed)[n] + (if w.processor.Some? && w.processor.value.number == n then 1 else 0)
      + multiset(Numbers(w.queue))[n] + multiset(w.dropped)[n] == 1
  {
    EveryRunKeeps(worlds, steps, capacity, i);
    var w := worlds[i];
    AtMostOnce(Accepted(w), n);
    AtMostOnce(w.dropped, n);
  }

  /** Packets that were accepted and have not reached the processor. */
  ghost function InQueue(w: World): int {
    w.handed - |w.dropped| - |w.processed| - |InProcessor(w.processor)|
  }

  datatype Tally = Tally(packetsRead: nat, offers: nat, receipts: nat, completions: nat)

  /** How often each kind of step that moves a packet was taken. */
  ghost function Counted(steps: seq<Step>): Tally {
    if steps == [] then Tally(0, 0, 0, 0) else
      var front, last := Counted(steps[..|steps| - 1]), steps[|steps| - 1];
      match last
      case Read(result) => if result.GotPacket? then front.(packetsRead := front.packetsRead + 1) else front
      case Offer => front.(offers := front.offers + 1)
      case Receive => front.(receipts := front.receipts + 1)
      case Finish => front.(completions := front.completions + 1)
      case TakeBuffer => front
      case Cancel => front
  }

  /**
   Nothing happens to a packet but by a step of its own: every packet read is handed over or about to
   be, every offer hands over one, every receipt and every completion concern one packet.
   */
  lemma {:induction false} StepsAreCounted(worlds: seq<World>, steps: seq<Step>, capacity: nat, i: nat)
    requires Run(worlds, steps, capacity) && i < |worlds|
    ensures var w, tally := worlds[i], Counted(steps[..i]);
      && tally.packetsRead == w.handed + (if w.reader.Offering? then 1 else 0)
      && tally.offers == w.handed
      && tally.receipts == |w.processed| + |InProcessor(w.processor)|
      && tally.completions == |w.processed|
  {
    hide Next, Enabled, InProcessor;
    if i == 0 {
      NothingAtStart();
    } else {
      StepsAreCounted(worlds, steps, capacity, i - 1);
      assert steps[..i][..i - 1] == steps[..i - 1];
      StepMovesPackets(worlds[i - 1], steps[i - 1], capacity);
    }
  }

  lemma NothingAtStart()
    ensures InProcessor(START.processor) == []
  {
  }

  lemma StepMovesPackets(w: World, s: Step, capacity: nat)
    requires Enabled(w, s)
    ensures var v := Next(w, s, capacity);
      && v.handed == w.handed + (if s.Offer? then 1 else 0)
      && v.reader.Offering? == (if s.Offer? then false else w.reader.Offering? || (s.Read? && s.result.GotPacket?))
      && (s.Offer? ==> w.reader.Offering?) && (s.Read? ==> !w.reader.Offering?)
      && |v.processed| == |w.processed| + (if s.Finish? then 1 else 0)
      && |v.processed| + |InProcessor(v.processor)|
         == |w.processed| + |InProcessor(w.processor)| + (if s.Receive? then 1 else 0)
  {
  }

  lemma QueueLength(w: World)
    requires PacketsOk(w)
    ensures InQueue(w) == |w.queue|
  {
  }

  lemma {:induction false} AtMostOnce(s: seq<nat>, n: nat)
    requires Increasing(s)
    ensures multiset(s)[n] == if n in s then 1 else 0
  {
    if s != [] {
      var front, last := s[..|s| - 1], s[|s| - 1];
      AtMostOnce(front, n);
      assert s == front + [last];
      assert last !in front;
    }
  }

  /**
   Packets are processed in the order they entered the queue: what was processed only ever grows at
   its end. A packet is dropped exactly when as many accepted packets wait as the queue holds, and no
   other step loses or adds one.
   */
  lemma ProcessedInOrder(worlds: seq<World>, steps: seq<Step>, capacity: nat, i: nat)
    requires Run(worlds, steps, capacity) && i < |worlds|
    ensures worlds[i].processed <= Accepted(worlds[i]) && Increasing(worlds[i].processed)
    ensures 0 <= InQueue(worlds[i]) <= capacity
    ensures i + 1 < |worlds| ==> Accepted(worlds[i]) <= Accepted(worlds[i + 1])
    ensures i + 1 < |worlds| ==>
      var w, v, full := worlds[i], worlds[i + 1], InQueue(worlds[i]) == capacity;
      && v.dropped == (if steps[i].Offer? && full then w.dropped + [w.handed] else w.dropped)
      && Accepted(v) == (if steps[i].Offer? && !full then Accepted(w) + [w.handed] else Accepted(w))
  {
    EveryRunKeeps(worlds, steps, capacity, i);
    QueueLength(worlds[i]);
    ProcessedFirst(worlds[i]);
    hide PacketsOk, Places, Next, Accepted, InQueue, Increasing;
    if i + 1 < |worlds| {
      StepKeepsPackets(worlds[i], steps[i], capacity);
      StepDrops(worlds[i], steps[i], capacity);
    }
  }

  lemma ProcessedFirst(w: World)
    requires PacketsOk(w)
    ensures w.processed <= Accepted(w) && Increasing(w.processed)
  {
    assert forall k | 0 <= k < |w.processed| :: w.processed[k] == Accepted(w)[k];
  }
}
