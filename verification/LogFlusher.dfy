/**
 Shipping log batches: up to three attempts a flush, and redelivery in the next flush of whatever
 failed transiently. The network answers as it likes: a reply for every request and every time
 that request is sent. Replies depend on nothing else, so sending one request after the other
 stands for any interleaving of the concurrent sends.
 */
module LogFlusher {
  import opened Common

  const MAX_FLUSH_ATTEMPTS: nat := 3

  type Id = nat

  datatype Reply = Status(code: nat) | NetworkError {
    predicate Success() {
      Status? && 200 <= code < 300
    }

    /** Client errors other than 408, 425 and 429 are not worth retrying. */
    predicate Permanent() {
      Status? && 400 <= code < 500 && code !in {408, 425, 429}
    }

    predicate Transient() {
      !Success() && !Permanent()
    }
  }

  type Network = (Id, nat) -> Reply

  datatype Fate = Accepted | Rejected

  /** What is known of every drained batch. */
  datatype Ledger = Ledger(
    sent: map<Id, nat>,
    fates: map<Id, Fate>,
    pending: seq<Id>,
    next: Id,
    flushes: nat,
    drainedAt: map<Id, nat>)

  const EMPTY: Ledger := Ledger(map[], map[], [], 0, 0, map[])

  // ----- One request -----

  datatype Delivery = Delivery(fate: Option<Fate>, sent: nat)

  /** `send_with_retry` from the attempt after `attempts`, for a request sent `sent` times so far. */
  function Deliver(network: Network, id: Id, sent: nat, attempts: nat): Delivery
    requires attempts < MAX_FLUSH_ATTEMPTS
    decreases MAX_FLUSH_ATTEMPTS - attempts
  {
    var reply := network(id, sent);
    if reply.Success() then Delivery(Some(Accepted), sent + 1)
    else if reply.Permanent() then Delivery(Some(Rejected), sent + 1)
    else if attempts + 1 >= MAX_FLUSH_ATTEMPTS then Delivery(None, sent + 1)
    else Deliver(network, id, sent + 1, attempts + 1)
  }

  ghost predicate AllTransient(network: Network, id: Id, lo: nat, hi: nat) {
    forall k | lo <= k < hi :: network(id, k).Transient()
  }

  /** The request stopped at its first final reply, or used up its attempts. */
  lemma {:induction false} DeliverStopsAtFinal(network: Network, id: Id, sent: nat, attempts: nat)
    requires attempts < MAX_FLUSH_ATTEMPTS
    ensures var d := Deliver(network, id, sent, attempts);
      && sent < d.sent <= sent + MAX_FLUSH_ATTEMPTS - attempts
      && AllTransient(network, id, sent, d.sent - 1)
      && match d.fate
         case None => d.sent == sent + MAX_FLUSH_ATTEMPTS - attempts && AllTransient(network, id, sent, d.sent)
         case Some(Accepted) => network(id, d.sent - 1).Success()
         case Some(Rejected) => network(id, d.sent - 1).Permanent()
    decreases MAX_FLUSH_ATTEMPTS - attempts
  {
    if network(id, sent).Transient() && attempts + 1 < MAX_FLUSH_ATTEMPTS {
      DeliverStopsAtFinal(network, id, sent + 1, attempts + 1);
    }
  }

  /** Worth sending again: no answer, a timeout, too early, too many requests, a server error, or nothing known. */
  ghost predicate WorthRetrying(reply: Reply) {
    match reply
    case NetworkError => true
    case Status(code) => code == 408 || code == 425 || code == 429 || code < 200 || 300 <= code < 400 || code >= 500
  }

  /** A flush hands a request back exactly when three replies in a row were worth a retry. */
  lemma HandedBackExactly(network: Network, id: Id, sent: nat)
    ensures Deliver(network, id, sent, 0).fate == None <==>
      WorthRetrying(network(id, sent)) && WorthRetrying(network(id, sent + 1)) && WorthRetrying(network(id, sent + 2))
    ensures forall code: nat :: network(id, sent) == Status(code) ==>
      && (Deliver(network, id, sent, 0) == Delivery(Some(Accepted), sent + 1) <== 200 <= code < 300)
      && (Deliver(network, id, sent, 0) == Delivery(Some(Rejected), sent + 1) <== 400 <= code < 500 && code != 408 && code != 425 && code != 429)
  {
    DeliverStopsAtFinal(network, id, sent, 0);
  }

  // ----- A flush -----

  function SentOf(l: Ledger, id: Id): nat {
    if id in l.sent then l.sent[id] else 0
  }

  /** Sends one request and books the result. */
  function AfterSend(network: Network, l: Ledger, id: Id): Ledger {
    var d := Deliver(network, id, SentOf(l, id), 0);
    var booked := l.(sent := l.sent[id := d.sent]);
    if d.fate.Some? then booked.(fates := l.fates[id := d.fate.value])
    else booked.(pending := l.pending + [id])
  }

  function AfterSends(network: Network, l: Ledger, ids: seq<Id>): Ledger
    decreases |ids|
  {
    if ids == [] then l else AfterSends(network, AfterSend(network, l, ids[0]), ids[1..])
  }

  /** The identities of `n` newly drained batches. */
  function Drained(first: Id, n: nat): seq<Id> {
    seq(n, i => first + i)
  }

  function AfterDrain(l: Ledger, n: nat): Ledger {
    l.(next := l.next + n,
       drainedAt := map id: Id | 0 <= id < l.next + n :: if id in l.drainedAt then l.drainedAt[id] else l.flushes)
  }

  /**
   One flush and the bookkeeping around it: the failed requests of the previous flush first, then
   the newly drained batches. `drained` is `None` when the aggregator could not be asked.
   */
  function AfterFlush(network: Network, l: Ledger, drained: Option<nat>): Ledger {
    var retried := AfterSends(network, l.(pending := []), l.pending);
    if drained.None? then retried.(flushes := retried.flushes + 1) else
      var after := AfterSends(network, AfterDrain(retried, drained.value), Drained(retried.next, drained.value));
      after.(flushes := after.flushes + 1)
  }

  function AfterFlushes(network: Network, cycles: seq<Option<nat>>): Ledger {
    if cycles == [] then EMPTY
    else AfterFlush(network, AfterFlushes(network, cycles[..|cycles| - 1]), cycles[|cycles| - 1])
  }

  // ----- Conservation -----

  /** The replies so far are what the booking says, and sending stopped at the first final one. */
  ghost predicate Honest(network: Network, l: Ledger, id: Id) {
    var sent := SentOf(l, id);
    if id in l.fates then
      && sent >= 1
      && AllTransient(network, id, 0, sent - 1)
      && (if l.fates[id].Accepted? then network(id, sent - 1).Success() else network(id, sent - 1).Permanent())
    else
      AllTransient(network, id, 0, sent)
  }

  /** `todo` are the requests still to be sent in the running flush. */
  ghost predicate Accounted(network: Network, l: Ledger, todo: seq<Id>) {
    && Distinct(l.pending + todo)
    && (forall id <- l.pending + todo :: id < l.next && id !in l.fates)
    && (forall id: Id | id < l.next :: id in l.fates || id in l.pending + todo)
    && (forall id <- l.fates :: id < l.next)
    && (forall id <- l.sent :: id < l.next)
    && (forall id: Id | id < l.next :: Honest(network, l, id))
    && (forall id: Id :: id in l.drainedAt <==> id < l.next)
  }

  /** How the sends of `ids` changed the books of each request. */
  ghost predicate SentWithin(l: Ledger, after: Ledger, ids: seq<Id>) {
    && (forall id: Id :: id !in ids ==> SentOf(after, id) == SentOf(l, id))
    && (forall id <- ids :: SentOf(l, id) < SentOf(after, id) <= SentOf(l, id) + MAX_FLUSH_ATTEMPTS)
    && (forall id <- after.pending :: id in l.pending || (id in ids && SentOf(after, id) == SentOf(l, id) + MAX_FLUSH_ATTEMPTS))
    && (forall id <- l.fates :: id in after.fates && after.fates[id] == l.fates[id])
    && after.next == l.next && after.drainedAt == l.drainedAt && after.flushes == l.flushes
  }

  lemma SendKeepsAccounted(network: Network, l: Ledger, todo: seq<Id>)
    requires todo != [] && Accounted(network, l, todo)
    ensures Accounted(network, AfterSend(network, l, todo[0]), todo[1..])
    ensures SentWithin(l, AfterSend(network, l, todo[0]), [todo[0]])
  {
    var id := todo[0];
    DeliverStopsAtFinal(network, id, SentOf(l, id), 0);
    hide Deliver;
    var after := AfterSend(network, l, id);
    SameRequests(l.pending, todo, after.pending);
    assert id in l.pending + todo;
    forall other: Id | other < l.next ensures Honest(network, after, other) {
      if other == id {
        StaysHonest(network, l, id);
      } else {
        assert Honest(network, l, other);
      }
    }
  }

  /** One request sent: the pending and still-to-send ones lose it if it is settled, and only then. */
  lemma SameRequests(pending: seq<Id>, todo: seq<Id>, after: seq<Id>)
    requires todo != [] && Distinct(pending + todo) && (after == pending || after == pending + [todo[0]])
    ensures Distinct(after + todo[1..])
    ensures forall id :: id in after + todo[1..] <==>
      (id in pending + todo && (id != todo[0] || after == pending + [todo[0]]))
  {
    var before, now := pending + todo, after + todo[1..];
    if after == pending {
      DropOne(before, |pending|);
      assert now == before[..|pending|] + before[|pending| + 1..];
    } else {
      assert now == before;
    }
  }

  lemma StaysHonest(network: Network, l: Ledger, id: Id)
    requires Honest(network, l, id) && id !in l.fates
    ensures Honest(network, AfterSend(network, l, id), id)
  {
    DeliverStopsAtFinal(network, id, SentOf(l, id), 0);
    hide Deliver;
  }

  lemma DropOne(ids: seq<Id>, i: nat)
    requires Distinct(ids) && i < |ids|
    ensures var rest := ids[..i] + ids[i + 1..];
      Distinct(rest) && (forall id :: id in rest <==> id in ids && id != ids[i])
  {
    var rest := ids[..i] + ids[i + 1..];
    forall id | id in ids && id != ids[i] ensures id in rest {
      var k :| 0 <= k < |ids| && ids[k] == id;
      assert if k < i then rest[k] == id else rest[k - 1] == id;
    }
  }

  lemma {:induction false} SendsKeepAccounted(network: Network, l: Ledger, ids: seq<Id>)
    requires Accounted(network, l, ids)
    ensures Accounted(network, AfterSends(network, l, ids), [])
    ensures SentWithin(l, AfterSends(network, l, ids), ids)
    decreases |ids|
  {
    hide AfterSend, Honest;
    if ids != [] {
      SendKeepsAccounted(network, l, ids);
      DistinctTail(l.pending, ids);
      var mid := AfterSend(network, l, ids[0]);
      SendsKeepAccounted(network, mid, ids[1..]);
      Chain(l, mid, AfterSends(network, l, ids), ids);
    }
  }

  lemma DistinctTail(a: seq<Id>, b: seq<Id>)
    requires Distinct(a + b)
    ensures Distinct(b)
  {
    forall i, j | 0 <= i < j < |b| ensures b[i] != b[j] {
      assert (a + b)[|a| + i] == b[i] && (a + b)[|a| + j] == b[j];
    }
  }

  lemma Chain(l: Ledger, mid: Ledger, after: Ledger, ids: seq<Id>)
    requires ids != [] && Distinct(ids)
    requires SentWithin(l, mid, [ids[0]]) && SentWithin(mid, after, ids[1..])
    ensures SentWithin(l, after, ids)
  {
  }

  // ----- Whole runs -----

  /** Every pending batch has used every attempt of every flush since it was drained. */
  ghost predicate Persistent(l: Ledger, flushes: nat) {
    forall id <- l.pending ::
      id in l.drainedAt && l.drainedAt[id] <= flushes
      && SentOf(l, id) == MAX_FLUSH_ATTEMPTS * (flushes - l.drainedAt[id])
  }

  /** Between flushes every drained batch is settled, or pending once. */
  ghost predicate Settled(network: Network, l: Ledger) {
    Accounted(network, l, []) && Persistent(l, l.flushes)
  }

  lemma DrainedIds(first: Id, n: nat)
    ensures Distinct(Drained(first, n))
    ensures forall id: Id :: id in Drained(first, n) <==> first <= id < first + n
  {
    forall id: Id | first <= id < first + n ensures id in Drained(first, n) {
      assert Drained(first, n)[id - first] == id;
    }
  }

  lemma DrainKeepsAccounted(network: Network, l: Ledger, n: nat)
    requires Accounted(network, l, [])
    ensures Accounted(network, AfterDrain(l, n), Drained(l.next, n))
  {
    DrainedIds(l.next, n);
    var after, ids := AfterDrain(l, n), Drained(l.next, n);
    assert l.pending + [] == l.pending;
    forall i, j | 0 <= i < j < |l.pending + ids| ensures (l.pending + ids)[i] != (l.pending + ids)[j] {
      assert i < |l.pending| ==> (l.pending + [])[i] == l.pending[i];
      assert j < |l.pending| ==> (l.pending + [])[j] == l.pending[j];
      assert i < |l.pending| ==> l.pending[i] in l.pending + [];
      assert j >= |l.pending| ==> ids[j - |l.pending|] in ids;
    }
    forall id: Id | id < after.next ensures Honest(network, after, id) {
      if id < l.next {
        assert Honest(network, l, id);
      }
    }
  }

  /** What a flush, or half of one, may do to the books. */
  ghost predicate Progress(l: Ledger, after: Ledger) {
    && (forall id: Id :: SentOf(l, id) <= SentOf(after, id) <= SentOf(l, id) + MAX_FLUSH_ATTEMPTS)
    && (forall id <- l.fates :: id in after.fates && after.fates[id] == l.fates[id] && SentOf(after, id) == SentOf(l, id))
  }

  lemma RetryHalf(network: Network, l: Ledger)
    requires Settled(network, l)
    ensures var retried := AfterSends(network, l.(pending := []), l.pending);
      && Accounted(network, retried, []) && Persistent(retried, l.flushes + 1)
      && SentWithin(l.(pending := []), retried, l.pending)
      && Progress(l, retried)
      && (forall id: Id | id >= retried.next :: SentOf(retried, id) == SentOf(l, id))
  {
    hide AfterSends, Honest;
    var start := l.(pending := []);
    assert start.pending + l.pending == l.pending + [];
    forall id: Id | id < l.next ensures Honest(network, start, id) {
      SameBooks(network, l, start, id);
    }
    SendsKeepAccounted(network, start, l.pending);
    assert forall id <- l.pending :: id in l.pending + [];
  }

  lemma DrainHalf(network: Network, l: Ledger, n: nat)
    requires Accounted(network, l, []) && Persistent(l, l.flushes + 1)
    ensures var after := AfterSends(network, AfterDrain(l, n), Drained(l.next, n));
      && Accounted(network, after, []) && Persistent(after, l.flushes + 1)
      && after.flushes == l.flushes
      && Progress(l, after)
      && (forall id: Id | id < l.next :: SentOf(after, id) == SentOf(l, id))
  {
    hide AfterSends, Honest, Distinct;
    assert l.pending + [] == l.pending;
    DrainKeepsAccounted(network, l, n);
    DrainedIds(l.next, n);
    SendsKeepAccounted(network, AfterDrain(l, n), Drained(l.next, n));
    assert forall id: Id :: SentOf(AfterDrain(l, n), id) == SentOf(l, id);
    assert forall id: Id | id >= l.next :: SentOf(l, id) == 0;
  }

  /**
   One flush: nothing is lost or doubled, each request is sent at most three times, and one with a
   final reply is never sent again.
   */
  lemma FlushKeepsSettled(network: Network, l: Ledger, drained: Option<nat>)
    requires Settled(network, l)
    ensures Settled(network, AfterFlush(network, l, drained))
    ensures Progress(l, AfterFlush(network, l, drained))
    ensures AfterFlush(network, l, drained).flushes == l.flushes + 1
  {
    hide AfterSends, Honest, Distinct, AfterDrain, Accounted, Persistent, Progress;
    RetryHalf(network, l);
    var retried := AfterSends(network, l.(pending := []), l.pending);
    if drained.None? {
      FlushEnds(network, l, retried, l.flushes + 1);
    } else {
      DrainHalf(network, retried, drained.value);
      var after := AfterSends(network, AfterDrain(retried, drained.value), Drained(retried.next, drained.value));
      ProgressChain(l, retried, after);
      FlushEnds(network, l, after, l.flushes + 1);
    }
  }

  lemma ProgressChain(l: Ledger, mid: Ledger, after: Ledger)
    requires Progress(l, mid) && Progress(mid, after)
    requires forall id: Id | id < mid.next :: SentOf(after, id) == SentOf(mid, id)
    requires forall id: Id | id >= mid.next :: SentOf(mid, id) == SentOf(l, id)
    ensures Progress(l, after)
  {
    forall id: Id ensures SentOf(l, id) <= SentOf(after, id) <= SentOf(l, id) + MAX_FLUSH_ATTEMPTS {
      if id < mid.next {
        assert SentOf(after, id) == SentOf(mid, id);
      } else {
        assert SentOf(mid, id) == SentOf(l, id);
      }
    }
  }

  lemma SameBooks(network: Network, l: Ledger, m: Ledger, id: Id)
    requires Honest(network, l, id) && m.sent == l.sent && m.fates == l.fates
    ensures Honest(network, m, id)
  {
  }

  lemma FlushEnds(network: Network, before: Ledger, l: Ledger, flushes: nat)
    requires Accounted(network, l, []) && Persistent(l, flushes) && Progress(before, l)
    ensures Settled(network, l.(flushes := flushes)) && Progress(before, l.(flushes := flushes))
  {
    hide Honest;
    forall id: Id | id < l.next ensures Honest(network, l.(flushes := flushes), id) {
      SameBooks(network, l, l.(flushes := flushes), id);
    }
  }

  /** In every run of flushes, whatever the network answers, every drained batch is accounted for. */
  lemma {:induction false} EveryRunIsSettled(network: Network, cycles: seq<Option<nat>>)
    ensures Settled(network, AfterFlushes(network, cycles))
    ensures AfterFlushes(network, cycles).flushes == |cycles|
  {
    hide AfterFlush;
    if cycles != [] {
      var front := cycles[..|cycles| - 1];
      EveryRunIsSettled(network, front);
      FlushKeepsSettled(network, AfterFlushes(network, front), cycles[|cycles| - 1]);
    }
  }

  /** In plain terms: exactly one of accepted, rejected and pending once, and the replies say which. */
  lemma ExactlyOneFate(network: Network, cycles: seq<Option<nat>>, id: Id)
    requires id < AfterFlushes(network, cycles).next
    ensures var l := AfterFlushes(network, cycles);
      && (id in l.fates <==> id !in l.pending)
      && (id in l.fates <==> exists k | 0 <= k < SentOf(l, id) :: !network(id, k).Transient())
      && (forall k | 0 <= k < SentOf(l, id) - 1 :: network(id, k).Transient())
      && (id in l.fates ==> (l.fates[id].Accepted? <==> network(id, SentOf(l, id) - 1).Success()))
      && (forall i, j | 0 <= i < j < |l.pending| :: l.pending[i] != l.pending[j])
  {
    EveryRunIsSettled(network, cycles);
    hide AfterFlushes;
    var l := AfterFlushes(network, cycles);
    assert l.pending + [] == l.pending;
    assert Honest(network, l, id);
  }

  // ----- The flusher as it is written -----

  class LogFlusher {
    const network: Network
    var ledger: Ledger

    constructor (network: Network)
      ensures this.network == network && ledger == EMPTY
    {
      this.network := network;
      ledger := EMPTY;
    }

    /** `None` hands the request back for the next flush. */
    method SendWithRetry(id: Id) returns (fate: Option<Fate>)
      modifies this
      ensures var d := Deliver(network, id, SentOf(old(ledger), id), 0);
        fate == d.fate && ledger == old(ledger).(sent := old(ledger).sent[id := d.sent])
    {
      var attempts := 0;
      ghost var d := Deliver(network, id, SentOf(ledger, id), 0);
      while true
        invariant attempts < MAX_FLUSH_ATTEMPTS
        invariant ledger == old(ledger).(sent := ledger.sent)
        invariant ledger.sent[id := d.sent] == old(ledger).sent[id := d.sent]
        invariant d == Deliver(network, id, SentOf(ledger, id), attempts)
        decreases MAX_FLUSH_ATTEMPTS - attempts
      {
        attempts := attempts + 1;
        var reply := network(id, SentOf(ledger, id));
        ghost var before := ledger;
        ledger := ledger.(sent := ledger.sent[id := SentOf(ledger, id) + 1]);
        assert ledger.sent[id := d.sent] == before.sent[id := d.sent];
        if reply.Success() {
          return Some(Accepted);
        }
        if reply.Permanent() {
          return Some(Rejected);
        }
        if attempts >= MAX_FLUSH_ATTEMPTS {
          return None;
        }
      }
    }

    /** Sends the requests and appends the failed ones, as both halves of `flush` do. */
    method SendAll(ids: seq<Id>)
      modifies this
      ensures ledger == AfterSends(network, old(ledger), ids)
    {
      hide Deliver;
      for i := 0 to |ids|
        invariant AfterSends(network, ledger, ids[i..]) == AfterSends(network, old(ledger), ids)
      {
        ghost var before := ledger;
        var fate := SendWithRetry(ids[i]);
        if fate.Some? {
          ledger := ledger.(fates := ledger.fates[ids[i] := fate.value]);
        } else {
          ledger := ledger.(pending := ledger.pending + [ids[i]]);
        }
        assert ledger == AfterSend(network, before, ids[i]);
        assert ids[i..][1..] == ids[i + 1..];
      }
    }

    /** One flush tick: hand over the pending requests, flush, and keep what failed. */
    method Flush(drained: Option<nat>)
      modifies this
      ensures ledger == AfterFlush(network, old(ledger), drained)
    {
      hide AfterSends;
      var retryRequests := ledger.pending;
      ledger := ledger.(pending := []);
      SendAll(retryRequests);
      if drained.Some? {
        var ids := Drained(ledger.next, drained.value);
        ledger := AfterDrain(ledger, drained.value);
        SendAll(ids);
      }
      ledger := ledger.(flushes := ledger.flushes + 1);
    }
  }
}
