/**
 The rate-limited error sampler: signatures folded once too many are known, then counted and
 rated by the engine, and a keep decision on the trace id.
 */
module RateLimited {
  import opened Common
  import opened RealSums
  import opened Ring
  import opened SamplerModel
  import opened SamplerInvariants
  import opened SamplerRuns
  import opened SampleByRate
  import opened Signatures
  import opened ScoreSampler

  datatype TraceView = TraceView(
    env: Bytes,
    traceId: u64,
    rootIndex: nat,
    rootGlobalSampleRate: real,
    spans: seq<SpanView>)

  datatype SampleDecision = Keep(errorsSr: real) | Drop

  datatype Limiter = Limiter(sampler: State, disabled: bool, allowList: Option<set<Signature>>)

  /** The upstream rate, trusted only inside (0, 1]. */
  function ClientRate(trace: TraceView): (r: real)
    ensures 0.0 < r <= 1.0
    ensures if 0.0 < trace.rootGlobalSampleRate <= 1.0 then r == trace.rootGlobalSampleRate else r == 1.0
  {
    if trace.rootGlobalSampleRate <= 0.0 || trace.rootGlobalSampleRate > 1.0 then 1.0 else trace.rootGlobalSampleRate
  }

  function WeightRoot(trace: TraceView): (w: real)
    ensures w >= 1.0 && w * ClientRate(trace) == 1.0
  {
    var r := ClientRate(trace);
    var w := 1.0 / r;
    assert w * r == 1.0;
    if w < 1.0 then assert w * r < 1.0 * r; w else w
  }

  function Decide(trace: TraceView, rate: real): SampleDecision {
    if SampledByRate(trace.traceId, Product(ClientRate(trace), rate)) then Keep(rate) else Drop
  }

  /** Scored means: not disabled, and the chunk has its root. */
  predicate Scored(l: Limiter, trace: TraceView) {
    !l.disabled && trace.rootIndex < |trace.spans|
  }

  /** `shrink`, the allow-list part: taken when 100 signatures are known, forgotten below that. */
  function AfterShrink(l: Limiter): Limiter {
    if |l.sampler.seen| < 100 then l.(allowList := None)
    else if l.allowList.None? then l.(allowList := Some(l.sampler.rates.Keys))
    else l
  }

  /** `shrink`, the signature part. */
  function Shrunk(l: Limiter, sig: Signature): Signature {
    if |l.sampler.seen| < 100 then sig
    else if sig in AfterShrink(l).allowList.value then sig
    else sig % 100
  }

  ghost function CountedAs(l: Limiter, trace: TraceView): Signature
    requires Scored(l, trace)
  {
    Shrunk(l, TraceSignature(trace.spans, trace.rootIndex, trace.env))
  }

  ghost function AfterSample(l: Limiter, now: int, trace: TraceView): Limiter {
    if !Scored(l, trace) then l
    else AfterShrink(l).(sampler := AfterCount(l.sampler, now, CountedAs(l, trace), WeightRoot(trace)))
  }

  ghost function Decision(l: Limiter, now: int, trace: TraceView): SampleDecision {
    if !Scored(l, trace) then Drop
    else Decide(trace, SignatureSampleRate(AfterSample(l, now, trace).sampler, CountedAs(l, trace)))
  }

  function NewLimiter(targetTps: real, extraRate: real): Limiter {
    Limiter(Initial(extraRate, targetTps), targetTps <= 0.0, None)
  }

  class RateLimitedSampler {
    const sampler: Sampler
    const disabled: bool
    var shrinkAllowList: Option<set<Signature>>

    function Model(): Limiter
      reads this, sampler
    {
      Limiter(sampler.Model(), disabled, shrinkAllowList)
    }

    constructor (targetTps: real, extraSampleRate: real)
      ensures Model() == NewLimiter(targetTps, extraSampleRate)
      ensures fresh(sampler)
    {
      sampler := new Sampler(extraSampleRate, targetTps);
      disabled := targetTps <= 0.0;
      shrinkAllowList := None;
    }

    method Shrink(sig: Signature) returns (folded: Signature)
      modifies this`shrinkAllowList
      ensures folded == Shrunk(old(Model()), sig) && Model() == AfterShrink(old(Model()))
    {
      if |sampler.seen| < 100 {
        shrinkAllowList := None;
        return sig;
      }
      if shrinkAllowList.None? {
        shrinkAllowList := Some(sampler.rates.Keys);
      }
      if sig in shrinkAllowList.value {
        return sig;
      }
      return sig % 100;
    }

    method Sample(now: int, trace: TraceView) returns (decision: SampleDecision)
      modifies this, sampler
      ensures Model() == AfterSample(old(Model()), now, trace)
      ensures decision == Decision(old(Model()), now, trace)
    {
      hide AfterCount, TraceSignature, SignatureSampleRate;
      if disabled || trace.rootIndex >= |trace.spans| {
        return Drop;
      }
      var signature := ComputeSignature(trace.spans, trace.rootIndex, trace.env);
      signature := Shrink(signature);
      var _ := sampler.CountWeightedSig(now, signature, WeightRoot(trace));
      var rate := SignatureSampleRate(sampler.Model(), signature);
      decision := Decide(trace, rate);
    }
  }

  /** Which signatures escape folding, exactly. */
  lemma KeepsItsName(l: Limiter, sig: Signature)
    ensures Shrunk(l, sig) == sig <==>
      || |l.sampler.seen| < 100
      || sig < 100
      || (if l.allowList.Some? then sig in l.allowList.value else sig in l.sampler.rates)
  {
    assert sig as int % 100 == sig as int <==> sig as int < 100;
  }

  // ----- Runs -----

  datatype Call = Call(now: int, trace: TraceView)

  ghost function AfterCalls(l: Limiter, calls: seq<Call>): Limiter {
    if calls == [] then l else
      var c := calls[|calls| - 1];
      AfterSample(AfterCalls(l, calls[..|calls| - 1]), c.now, c.trace)
  }

  /** What the calls of a run amount to for the engine: folded signatures and root weights. */
  ghost function EventsOf(l: Limiter, calls: seq<Call>): seq<Event> {
    if calls == [] then [] else
      var front, c := calls[..|calls| - 1], calls[|calls| - 1];
      var before := AfterCalls(l, front);
      if Scored(before, c.trace)
      then EventsOf(l, front) + [Event(c.now, CountedAs(before, c.trace), WeightRoot(c.trace))]
      else EventsOf(l, front)
  }

  ghost predicate TimelyCalls(calls: seq<Call>) {
    && (forall i | 0 <= i < |calls| :: calls[i].now >= 0)
    && (forall i, j | 0 <= i < j < |calls| :: calls[i].now <= calls[j].now)
  }

  /** A run of calls drives the engine through the run of its events. */
  lemma {:induction false} CallsAreEvents(l: Limiter, calls: seq<Call>)
    ensures AfterCalls(l, calls).sampler == After(l.sampler, EventsOf(l, calls))
    ensures Weighted(EventsOf(l, calls))
  {
    hide After, AfterCount, CountedAs, AfterShrink, WeightRoot;
    if calls != [] {
      var front, c := calls[..|calls| - 1], calls[|calls| - 1];
      CallsAreEvents(l, front);
      var events := EventsOf(l, front);
      if Scored(AfterCalls(l, front), c.trace) {
        var e := Event(c.now, CountedAs(AfterCalls(l, front), c.trace), WeightRoot(c.trace));
        AfterOneMore(l.sampler, events, e);
      }
    } else {
      AfterNothing(l.sampler);
    }
  }

  lemma AfterNothing(start: State)
    ensures After(start, []) == start
  {
  }

  lemma AfterOneMore(start: State, events: seq<Event>, e: Event)
    ensures After(start, events + [e]) == AfterCount(After(start, events), e.now, e.sig, e.weight)
  {
    hide AfterCount;
    assert (events + [e])[..|events|] == events && (events + [e])[|events|] == e;
  }

  lemma {:induction false} TimelyEvents(l: Limiter, calls: seq<Call>)
    requires TimelyCalls(calls)
    ensures Timely(EventsOf(l, calls))
    ensures calls != [] ==>
      forall i | 0 <= i < |EventsOf(l, calls)| :: EventsOf(l, calls)[i].now <= calls[|calls| - 1].now
  {
    hide CountedAs, AfterCalls;
    if calls != [] {
      var front, c := calls[..|calls| - 1], calls[|calls| - 1];
      TimelyEvents(l, front);
      if front != [] {
        assert front[|front| - 1].now <= c.now;
      }
    }
  }

  /**
   Whatever is sampled under a clock that does not go back: the engine keeps its invariant, and its
   rings agree with the record of what was counted.
   */
  lemma EveryRunIsAccounted(l: Limiter, calls: seq<Call>)
    requires Fresh(l.sampler) && TimelyCalls(calls)
    ensures var s := AfterCalls(l, calls).sampler;
      Inv(s) && Aligned(s, EventsOf(l, calls))
  {
    CallsAreEvents(l, calls);
    TimelyEvents(l, calls);
    RunIsAligned(l.sampler, EventsOf(l, calls));
  }

  /** Any sample that rotates the buckets leaves rates within the budget for the recorded traffic. */
  lemma EveryRotationIsWithinBudget(l: Limiter, calls: seq<Call>, c: Call)
    requires Fresh(l.sampler) && TimelyCalls(calls + [c])
    requires Scored(AfterCalls(l, calls), c.trace) && Rotates(AfterCalls(l, calls).sampler, c.now)
    ensures var rates := AfterCalls(l, calls + [c]).sampler.rates;
      && MapSum(Sampled(rates, EventsOf(l, calls), BucketId(c.now))) <= l.sampler.targetTps
      && forall sig <- rates :: 0.0 < rates[sig] <= 1.0
  {
    hide MapSum, Sampled, HistoryPeak, After, Fresh, AfterCalls, TimelyCalls, Timely, Weighted, Counted, WeightRoot, TraceSignature;
    CallsAreEvents(l, calls);
    CallsAreEvents(l, calls + [c]);
    TimelyEvents(l, calls + [c]);
    OneMoreEvent(l, calls, c);
    var e := Event(c.now, CountedAs(AfterCalls(l, calls), c.trace), WeightRoot(c.trace));
    BudgetOnEveryRotation(l.sampler, EventsOf(l, calls), e);
  }

  lemma OneMoreEvent(l: Limiter, calls: seq<Call>, c: Call)
    requires Scored(AfterCalls(l, calls), c.trace)
    ensures EventsOf(l, calls + [c]) ==
      EventsOf(l, calls) + [Event(c.now, CountedAs(AfterCalls(l, calls), c.trace), WeightRoot(c.trace))]
  {
    hide CountedAs, WeightRoot, AfterCalls;
    assert (calls + [c])[..|calls|] == calls && (calls + [c])[|calls|] == c;
  }

  /** If call `k` rotates the buckets, the rates it sets are within the target for the recorded traffic. */
  ghost predicate RotationWithinBudget(l: Limiter, calls: seq<Call>, k: nat)
    requires k < |calls|
  {
    var before, now := AfterCalls(l, calls[..k]), calls[k].now;
    Scored(before, calls[k].trace) && Rotates(before.sampler, now) ==>
      MapSum(Sampled(AfterCalls(l, calls[..k + 1]).sampler.rates, EventsOf(l, calls[..k]), BucketId(now)))
        <= l.sampler.targetTps
  }

  lemma EachRotation(l: Limiter, calls: seq<Call>, k: nat)
    requires Fresh(l.sampler) && TimelyCalls(calls) && k < |calls|
    ensures RotationWithinBudget(l, calls, k)
  {
    hide AfterCalls, EventsOf, Sampled, MapSum, Rotates, Scored;
    assert calls[..k] + [calls[k]] == calls[..k + 1];
    var before := AfterCalls(l, calls[..k]);
    if Scored(before, calls[k].trace) && Rotates(before.sampler, calls[k].now) {
      EveryRotationIsWithinBudget(l, calls[..k], calls[k]);
    }
  }

  // ----- Who is folded -----

  /** Whom the sampler protects from folding. */
  ghost predicate Protected(l: Limiter, sig: Signature) {
    |l.sampler.seen| < 100 || (if l.allowList.Some? then sig in l.allowList.value else sig in l.sampler.rates)
  }

  /**
   Signatures that are not protected are folded onto [0, 100), and two of them onto the same value
   exactly when they differ by a multiple of 100. A protected one stays.
   */
  lemma FoldedTogether(l: Limiter, a: Signature, b: Signature)
    ensures Protected(l, a) ==> Shrunk(l, a) == a
    ensures !Protected(l, a) ==> Shrunk(l, a) < 100 && (a as int - Shrunk(l, a) as int) % 100 == 0
    ensures !Protected(l, a) && !Protected(l, b) ==>
      (Shrunk(l, a) == Shrunk(l, b) <==> (a as int - b as int) % 100 == 0)
  {
  }

  /** A scored call, and one that finds at least a hundred signatures. */
  ghost predicate ScoredAt(l: Limiter, calls: seq<Call>, i: nat)
    requires i < |calls|
  {
    Scored(AfterCalls(l, calls[..i]), calls[i].trace)
  }

  ghost predicate CrowdedAt(l: Limiter, calls: seq<Call>, i: nat)
    requires i < |calls|
  {
    |AfterCalls(l, calls[..i]).sampler.seen| >= 100
  }

  /** The list was taken by call `k`, from the rates stored then, and every scored call since was crowded. */
  ghost predicate TakenAt(l: Limiter, calls: seq<Call>, k: nat, allowed: set<Signature>) {
    && k < |calls| && ScoredAt(l, calls, k) && AfterCalls(l, calls[..k]).allowList == None
    && allowed == AfterCalls(l, calls[..k]).sampler.rates.Keys
    && forall i | k <= i < |calls| && ScoredAt(l, calls, i) :: CrowdedAt(l, calls, i)
  }

  /** The last scored call, if any, was not crowded. */
  ghost predicate RoomyAtLast(l: Limiter, calls: seq<Call>) {
    forall i | 0 <= i < |calls| && ScoredAt(l, calls, i) && CrowdedAt(l, calls, i) ::
      exists j :: i < j < |calls| && ScoredAt(l, calls, j) && !CrowdedAt(l, calls, j)
  }

  /**
   In every run, the allow-list in force is the rates stored when the present crowd began, and there
   is none after a scored call that found fewer than a hundred signatures.
   */
  lemma {:induction false} AllowListInForce(l: Limiter, calls: seq<Call>)
    requires l.allowList == None
    ensures match AfterCalls(l, calls).allowList
      case None => RoomyAtLast(l, calls)
      case Some(allowed) => exists k :: TakenAt(l, calls, k, allowed)
  {
    hide AfterCalls, AfterSample, Scored;
    if calls == [] {
      assert AfterCalls(l, []) == l by {
        NoCallsYet(l);
      }
    } else {
      var n := |calls| - 1;
      var front := calls[..n];
      AllowListInForce(l, front);
      OneMoreCall(l, calls);
      SameBefore(l, calls);
      hide ScoredAt, CrowdedAt;
      var before := AfterCalls(l, front).allowList;
      if before.Some? && (ScoredAt(l, calls, n) ==> CrowdedAt(l, calls, n)) {
        var k: nat :| TakenAt(l, front, k, before.value);
        assert calls[..k] == front[..k];
        assert TakenAt(l, calls, k, before.value);
      } else if ScoredAt(l, calls, n) && CrowdedAt(l, calls, n) {
        assert TakenAt(l, calls, n, AfterCalls(l, front).sampler.rates.Keys);
      } else {
        forall i | 0 <= i < n && ScoredAt(l, calls, i) && CrowdedAt(l, calls, i)
          ensures exists j :: i < j < |calls| && ScoredAt(l, calls, j) && !CrowdedAt(l, calls, j)
        {
          if !ScoredAt(l, calls, n) {
            assert ScoredAt(l, front, i) && CrowdedAt(l, front, i);
            var j :| i < j < |front| && ScoredAt(l, front, j) && !CrowdedAt(l, front, j);
            assert ScoredAt(l, calls, j) && !CrowdedAt(l, calls, j);
          }
        }
      }
    }
  }

  lemma NoCallsYet(l: Limiter)
    ensures AfterCalls(l, []) == l
  {
  }

  lemma SameBefore(l: Limiter, calls: seq<Call>)
    requires calls != []
    ensures var front := calls[..|calls| - 1];
      forall i | 0 <= i < |front| ::
        (ScoredAt(l, front, i) <==> ScoredAt(l, calls, i)) && (CrowdedAt(l, front, i) <==> CrowdedAt(l, calls, i))
  {
    hide AfterCalls, Scored;
    var front := calls[..|calls| - 1];
    assert forall i | 0 <= i < |front| :: calls[..i] == front[..i];
  }

  lemma OneMoreCall(l: Limiter, calls: seq<Call>)
    requires calls != []
    ensures var n := |calls| - 1;
      var before, after := AfterCalls(l, calls[..n]), AfterCalls(l, calls);
      after.allowList ==
        if !ScoredAt(l, calls, n) then before.allowList
        else if !CrowdedAt(l, calls, n) then None
        else if before.allowList.None? then Some(before.sampler.rates.Keys) else before.allowList
  {
    hide AfterCount, CountedAs, WeightRoot;
  }

  /** Until the first rotation nobody is rated, and an allow-list taken then is empty. */
  lemma {:induction false} NobodyRatedYet(l: Limiter, calls: seq<Call>)
    requires Fresh(l.sampler) && l.allowList == None
    requires forall i | 0 <= i < |calls| :: BucketId(calls[i].now) == 0
    ensures var m := AfterCalls(l, calls);
      m.sampler.rates == map[] && m.sampler.lastBucketId == 0 && (m.allowList.Some? ==> m.allowList.value == {})
  {
    hide TraceSignature;
    if calls != [] {
      NobodyRatedYet(l, calls[..|calls| - 1]);
    }
  }

  /**
   When a hundred signatures are known before the first rotation, every signature from 100 on is
   folded, known or not, as long as that bucket lasts.
   */
  lemma {:induction false} FirstBucketFoldsTheKnown(l: Limiter, calls: seq<Call>, sig: Signature)
    requires Fresh(l.sampler) && l.allowList == None
    requires forall i | 0 <= i < |calls| :: BucketId(calls[i].now) == 0
    ensures var m := AfterCalls(l, calls);
      |m.sampler.seen| >= 100 ==> (Shrunk(m, sig) == sig <==> sig < 100)
  {
    hide AfterCalls;
    NobodyRatedYet(l, calls);
    KeepsItsName(AfterCalls(l, calls), sig);
  }

  /** The first `n` of a hundred signatures from 1000 on, each counted once at the epoch. */
  ghost function Newcomers(n: nat): (events: seq<Event>)
    requires n <= 100
    ensures |events| == n
  {
    if n == 0 then [] else Newcomers(n - 1) + [Event(0, (999 + n) as Signature, 1.0)]
  }

  lemma {:induction false} NewcomersAreSeen(n: nat)
    requires n <= 100
    ensures var s := After(Initial(1.0, 1.0), Newcomers(n));
      && s.rates == map[] && s.lastBucketId == 0 && |s.seen| == n
      && forall sig: Signature :: sig in s.seen <==> 1000 <= sig as int < 1000 + n
  {
    hide After, AfterCount, AfterRotation;
    if n == 0 {
      AfterNothing(Initial(1.0, 1.0));
    } else {
      NewcomersAreSeen(n - 1);
      var e := Event(0, (999 + n) as Signature, 1.0);
      AfterOneMore(Initial(1.0, 1.0), Newcomers(n - 1), e);
      var s := After(Initial(1.0, 1.0), Newcomers(n - 1));
      CountedInSameBucket(s, e);
      assert e.sig !in s.seen;
    }
  }

  lemma CountedInSameBucket(s: State, e: Event)
    requires s.lastBucketId == BucketId(e.now)
    ensures var r := AfterCount(s, e.now, e.sig, e.weight);
      && r.rates == s.rates && r.lastBucketId == s.lastBucketId && r.seen.Keys == s.seen.Keys + {e.sig}
      && |r.seen| == |s.seen| + (if e.sig in s.seen then 0 else 1)
  {
    var r := AfterCount(s, e.now, e.sig, e.weight);
    assert r.seen.Keys == s.seen.Keys + {e.sig};
    assert |r.seen| == |r.seen.Keys| && |s.seen| == |s.seen.Keys|;
  }

  /** A signature that is known, and folded all the same. */
  lemma KnownButFolded()
    ensures var s := After(Initial(1.0, 1.0), Newcomers(100));
      Fresh(Initial(1.0, 1.0)) && 1000 in s.seen && Shrunk(Limiter(s, false, None), 1000) == 0
  {
    NewcomersAreSeen(100);
    hide After;
    assert 1000 as Signature % 100 == 0;
  }

  // ----- Cardinality -----

  /** The first `n` of the hundred values that unknown signatures are folded onto. */
  ghost function FoldedBelow(n: nat): (folded: set<Signature>)
    requires n <= 100
    ensures |folded| == n && forall sig: Signature :: sig in folded <==> sig as int < n
  {
    if n == 0 then {} else FoldedBelow(n - 1) + {(n - 1) as Signature}
  }

  /** The signatures known when the allow-list in force was taken. */
  ghost function Snapshot(l: Limiter, calls: seq<Call>): set<Signature> {
    if calls == [] then {} else
      var front, c := calls[..|calls| - 1], calls[|calls| - 1];
      var before := AfterCalls(l, front);
      if Scored(before, c.trace) && |before.sampler.seen| >= 100 && before.allowList.None?
      then before.sampler.seen.Keys
      else Snapshot(l, front)
  }

  /** Below 100 signatures nothing is folded; above, the known ones come from the snapshot or from [0, 100). */
  ghost predicate BoundedKeys(seen: set<Signature>, allowList: Option<set<Signature>>, snapshot: set<Signature>) {
    match allowList
    case None => |seen| <= 100
    case Some(allowed) => |snapshot| <= 100 && allowed <= snapshot && seen <= snapshot + FoldedBelow(100)
  }

  ghost predicate Bounded(l: Limiter, snapshot: set<Signature>) {
    BoundedKeys(l.sampler.seen.Keys, l.allowList, snapshot)
  }

  lemma OneMoreKey(seen: set<Signature>, allowList: Option<set<Signature>>, snapshot: set<Signature>,
                   rated: set<Signature>, sig: Signature, after: set<Signature>)
    requires BoundedKeys(seen, allowList, snapshot) && rated <= seen && after <= seen + {sig}
    ensures |seen| < 100 ==> BoundedKeys(after, None, snapshot)
    ensures |seen| >= 100 && allowList.None? && (sig in rated || sig < 100) ==> BoundedKeys(after, Some(rated), seen)
    ensures |seen| >= 100 && allowList.Some? && (sig in allowList.value || sig < 100) ==> BoundedKeys(after, allowList, snapshot)
  {
    Smaller(after, seen + {sig});
    assert sig < 100 ==> sig in FoldedBelow(100);
  }

  lemma AtMostTwoHundred(l: Limiter, snapshot: set<Signature>)
    requires Bounded(l, snapshot)
    ensures |l.sampler.seen.Keys| <= 200
  {
    if l.allowList.Some? {
      Smaller(l.sampler.seen.Keys, snapshot + FoldedBelow(100));
    }
  }

  lemma {:induction false} Smaller<T>(a: set<T>, b: set<T>)
    requires a <= b
    ensures |a| <= |b|
  {
    if a != {} {
      var x :| x in a;
      Smaller(a - {x}, b - {x});
    }
  }

  lemma CountAddsOne(s: State, now: int, sig: Signature, n: real)
    requires Inv(s) && n >= 0.0
    ensures var after := AfterCount(s, now, sig, n);
      after.seen.Keys <= s.seen.Keys + {sig} && Inv(after)
  {
    CountKeepsInv(s, now, sig, n);
    var moved := s.(lastBucketId := BucketId(now));
    SameInv(s, BucketId(now));
    UpdateKeepsRates(moved, s.lastBucketId, BucketId(now));
    hide Inv, AfterUpdate;
  }

  lemma SampleKeepsBounded(l: Limiter, now: int, trace: TraceView, snapshot: set<Signature>)
    requires Inv(l.sampler) && Bounded(l, snapshot) && Scored(l, trace)
    ensures var taken := |l.sampler.seen| >= 100 && l.allowList.None?;
      Bounded(AfterSample(l, now, trace), if taken then l.sampler.seen.Keys else snapshot)
  {
    hide AfterCount, TraceSignature, Inv, BoundedKeys;
    var sig := CountedAs(l, trace);
    CountAddsOne(l.sampler, now, sig, WeightRoot(trace));
    RatesAreKnown(l.sampler);
    assert |l.sampler.seen| == |l.sampler.seen.Keys|;
    OneMoreKey(l.sampler.seen.Keys, l.allowList, snapshot, l.sampler.rates.Keys, sig, AfterSample(l, now, trace).sampler.seen.Keys);
  }

  lemma RatesAreKnown(s: State)
    requires Inv(s)
    ensures s.rates.Keys <= s.seen.Keys
  {
    hide CountsOk;
  }

  /** In every run the sampler knows at most 200 signatures. */
  lemma {:induction false} CardinalityIsBounded(l: Limiter, calls: seq<Call>)
    requires Fresh(l.sampler) && l.allowList == None
    ensures Bounded(AfterCalls(l, calls), Snapshot(l, calls))
    ensures |AfterCalls(l, calls).sampler.seen.Keys| <= 200
  {
    hide AfterSample, Inv, Weighted;
    if calls != [] {
      var front, c := calls[..|calls| - 1], calls[|calls| - 1];
      CardinalityIsBounded(l, front);
      RunInv(l, front);
      hide Bounded;
      var before := AfterCalls(l, front);
      if Scored(before, c.trace) {
        SampleKeepsBounded(before, c.now, c.trace, Snapshot(l, front));
      } else {
        NotScored(before, c);
      }
    }
    AtMostTwoHundred(AfterCalls(l, calls), Snapshot(l, calls));
  }

  lemma NotScored(l: Limiter, c: Call)
    requires !Scored(l, c.trace)
    ensures AfterSample(l, c.now, c.trace) == l
  {
  }

  lemma RunInv(l: Limiter, calls: seq<Call>)
    requires Fresh(l.sampler)
    ensures Inv(AfterCalls(l, calls).sampler)
  {
    CallsAreEvents(l, calls);
    InitialInv(l.sampler.extraRate, l.sampler.targetTps);
    RunKeepsInv(l.sampler, EventsOf(l, calls));
  }
}
