/**
 The shared state of error rescue, and what it guarantees for the sampler: the timestamp floor means
 the sampler never sees its clock go back, so everything proved of timely runs holds in production.
 */
module RescueState {
  import opened SamplerInvariants
  import opened SamplerRuns
  import opened RateLimited
  import opened ErrorRescue

  const I64_MIN: int := -0x8000_0000_0000_0000

  datatype Shared = Shared(limiter: Limiter, floor: int)

  datatype Request = Request(collection: Collection, clock: int)

  function Later(a: int, b: int): int {
    if a >= b then a else b
  }

  function AllCandidates(payloads: seq<TracerPayload>, config: Config): seq<Candidate> {
    AllPositions(payloads);
    Candidates(payloads, PositionsFrom(payloads, 0, 0), config)
  }

  /** The samples a request asks for. */
  function CallsOf(s: Shared, r: Request, config: Config): seq<Call> {
    if r.collection.OtherVersion? || s.limiter.disabled then []
    else CallsAt(Later(s.floor, r.clock), AllCandidates(r.collection.payloads, config))
  }

  ghost function AfterRequest(s: Shared, r: Request, config: Config): Shared {
    var calls := CallsOf(s, r, config);
    if calls == [] then s else Shared(AfterCalls(s.limiter, calls), Later(s.floor, r.clock))
  }

  /** The collection as it is forwarded. */
  ghost function Rescued(s: Shared, r: Request, config: Config): Collection {
    if CallsOf(s, r, config) == [] then r.collection else
      var payloads := r.collection.payloads;
      AllPositions(payloads);
      V07(OnePass(payloads, s.limiter, Later(s.floor, r.clock), PositionsFrom(payloads, 0, 0), config).payloads)
  }

  class ErrorRescueState {
    const sampler: RateLimitedSampler
    var lastSamplerTimestamp: int

    constructor (targetTps: real, extraSampleRate: real)
      ensures Model() == Shared(NewLimiter(targetTps, extraSampleRate), I64_MIN)
      ensures fresh(sampler) && fresh(sampler.sampler)
    {
      sampler := new RateLimitedSampler(targetTps, extraSampleRate);
      lastSamplerTimestamp := I64_MIN;
    }

    function Model(): Shared
      reads this, sampler, sampler.sampler
    {
      Shared(sampler.Model(), lastSamplerTimestamp)
    }

    method ClampTimestamp(nowUnixSecs: int) returns (clamped: int)
      modifies this
      ensures clamped == lastSamplerTimestamp == Later(old(lastSamplerTimestamp), nowUnixSecs)
    {
      lastSamplerTimestamp := if lastSamplerTimestamp >= nowUnixSecs then lastSamplerTimestamp else nowUnixSecs;
      clamped := lastSamplerTimestamp;
    }

    /** The samples under the lock, all at one time. */
    method SampleAll(now: int, candidates: seq<Candidate>) returns (kept: seq<Kept>)
      modifies sampler, sampler.sampler
      ensures sampler.Model() == AfterCalls(old(sampler.Model()), CallsAt(now, candidates))
      ensures kept == KeptOf(old(sampler.Model()), now, candidates)
    {
      hide AfterCalls, AfterSample, Decision, KeptOf;
      kept := [];
      ghost var start := sampler.Model();
      NothingSampledYet(start, now);
      for i := 0 to |candidates|
        invariant sampler.Model() == AfterCalls(start, CallsAt(now, candidates[..i]))
        invariant kept == KeptOf(start, now, candidates[..i])
      {
        var c := candidates[i];
        assert candidates[..i + 1] == candidates[..i] + [c];
        CallsAppend(now, candidates[..i], c);
        AfterOneMoreCall(start, CallsAt(now, candidates[..i]), Call(now, c.trace));
        KeptAppend(start, now, candidates[..i], c);
        var decision := sampler.Sample(now, c.trace);
        if decision.Keep? {
          kept := kept + [Kept(c.at, c.root, decision.errorsSr)];
        }
      }
      assert candidates[..|candidates|] == candidates;
    }

    /** `apply_error_rescue_with_clock`; `clock` is what reading the clock would give. */
    method ApplyErrorRescue(collection: Collection, config: Config, clock: int) returns (out: Collection)
      modifies this, sampler, sampler.sampler
      ensures Model() == AfterRequest(old(Model()), Request(collection, clock), config)
      ensures out == Rescued(old(Model()), Request(collection, clock), config)
    {
      hide AfterCalls, KeptOf, OnePass, WriteBack, Candidates, PositionsFrom;
      if collection.OtherVersion? {
        return collection;
      }
      if sampler.disabled {
        return collection;
      }
      var payloads := collection.payloads;
      var candidates := AllCandidates(payloads, config);
      if candidates == [] {
        return collection;
      }
      ghost var before := Model();
      var now := ClampTimestamp(clock);
      var kept := SampleAll(now, candidates);
      AllPositions(payloads);
      TwoPhasesAreOnePass(payloads, before.limiter, now, PositionsFrom(payloads, 0, 0), config);
      var stamped := StampAll(payloads, kept);
      out := V07(stamped);
    }
  }

  lemma NothingSampledYet(l: Limiter, now: int)
    ensures AfterCalls(l, CallsAt(now, [])) == l && KeptOf(l, now, []) == []
  {
  }

  /** The write-back loop: stamps by index. */
  method StampAll(payloads: seq<TracerPayload>, kept: seq<Kept>) returns (stamped: seq<TracerPayload>)
    requires AllStampable(payloads, kept)
    ensures stamped == WriteBack(payloads, kept)
  {
    hide Stamp;
    stamped := payloads;
    for i := 0 to |kept|
      invariant AllStampable(payloads, kept[..i]) && stamped == WriteBack(payloads, kept[..i])
    {
      assert kept[..i + 1] == kept[..i] + [kept[i]];
      WriteBackAppend(payloads, kept[..i], kept[i]);
      stamped := Stamp(stamped, kept[i]);
    }
    assert kept[..|kept|] == kept;
  }

  // ----- Whole runs -----

  ghost function AfterRequests(s: Shared, requests: seq<Request>, config: Config): Shared {
    if requests == [] then s else
      AfterRequest(AfterRequests(s, requests[..|requests| - 1], config), requests[|requests| - 1], config)
  }

  ghost function AllCalls(s: Shared, requests: seq<Request>, config: Config): seq<Call> {
    if requests == [] then [] else
      var front := requests[..|requests| - 1];
      AllCalls(s, front, config) + CallsOf(AfterRequests(s, front, config), requests[|requests| - 1], config)
  }

  lemma {:induction false} CallsInTwoParts(l: Limiter, a: seq<Call>, b: seq<Call>)
    ensures AfterCalls(l, a + b) == AfterCalls(AfterCalls(l, a), b)
  {
    hide AfterSample;
    if b == [] {
      assert a + b == a;
    } else {
      CallsInTwoParts(l, a, b[..|b| - 1]);
      assert (a + b)[..|a + b| - 1] == a + b[..|b| - 1];
    }
  }

  /** The sampler of the shared state is driven by the calls of the requests, one after the other. */
  lemma {:induction false} RequestsAreCalls(s: Shared, requests: seq<Request>, config: Config)
    ensures AfterRequests(s, requests, config).limiter == AfterCalls(s.limiter, AllCalls(s, requests, config))
  {
    hide CallsOf;
    if requests == [] {
      hide AfterSample;
    } else {
      var front := requests[..|requests| - 1];
      RequestsAreCalls(s, front, config);
      var more := CallsOf(AfterRequests(s, front, config), requests[|requests| - 1], config);
      CallsInTwoParts(s.limiter, AllCalls(s, front, config), more);
      assert AllCalls(s, front, config) + [] == AllCalls(s, front, config);
    }
  }

  /** Clock readings are never negative: before the epoch the reading is zero. */
  ghost predicate ClocksOk(requests: seq<Request>) {
    forall i | 0 <= i < |requests| :: requests[i].clock >= 0
  }

  ghost predicate TimelyUpTo(calls: seq<Call>, floor: int) {
    TimelyCalls(calls) && forall i | 0 <= i < |calls| :: calls[i].now <= floor
  }

  lemma TimelyTogether(calls: seq<Call>, floor: int, more: seq<Call>, now: int)
    requires TimelyUpTo(calls, floor) && now >= floor && now >= 0
    requires forall i | 0 <= i < |more| :: more[i].now == now
    ensures TimelyUpTo(calls + more, now)
  {
  }

  /** However the wall clock jumps, the sampler sees timestamps that never go back. */
  lemma {:induction false} SamplerClockNeverGoesBack(s: Shared, requests: seq<Request>, config: Config)
    requires ClocksOk(requests)
    ensures TimelyUpTo(AllCalls(s, requests, config), AfterRequests(s, requests, config).floor)
  {
    hide AllCandidates, AfterCalls;
    if requests != [] {
      var front, r := requests[..|requests| - 1], requests[|requests| - 1];
      SamplerClockNeverGoesBack(s, front, config);
      var before := AfterRequests(s, front, config);
      var more := CallsOf(before, r, config);
      if more == [] {
        assert AllCalls(s, front, config) + more == AllCalls(s, front, config);
      } else {
        TimelyTogether(AllCalls(s, front, config), before.floor, more, Later(before.floor, r.clock));
      }
    }
  }

  /**
   Any run of requests against a new, enabled processor: the sampler keeps its invariant and agrees
   with the record of what it counted, never knows more than 200 signatures, and spends at most its
   target at every rotation.
   */
  lemma EveryProductionRun(targetTps: real, extraRate: real, requests: seq<Request>, config: Config)
    requires targetTps > 0.0 && ClocksOk(requests)
    ensures var s := Shared(NewLimiter(targetTps, extraRate), I64_MIN);
      var l := AfterRequests(s, requests, config).limiter;
      && Inv(l.sampler)
      && Aligned(l.sampler, EventsOf(s.limiter, AllCalls(s, requests, config)))
      && |l.sampler.seen.Keys| <= 200
    ensures var s := Shared(NewLimiter(targetTps, extraRate), I64_MIN);
      forall k | 0 <= k < |AllCalls(s, requests, config)| :: RotationWithinBudget(s.limiter, AllCalls(s, requests, config), k)
  {
    hide AfterRequests, AllCalls, Inv, Aligned, EventsOf, AfterCalls, TimelyCalls;
    var s := Shared(NewLimiter(targetTps, extraRate), I64_MIN);
    var calls := AllCalls(s, requests, config);
    RequestsAreCalls(s, requests, config);
    SamplerClockNeverGoesBack(s, requests, config);
    assert TimelyCalls(calls);
    assert Fresh(s.limiter.sampler);
    EveryRunIsAccounted(s.limiter, calls);
    forall k | 0 <= k < |calls| ensures RotationWithinBudget(s.limiter, calls, k) {
      EachRotation(s.limiter, calls, k);
    }
    CardinalityIsBounded(s.limiter, calls);
  }

  /**
   Every chunk of a forwarded request: a qualified one that the sampler keeps carries the decided rate on
   its root, and nothing else about it differs; a chunk that is dropped, or not qualified, is as
   it came. Each is decided at the clamped time with the sampler as the candidates before left it.
   */
  lemma EveryRootIsMarked(s: Shared, payloads: seq<TracerPayload>, clock: int, config: Config, k: nat)
    requires k < |PositionsFrom(payloads, 0, 0)|
    ensures AllInRange(payloads, PositionsFrom(payloads, 0, 0)[..k]) && InRange(payloads, PositionsFrom(payloads, 0, 0)[k])
    ensures var out := Rescued(s, Request(V07(payloads), clock), config);
      var positions, now := PositionsFrom(payloads, 0, 0), Later(s.floor, clock);
      var q, before := positions[k], AfterCalls(s.limiter, CallsAt(now, Candidates(payloads, positions[..k], config)));
      && out.V07? && InRange(out.payloads, q)
      && (if s.limiter.disabled then out.payloads == payloads
          else RescuedOrNot(payloads[q.0].chunks[q.1], out.payloads[q.0].chunks[q.1], payloads[q.0].env, config, before, now))
  {
    hide OnePass, PositionsFrom, Candidates, AfterCalls, CandidateAt, WriteBack, KeptOf, CallsAt, Decided, RescuedOrNot, AllStampable;
    var positions, now := PositionsFrom(payloads, 0, 0), Later(s.floor, clock);
    AllPositions(payloads);
    var candidates := Candidates(payloads, positions, config);
    var q := positions[k];
    EveryChunkIsDecided(payloads, s.limiter, now, positions, config, k);
    DecidedIsRescuedOrNot(payloads, q, OnePass(payloads, s.limiter, now, positions, config).payloads[q.0].chunks[q.1], config,
                          OnePass(payloads, s.limiter, now, positions[..k], config).limiter, now);
    TwoPhasesAreOnePass(payloads, s.limiter, now, positions, config);
    TwoPhasesAreOnePass(payloads, s.limiter, now, positions[..k], config);
    SameEmptiness(now, candidates);
    NoCandidates(payloads, s.limiter, now);
  }

  lemma SameEmptiness(now: int, candidates: seq<Candidate>)
    ensures CallsAt(now, candidates) == [] <==> candidates == []
  {
  }

  lemma NoCandidatesNoCalls(s: Shared, r: Request, config: Config)
    requires r.collection.V07? && AllCandidates(r.collection.payloads, config) == []
    ensures CallsOf(s, r, config) == []
  {
  }

  /**
   A request leaves every chunk alone, or stamps the root of an eligible, errored one; without any
   such chunk it leaves sampler and floor alone too.
   */
  lemma RequestOnlyStampsRoots(s: Shared, payloads: seq<TracerPayload>, clock: int, config: Config, q: Position)
    requires InRange(payloads, q)
    ensures var out := Rescued(s, Request(V07(payloads), clock), config);
      && out.V07? && SameShape(payloads, out.payloads)
      && out.payloads[q.0].env == payloads[q.0].env
      && OnlyStamped(payloads[q.0].chunks[q.1], out.payloads[q.0].chunks[q.1], config)
      && (AllCandidates(payloads, config) == [] ==>
            out.payloads == payloads && AfterRequest(s, Request(V07(payloads), clock), config) == s)
  {
    hide OnePass, PositionsFrom, CallsOf, AllCandidates;
    AllPositions(payloads);
    if AllCandidates(payloads, config) == [] {
      NoCandidatesNoCalls(s, Request(V07(payloads), clock), config);
    }
    OnlyRootsAreStamped(payloads, s.limiter, Later(s.floor, clock), PositionsFrom(payloads, 0, 0), config, q);
  }
}
