/**
 What a sample decides: which trace ids are kept, at which rate, and what a kept trace reports. All
 of it for the decision of the rate-limited sampler, after whatever it has counted before.
 */
module SampleDecision {
  import opened RealSums
  import opened Ring
  import opened SamplerModel
  import opened SamplerInvariants
  import opened SampleByRate
  import opened RateLimited

  /**
   The rate in force for a trace once it has been counted: the stored rate of the signature it is
   counted as, times the extra rate, or the default rate while that signature has none.
   */
  ghost function RateInForce(l: Limiter, now: int, trace: TraceView): real
    requires !l.disabled && trace.rootIndex < |trace.spans|
  {
    var s, sig := AfterSample(l, now, trace).sampler, CountedAs(l, trace);
    if sig in s.rates then Product(s.rates[sig], s.extraRate) else DefaultRate(s)
  }

  /** The trace ids for which the chunk would be kept, everything else being the same. */
  ghost function KeptTraceIds(l: Limiter, now: int, trace: TraceView): set<int> {
    set id: int | 0 <= id < MODULUS && KeepsId(l, now, trace, id)
  }

  ghost predicate KeepsId(l: Limiter, now: int, trace: TraceView, id: int) {
    0 <= id < MODULUS && Decision(l, now, trace.(traceId := id as u64)).Keep?
  }

  /** The trace id plays no part in what is counted. */
  lemma IdIsNotCounted(l: Limiter, now: int, trace: TraceView, id: u64)
    ensures AfterSample(l, now, trace.(traceId := id)) == AfterSample(l, now, trace)
    ensures Scored(l, trace) ==> CountedAs(l, trace.(traceId := id)) == CountedAs(l, trace)
    ensures ClientRate(trace.(traceId := id)) == ClientRate(trace)
  {
    hide AfterCount, Signatures.TraceSignature;
  }

  lemma RateIs(l: Limiter, now: int, trace: TraceView)
    requires !l.disabled && trace.rootIndex < |trace.spans|
    ensures RateInForce(l, now, trace) == SignatureSampleRate(AfterSample(l, now, trace).sampler, CountedAs(l, trace))
  {
    hide AfterSample, CountedAs, DefaultRate;
  }

  lemma DecisionOf(l: Limiter, now: int, trace: TraceView)
    requires !l.disabled && trace.rootIndex < |trace.spans|
    ensures var rate := RateInForce(l, now, trace);
      Decision(l, now, trace) == if SampledByRate(trace.traceId, Product(ClientRate(trace), rate)) then Keep(rate) else Drop
  {
    hide AfterSample, CountedAs, SignatureSampleRate, ClientRate, SampledByRate, RateInForce, Product;
    RateIs(l, now, trace);
  }

  lemma IdsAreByRate(l: Limiter, now: int, trace: TraceView)
    requires !l.disabled && trace.rootIndex < |trace.spans|
    ensures KeptTraceIds(l, now, trace) == KeptIds(Product(ClientRate(trace), RateInForce(l, now, trace)))
  {
    hide AfterSample, CountedAs, DefaultRate, ClientRate, Decision, SampledByRate, Product;
    var p := Product(ClientRate(trace), RateInForce(l, now, trace));
    forall id | 0 <= id < MODULUS ensures KeepsId(l, now, trace, id) <==> IdKept(id, p) {
      IdIsNotCounted(l, now, trace, id as u64);
      DecisionOf(l, now, trace.(traceId := id as u64));
    }
  }

  /**
   Of the 2^64 trace ids, exactly the share of the client rate times the rate in force is kept, and
   a kept trace reports the rate in force. What cannot be scored is dropped and not counted.
   */
  lemma ExactShareIsKept(l: Limiter, now: int, trace: TraceView)
    ensures if l.disabled || trace.rootIndex >= |trace.spans|
      then Decision(l, now, trace) == Drop && AfterSample(l, now, trace) == l
      else
        var rate := RateInForce(l, now, trace);
        && |KeptTraceIds(l, now, trace)| == Share(Product(ClientRate(trace), rate))
        && (Decision(l, now, trace).Keep? <==> trace.traceId as int in KeptTraceIds(l, now, trace))
        && (Decision(l, now, trace).Keep? ==> Decision(l, now, trace).errorsSr == rate)
  {
    hide Share, Product, ClientRate, AfterCount, CountedAs, SampledByRate, DefaultRate;
    if !l.disabled && trace.rootIndex < |trace.spans| {
      IdsAreByRate(l, now, trace);
      ExactShare(Product(ClientRate(trace), RateInForce(l, now, trace)));
      DecisionOf(l, now, trace);
      assert trace.(traceId := trace.traceId as int as u64) == trace;
      hide Decision, RateInForce;
    }
  }

  /** Wherever and whenever two chunks are decided, the more likely one is kept for all ids of the other. */
  lemma DecisionsAreNested(l: Limiter, now: int, trace: TraceView, m: Limiter, later: int, other: TraceView)
    requires !l.disabled && trace.rootIndex < |trace.spans|
    requires !m.disabled && other.rootIndex < |other.spans|
    requires Product(ClientRate(trace), RateInForce(l, now, trace)) <= Product(ClientRate(other), RateInForce(m, later, other))
    ensures KeptTraceIds(l, now, trace) <= KeptTraceIds(m, later, other)
  {
    hide Product, ClientRate, RateInForce, KeptTraceIds, KeptIds;
    IdsAreByRate(l, now, trace);
    IdsAreByRate(m, later, other);
    KeptTogether(Product(ClientRate(trace), RateInForce(l, now, trace)), Product(ClientRate(other), RateInForce(m, later, other)));
  }

  /** A sampler without a positive target keeps nothing and counts nothing, whatever it is given. */
  lemma {:induction false} NoTargetKeepsNothing(targetTps: real, extraRate: real, calls: seq<Call>, now: int, trace: TraceView)
    requires targetTps <= 0.0
    ensures var l := NewLimiter(targetTps, extraRate);
      AfterCalls(l, calls) == l && Decision(AfterCalls(l, calls), now, trace) == Drop
  {
    if calls != [] {
      var c := calls[|calls| - 1];
      NoTargetKeepsNothing(targetTps, extraRate, calls[..|calls| - 1], c.now, c.trace);
    }
  }

  /** The first trace of a new sampler is decided at the rate that its own weight leaves: the target per second over it. */
  lemma FirstTrace(targetTps: real, extraRate: real, now: int, trace: TraceView)
    requires targetTps > 0.0 && trace.rootIndex < |trace.spans|
    ensures var l := NewLimiter(targetTps, extraRate);
      && !l.disabled
      && RateInForce(l, now, trace) ==
         if targetTps < WeightRoot(trace) / 5.0 then targetTps / (WeightRoot(trace) / 5.0) else 1.0
  {
    var l := NewLimiter(targetTps, extraRate);
    var s := AfterSample(l, now, trace).sampler;
    hide WeightRoot, Signatures.TraceSignature;
    assert s.rates == map[] && s.lowestRate == 0.0;
    OneSlot(BucketIndex(BucketId(now)), WeightRoot(trace));
    assert s.allSigsSeen == AddTo(ZEROS, BucketIndex(BucketId(now)), WeightRoot(trace));
  }

  /**
   In numbers: a first trace that was sampled at one half upstream weighs 2, so at a target of 0.1 a
   second it is decided at 0.1 / (2 / 5), and one half of that is an eighth of all ids.
   */
  lemma EighthOfAllIds(extraRate: real, now: int, trace: TraceView)
    requires trace.rootIndex < |trace.spans| && trace.rootGlobalSampleRate == 0.5
    ensures var l := NewLimiter(0.1, extraRate);
      && RateInForce(l, now, trace) == 0.25
      && |KeptTraceIds(l, now, trace)| == 0x2000_0000_0000_0000
  {
    var l := NewLimiter(0.1, extraRate);
    assert WeightRoot(trace) == 2.0;
    FirstTrace(0.1, extraRate, now, trace);
    ExactShareIsKept(l, now, trace);
    hide RateInForce, KeptTraceIds;
    assert Product(ClientRate(trace), 0.25) == 0.125;
  }

  lemma OneSlot(idx: nat, n: real)
    requires idx < 6 && n >= 0.0
    ensures MaxSeen(AddTo(ZEROS, idx, n)) == n
  {
  }
}
