/**
 The score sampler's engine as the class it is written as. Every method is proved against the
 function of the same step in SamplerModel. A hash map is visited in an order nobody controls:
 the loops pick any key that is left.
 */
module ScoreSampler {
  import opened RealSums
  import opened Ring
  import opened WaterFilling
  import opened SamplerModel

  class Sampler {
    var seen: map<Signature, Ring>
    var allSigsSeen: Ring
    var lastBucketId: int
    var rates: map<Signature, real>
    var lowestRate: real
    const targetTps: real
    const extraRate: real

    function Model(): State
      reads this
    {
      State(seen, allSigsSeen, lastBucketId, rates, lowestRate, targetTps, extraRate)
    }

    constructor (extraRate: real, targetTps: real)
      ensures Model() == Initial(extraRate, targetTps)
    {
      seen := map[];
      allSigsSeen := ZEROS;
      lastBucketId := 0;
      rates := map[];
      lowestRate := 0.0;
      this.targetTps := targetTps;
      this.extraRate := extraRate;
    }

    method CountWeightedSig(nowUnixSecs: int, signature: Signature, n: real) returns (updateRates: bool)
      modifies this
      ensures Model() == AfterCount(old(Model()), nowUnixSecs, signature, n)
      ensures updateRates == Rotates(old(Model()), nowUnixSecs)
    {
      hide AfterUpdate;
      var bucketId := BucketId(nowUnixSecs);
      var prevBucketId := lastBucketId;
      lastBucketId := bucketId;
      updateRates := prevBucketId != bucketId;
      if updateRates {
        UpdateRates(prevBucketId, bucketId);
      }
      ghost var rotated := Model();
      assert rotated == AfterRotation(old(Model()), nowUnixSecs);
      var idx := BucketIndex(bucketId);
      if signature !in seen {
        seen := seen[signature := ZEROS];
      }
      assert seen[signature] == RingOf(rotated, signature);
      seen := seen[signature := AddTo(seen[signature], idx, n)];
      assert seen == rotated.seen[signature := AddTo(RingOf(rotated, signature), idx, n)];
      allSigsSeen := AddTo(allSigsSeen, idx, n);
    }

    method UpdateRates(previousBucket: int, newBucket: int)
      modifies this
      ensures Model() == AfterUpdate(old(Model()), previousBucket, newBucket)
    {
      hide SeenTps, Level, Sorted, Used, Sum, Lists, Values, PeakSeen, Rotated, NewRates, BudgetLevel, Lowest;
      if seen == map[] {
        return;
      }
      hide AfterUpdate;
      ghost var before, tps := Model(), SeenTps(seen, previousBucket, newBucket);
      var sigs := Enumerate(seen.Keys);
      var rotated, seenTps := RotateAll(seen, sigs, previousBucket, newBucket);
      ListedTps(before.seen, sigs, previousBucket, newBucket, seenTps);
      LevelOfAnyListing(targetTps, tps, sigs);
      var tpsPerSig := ComputeTpsPerSig(targetTps, seenTps);
      var newSeen, newRates, newLowest := ApplyRates(tpsPerSig, sigs, seenTps, rotated, rates, tps);
      var _, rotatedAll := ZeroAndGetMax(allSigsSeen, previousBucket, newBucket);
      seen, allSigsSeen, rates, lowestRate := newSeen, rotatedAll, newRates, newLowest;
      AfterUpdateIs(before, previousBucket, newBucket, rotated, Model());
    }
  }

  lemma ListedTps(before: map<Signature, Ring>, sigs: seq<Signature>, previous: int, new_: int, seenTps: seq<real>)
    requires Lists(sigs, before.Keys) && |seenTps| == |sigs|
    requires forall i | 0 <= i < |sigs| :: seenTps[i] == PeakSeen(before[sigs[i]], previous, new_) / 5.0
    ensures seenTps == Values(SeenTps(before, previous, new_), sigs)
  {
    hide PeakSeen;
  }

  lemma AfterUpdateIs(s: State, previous: int, new_: int, rotated: map<Signature, Ring>, after: State)
    requires s.seen != map[]
    requires rotated.Keys == s.seen.Keys && forall sig <- s.seen :: rotated[sig] == Rotated(s.seen[sig], previous, new_)
    requires var tps := SeenTps(s.seen, previous, new_);
      after.rates == NewRates(BudgetLevel(s.targetTps, tps), tps, s.rates)
    requires after.seen.Keys == after.rates.Keys && forall sig <- after.rates :: sig in rotated && after.seen[sig] == rotated[sig]
    requires after.allSigsSeen == Rotated(s.allSigsSeen, previous, new_) && after.lowestRate == Lowest(after.rates)
    requires after.lastBucketId == s.lastBucketId && after.targetTps == s.targetTps && after.extraRate == s.extraRate
    ensures after == AfterUpdate(s, previous, new_)
  {
    hide SeenTps, NewRates, BudgetLevel, Rotated, Lowest;
    assert after.seen == AfterUpdate(s, previous, new_).seen;
  }

  /** The order in which a hash map yields its keys: any order, every key once. */
  method Enumerate(keys: set<Signature>) returns (sigs: seq<Signature>)
    ensures Lists(sigs, keys)
  {
    hide Lists;
    sigs := [];
    var todo := keys;
    EmptyListing<Signature>();
    assert keys - todo == {};
    while todo != {}
      invariant todo <= keys && Lists(sigs, keys - todo)
      decreases |todo|
    {
      var sig :| sig in todo;
      ListsAppend(sigs, keys - todo, sig);
      assert keys - (todo - {sig}) == (keys - todo) + {sig};
      sigs := sigs + [sig];
      todo := todo - {sig};
    }
    assert keys - todo == keys;
  }

  /** First loop of `update_rates`: rotate every ring and collect its moving maximum. */
  method RotateAll(before: map<Signature, Ring>, sigs: seq<Signature>, previousBucket: int, newBucket: int)
    returns (seen: map<Signature, Ring>, seenTps: seq<real>)
    requires Lists(sigs, before.Keys)
    ensures seen.Keys == before.Keys
    ensures forall sig <- before :: seen[sig] == Rotated(before[sig], previousBucket, newBucket)
    ensures |seenTps| == |sigs|
    ensures forall i | 0 <= i < |sigs| :: seenTps[i] == PeakSeen(before[sigs[i]], previousBucket, newBucket) / 5.0
  {
    hide PeakSeen, Rotated;
    seen, seenTps := before, [];
    for i := 0 to |sigs|
      invariant seen.Keys == before.Keys && |seenTps| == i
      invariant forall j | 0 <= j < i :: seen[sigs[j]] == Rotated(before[sigs[j]], previousBucket, newBucket)
      invariant forall j | i <= j < |sigs| :: seen[sigs[j]] == before[sigs[j]]
      invariant forall j | 0 <= j < i :: seenTps[j] == PeakSeen(before[sigs[j]], previousBucket, newBucket) / 5.0
    {
      var sig := sigs[i];
      var maxBucket, rotated := ZeroAndGetMax(seen[sig], previousBucket, newBucket);
      seen := seen[sig := rotated];
      seenTps := seenTps + [maxBucket / 5.0];
    }
  }

  /** One signature's new rate, as the loop over the signatures computes it. */
  method RateFor(tpsPerSig: real, seenHere: real, sig: Signature, rates: map<Signature, real>) returns (rate: real)
    ensures rate == NewRate(tpsPerSig, seenHere, sig, rates) && rate <= 1.0
  {
    rate := 1.0;
    if tpsPerSig < seenHere && seenHere > 0.0 {
      rate := tpsPerSig / seenHere;
    }
    if sig in rates && rates[sig] != 0.0 && rate / rates[sig] > 1.2 {
      rate := rates[sig] * 1.2;
    }
    if rate > 1.0 {
      rate := 1.0;
    }
  }

  /** Second loop of `update_rates`: set the new rates and clean up signatures without traffic. */
  method ApplyRates(tpsPerSig: real, sigs: seq<Signature>, seenTps: seq<real>, rotated: map<Signature, Ring>,
                    rates: map<Signature, real>, ghost tps: map<Signature, real>)
    returns (seen: map<Signature, Ring>, newRates: map<Signature, real>, lowestRate: real)
    requires tps.Keys == rotated.Keys && Lists(sigs, tps.Keys) && seenTps == Values(tps, sigs)
    ensures newRates == NewRates(tpsPerSig, tps, rates)
    ensures lowestRate == Lowest(newRates)
    ensures seen.Keys == newRates.Keys && forall sig <- newRates :: sig in rotated && seen[sig] == rotated[sig]
  {
    hide Lists, NewRate, NewRates, Lowest;
    ghost var result := NewRates(tpsPerSig, tps, rates);
    NewRatesHold(tpsPerSig, tps, rates);
    ListsAll(sigs, tps.Keys);
    newRates, seen, lowestRate := map[], rotated, 1.0;
    for i := 0 to |sigs|
      invariant forall j | 0 <= j < i :: (sigs[j] in newRates <==> sigs[j] in result) && (sigs[j] in seen <==> sigs[j] in result)
      invariant forall j | i <= j < |sigs| :: sigs[j] !in newRates && sigs[j] in seen
      invariant forall sig <- newRates :: sig in result && newRates[sig] == result[sig]
      invariant seen.Keys <= rotated.Keys && forall sig <- seen :: seen[sig] == rotated[sig]
      invariant IsLowest(newRates, lowestRate)
    {
      ListsOnce(sigs, tps.Keys, i);
      var sig := sigs[i];
      var seenHere := seenTps[i];
      var rate := RateFor(tpsPerSig, seenHere, sig, rates);
      if rate == 1.0 && seenHere == 0.0 {
        seen := seen - {sig};
      } else {
        LowestWith(newRates, sig, rate, lowestRate);
        if rate < lowestRate {
          lowestRate := rate;
        }
        newRates := newRates[sig := rate];
      }
    }
    assert newRates.Keys == result.Keys;
    assert seen.Keys == newRates.Keys;
    OneLowest(newRates, lowestRate);
  }
}
