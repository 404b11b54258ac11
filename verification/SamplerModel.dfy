/**
 The score sampler's counting and rate engine (`Sampler` in score_sampler.rs) as
 functions on the state its fields make up. Counts and rates are real numbers.
 */
module SamplerModel {
  import opened RealSums
  import opened Ring
  import opened WaterFilling

  newtype u64 = x: int | 0 <= x < 0x1_0000_0000_0000_0000

  type Signature = u64

  datatype State = State(
    seen: map<Signature, Ring>,
    allSigsSeen: Ring,
    lastBucketId: int,
    rates: map<Signature, real>,
    lowestRate: real,
    targetTps: real,
    extraRate: real)

  function Initial(extraRate: real, targetTps: real): State {
    State(map[], ZEROS, 0, map[], 0.0, targetTps, extraRate)
  }

  // ----- Rates -----

  /** The rate of one signature in a rotation, before the clean-up test. */
  function NewRate(level: real, seenTps: real, sig: Signature, rates: map<Signature, real>): real {
    var share := if level < seenTps && seenTps > 0.0 then level / seenTps else 1.0;
    var capped :=
      if sig in rates && rates[sig] != 0.0 && share / rates[sig] > 1.2
      then rates[sig] * 1.2 else share;
    if capped > 1.0 then 1.0 else capped
  }

  /** No traffic in the window, and the rate has recovered: the signature is dropped. */
  predicate Cleaned(rate: real, seenTps: real) {
    rate == 1.0 && seenTps == 0.0
  }

  /** The traces per second that a rotation from `previous` to `new` attributes to each signature. */
  ghost function SeenTps(seen: map<Signature, Ring>, previous: int, new_: int): (tps: map<Signature, real>)
    ensures tps.Keys == seen.Keys
  {
    map sig | sig in seen :: PeakSeen(seen[sig], previous, new_) / 5.0
  }

  ghost function BudgetLevel(targetTps: real, tps: map<Signature, real>): real
    requires tps != map[]
  {
    Level(targetTps, Sorted(Values(tps, Listing(tps.Keys))))
  }

  ghost function NewRates(level: real, tps: map<Signature, real>, rates: map<Signature, real>): map<Signature, real> {
    map sig | sig in tps && !Cleaned(NewRate(level, tps[sig], sig, rates), tps[sig]) :: NewRate(level, tps[sig], sig, rates)
  }

  lemma NewRatesHold(level: real, tps: map<Signature, real>, rates: map<Signature, real>)
    ensures forall sig <- tps ::
      sig in NewRates(level, tps, rates) <==> !Cleaned(NewRate(level, tps[sig], sig, rates), tps[sig])
    ensures forall sig <- NewRates(level, tps, rates) ::
      sig in tps && NewRates(level, tps, rates)[sig] == NewRate(level, tps[sig], sig, rates)
  {
  }

  /** `x` is the lowest of the rates, or 1 when none is lower. */
  ghost predicate IsLowest(rates: map<Signature, real>, x: real) {
    && x <= 1.0
    && (forall sig <- rates :: x <= rates[sig])
    && (x == 1.0 || exists sig :: sig in rates && rates[sig] == x)
  }

  ghost function Lowest(rates: map<Signature, real>): (x: real)
    ensures IsLowest(rates, x)
    decreases |rates|
  {
    if rates == map[] then 1.0 else
      var sig, rest := Pick(rates), rates - {Pick(rates)};
      assert forall other <- rates :: other == sig || other in rest;
      Min(rates[sig], Lowest(rest))
  }

  lemma OneLowest(rates: map<Signature, real>, x: real)
    requires IsLowest(rates, x)
    ensures x == Lowest(rates)
  {
    assert IsLowest(rates, Lowest(rates));
  }

  lemma LowestWith(rates: map<Signature, real>, sig: Signature, rate: real, x: real)
    requires IsLowest(rates, x) && sig !in rates && rate <= 1.0
    ensures IsLowest(rates[sig := rate], Min(rate, x))
  {
    var larger := rates[sig := rate];
    assert larger[sig] == rate;
    if rate > x && x != 1.0 {
      var other :| other in rates && rates[other] == x;
      assert larger[other] == x;
    }
  }

  // ----- The two operations as functions -----

  ghost function AfterUpdate(s: State, previous: int, new_: int): State {
    if s.seen == map[] then s else
      var tps := SeenTps(s.seen, previous, new_);
      var rates := NewRates(BudgetLevel(s.targetTps, tps), tps, s.rates);
      s.(seen := map sig | sig in s.seen && sig in rates :: Rotated(s.seen[sig], previous, new_),
         allSigsSeen := Rotated(s.allSigsSeen, previous, new_),
         rates := rates,
         lowestRate := Lowest(rates))
  }

  function AddTo(ring: Ring, idx: nat, n: real): Ring
    requires idx < 6
  {
    ring[idx := ring[idx] + n]
  }

  ghost function RingOf(s: State, sig: Signature): Ring {
    if sig in s.seen then s.seen[sig] else ZEROS
  }

  ghost predicate Rotates(s: State, nowUnixSecs: int) {
    s.lastBucketId != BucketId(nowUnixSecs)
  }

  ghost function AfterRotation(s: State, nowUnixSecs: int): State {
    var moved := s.(lastBucketId := BucketId(nowUnixSecs));
    if Rotates(s, nowUnixSecs) then AfterUpdate(moved, s.lastBucketId, BucketId(nowUnixSecs)) else moved
  }

  ghost function AfterCount(s: State, nowUnixSecs: int, sig: Signature, n: real): State {
    var r := AfterRotation(s, nowUnixSecs);
    var idx := BucketIndex(BucketId(nowUnixSecs));
    r.(seen := r.seen[sig := AddTo(RingOf(r, sig), idx, n)], allSigsSeen := AddTo(r.allSigsSeen, idx, n))
  }

  function MaxSeen(ring: Ring): real {
    Max(Max(Max(Max(Max(Max(0.0, ring[0]), ring[1]), ring[2]), ring[3]), ring[4]), ring[5])
  }

  function DefaultRate(s: State): real {
    if s.targetTps == 0.0 then 0.0 else
      var seenTps := MaxSeen(s.allSigsSeen) / 5.0;
      var rate := if s.targetTps < seenTps && seenTps > 0.0 then s.targetTps / seenTps else 1.0;
      if s.lowestRate < rate && s.lowestRate != 0.0 then s.lowestRate else rate
  }

  function SignatureSampleRate(s: State, sig: Signature): real {
    if sig in s.rates then Product(s.rates[sig], s.extraRate) else DefaultRate(s)
  }

  // ----- The level does not depend on the order of the hash map -----

  lemma LevelOfAnyListing(targetTps: real, tps: map<Signature, real>, sigs: seq<Signature>)
    requires tps != map[] && Lists(sigs, tps.Keys)
    ensures sigs != []
    ensures Level(targetTps, Sorted(Values(tps, sigs))) == BudgetLevel(targetTps, tps)
  {
    var sig :| sig in tps;
    assert sig in tps.Keys && sig in sigs && sig in Listing(tps.Keys);
    ListingsAgree(tps, tps.Keys, sigs, Listing(tps.Keys));
    LevelIgnoresOrder(targetTps, Values(tps, sigs), Values(tps, Listing(tps.Keys)));
  }
}
