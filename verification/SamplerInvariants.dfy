/**
 What every step of the sampler keeps, whatever the timestamps: the combined ring is the sum of
 the rings, rates stay in (0, 1] and grow by at most 20% a step, and a rotation spends at most
 the target.
 */
module SamplerInvariants {
  import opened RealSums
  import opened Ring
  import opened WaterFilling
  import opened SamplerModel

  /** Slot `i` of every ring. */
  ghost function Slot(seen: map<Signature, Ring>, i: nat): map<Signature, real>
    requires i < 6
  {
    map sig | sig in seen :: seen[sig][i]
  }

  ghost predicate CountsOk(seen: map<Signature, Ring>, all: Ring) {
    && (forall sig <- seen, i | 0 <= i < 6 :: seen[sig][i] >= 0.0)
    && (forall i | 0 <= i < 6 :: all[i] == MapSum(Slot(seen, i)))
  }

  ghost predicate RatesOk(s: State) {
    && s.rates.Keys <= s.seen.Keys
    && (forall sig <- s.rates :: 0.0 < s.rates[sig] <= 1.0 && s.lowestRate <= s.rates[sig])
    && 0.0 <= s.lowestRate <= 1.0
    && (if s.lowestRate == 0.0 then s.rates == map[] else s.lowestRate == Lowest(s.rates))
  }

  ghost predicate Inv(s: State) {
    s.targetTps > 0.0 && CountsOk(s.seen, s.allSigsSeen) && RatesOk(s)
  }

  // ----- One signature's rate -----

  lemma NewRateBounds(level: real, tps: real, sig: Signature, rates: map<Signature, real>)
    requires level > 0.0 && tps >= 0.0
    requires sig in rates ==> rates[sig] > 0.0
    ensures var rate := NewRate(level, tps, sig, rates);
      && 0.0 < rate <= 1.0
      && rate * tps <= Min(tps, level)
      && (sig in rates ==> rate <= 1.2 * rates[sig])
  {
    var share := if level < tps && tps > 0.0 then level / tps else 1.0;
    if level < tps {
      Quotient(level, tps);
    } else {
      assert share * tps == tps;
    }
    assert 0.0 < share <= 1.0 && share * tps <= Min(tps, level);
    var rate := NewRate(level, tps, sig, rates);
    if sig in rates {
      Capped(share, rates[sig]);
    }
    assert 0.0 < rate <= share;
    Times(rate, share, tps);
  }

  /** A rate within all three bounds: at most 1, within the level, at most 20% above the stored rate. */
  ghost predicate Admissible(q: real, level: real, tps: real, sig: Signature, rates: map<Signature, real>) {
    q <= 1.0 && q * tps <= level && (sig in rates ==> q <= 1.2 * rates[sig])
  }

  /** The new rate is the largest that is admissible. */
  lemma NewRateIsLargest(level: real, tps: real, sig: Signature, rates: map<Signature, real>, q: real)
    requires level > 0.0 && tps >= 0.0
    requires sig in rates ==> rates[sig] > 0.0
    ensures Admissible(q, level, tps, sig, rates) <==> q <= NewRate(level, tps, sig, rates)
  {
    var share := if level < tps && tps > 0.0 then level / tps else 1.0;
    if level < tps {
      Quotient(level, tps);
    }
    ShareIsLargest(level, tps, share, q);
    if sig in rates {
      Capped(share, rates[sig]);
    }
  }

  lemma ShareIsLargest(level: real, tps: real, share: real, q: real)
    requires level > 0.0 && tps >= 0.0
    requires if level < tps then share < 1.0 && share * tps == level else share == 1.0
    ensures q <= 1.0 && q * tps <= level <==> q <= share
  {
    if level >= tps {
      if q <= 1.0 {
        Times(q, 1.0, tps);
        assert 1.0 * tps == tps;
      }
    } else if q <= share {
      Times(q, share, tps);
    } else {
      assert (q - share) * tps > 0.0;
      assert q * tps > level;
    }
  }

  lemma Divide(x: real, y: real, b: real)
    requires b > 0.0 && x * b < y * b
    ensures x < y
  {
    assert (y - x) * b > 0.0;
  }

  lemma Times(x: real, y: real, b: real)
    requires b >= 0.0 && x <= y
    ensures x * b <= y * b
  {
    assert (y - x) * b >= 0.0;
  }

  lemma Quotient(a: real, b: real)
    requires 0.0 < a < b
    ensures 0.0 < a / b < 1.0 && a / b * b == a
  {
    var q := a / b;
    assert q * b == a;
    Divide(0.0, q, b);
    Divide(q, 1.0, b);
  }

  lemma Capped(share: real, previous: real)
    requires previous > 0.0
    ensures share / previous > 1.2 <==> share > 1.2 * previous
  {
    var q := share / previous;
    assert q * previous == share;
    if q > 1.2 {
      assert q * previous > 1.2 * previous;
    } else {
      assert q * previous <= 1.2 * previous;
    }
  }

  lemma LevelPositive(targetTps: real, tps: map<Signature, real>)
    requires targetTps > 0.0 && tps != map[]
    ensures BudgetLevel(targetTps, tps) > 0.0
  {
    hide Level, Sorted, Used, Sum;
    var keys := Listing(tps.Keys);
    LevelOfAnyListing(targetTps, tps, keys);
    var s := Sorted(Values(tps, keys));
    LevelAtLeastShare(targetTps, s);
    ShareIsPositive(targetTps, |s| as real);
  }

  lemma ShareIsPositive(t: real, n: real)
    requires t > 0.0 && n > 0.0
    ensures t / n > 0.0
  {
    var q := t / n;
    assert q * n == t;
  }

  // ----- Rates and budget of a rotation -----

  ghost function Spend(rates: map<Signature, real>, tps: map<Signature, real>): map<Signature, real> {
    map sig | sig in rates && sig in tps :: rates[sig] * tps[sig]
  }

  lemma TpsNonNegative(seen: map<Signature, Ring>, previous: int, new_: int)
    ensures forall sig <- seen :: SeenTps(seen, previous, new_)[sig] >= 0.0
  {
    forall sig | sig in seen ensures SeenTps(seen, previous, new_)[sig] >= 0.0 {
      PeakIsMaximum(seen[sig], WindowStart(previous, new_), previous + 1);
    }
  }

  ghost function Cut(tps: map<Signature, real>, level: real): (m: map<Signature, real>)
    ensures m.Keys == tps.Keys
  {
    map sig | sig in tps :: Min(tps[sig], level)
  }

  lemma {:induction false} UsedIsSum(tps: map<Signature, real>, keys: seq<Signature>, level: real)
    requires forall i | 0 <= i < |keys| :: keys[i] in tps
    ensures Sum(Values(Cut(tps, level), keys)) == Used(Values(tps, keys), level)
  {
    if keys != [] {
      UsedIsSum(tps, keys[1..], level);
      assert Values(Cut(tps, level), keys)[1..] == Values(Cut(tps, level), keys[1..]);
      assert Values(tps, keys)[1..] == Values(tps, keys[1..]);
    }
  }

  lemma CutIsExact(targetTps: real, tps: map<Signature, real>)
    requires tps != map[]
    ensures MapSum(Cut(tps, BudgetLevel(targetTps, tps))) == Min(targetTps, MapSum(tps))
  {
    hide Level, Sorted, MapSum, Sum, Used;
    var keys, level := Listing(tps.Keys), BudgetLevel(targetTps, tps);
    LevelOfAnyListing(targetTps, tps, keys);
    LevelFills(targetTps, Values(tps, keys));
    MapSumListed(Cut(tps, level), keys);
    MapSumListed(tps, keys);
    UsedIsSum(tps, keys, level);
  }

  /** Whatever was counted, the new rates let through at most the target. */
  lemma BudgetHeld(s: State, previous: int, new_: int)
    requires Inv(s) && s.seen != map[]
    ensures MapSum(Spend(AfterUpdate(s, previous, new_).rates, SeenTps(s.seen, previous, new_))) <= s.targetTps
  {
    var tps := SeenTps(s.seen, previous, new_);
    TpsNonNegative(s.seen, previous, new_);
    SpendWithin(s.targetTps, tps, s.rates);
  }

  ghost function Spent(level: real, tps: map<Signature, real>, rates: map<Signature, real>): (m: map<Signature, real>)
    ensures m.Keys == tps.Keys
  {
    map sig | sig in tps :: NewRate(level, tps[sig], sig, rates) * tps[sig]
  }

  lemma SpentAt(level: real, tps: map<Signature, real>, rates: map<Signature, real>, sig: Signature)
    requires sig in tps
    ensures Spent(level, tps, rates)[sig] == NewRate(level, tps[sig], sig, rates) * tps[sig]
    ensures Cut(tps, level)[sig] == Min(tps[sig], level)
  {
    hide NewRate;
  }

  lemma SpentIsCut(level: real, tps: map<Signature, real>, rates: map<Signature, real>, sig: Signature)
    requires level > 0.0 && sig in tps && tps[sig] >= 0.0
    requires sig in rates ==> rates[sig] > 0.0
    ensures Spent(level, tps, rates)[sig] <= Cut(tps, level)[sig]
    ensures Spent(level, tps, rates)[sig] == Cut(tps, level)[sig] <==> !HeldBack(level, tps[sig], sig, rates)
  {
    hide NewRate, HeldBack, Min, Spent, Cut;
    SpentAt(level, tps, rates, sig);
    NewRateBounds(level, tps[sig], sig, rates);
    SpentUnlessHeldBack(level, tps[sig], sig, rates);
  }

  lemma SpendWithin(targetTps: real, tps: map<Signature, real>, rates: map<Signature, real>)
    requires targetTps > 0.0 && tps != map[]
    requires forall sig <- tps :: tps[sig] >= 0.0
    requires forall sig <- rates :: rates[sig] > 0.0
    ensures MapSum(Spend(NewRates(BudgetLevel(targetTps, tps), tps, rates), tps)) <= targetTps
  {
    hide BudgetLevel, MapSum, NewRates, Spend, Spent;
    var level := BudgetLevel(targetTps, tps);
    LevelPositive(targetTps, tps);
    forall sig | sig in tps ensures Spent(level, tps, rates)[sig] <= Cut(tps, level)[sig] {
      SpentIsCut(level, tps, rates, sig);
    }
    MapSumMonotone(Spent(level, tps, rates), Cut(tps, level));
    CutIsExact(targetTps, tps);
    SpendOfNewRates(level, tps, rates);
  }

  lemma SpendOfNewRates(level: real, tps: map<Signature, real>, rates: map<Signature, real>)
    ensures MapSum(Spend(NewRates(level, tps, rates), tps)) == MapSum(Spent(level, tps, rates))
  {
    hide NewRate, MapSum;
    MapSumDropZeros(Spent(level, tps, rates), Spend(NewRates(level, tps, rates), tps));
  }

  /** The 20% cap keeps a signature below its share of the budget. */
  ghost predicate HeldBack(level: real, tps: real, sig: Signature, rates: map<Signature, real>) {
    sig in rates && 1.2 * rates[sig] * tps < Min(tps, level)
  }

  lemma SpentUnlessHeldBack(level: real, tps: real, sig: Signature, rates: map<Signature, real>)
    requires level > 0.0 && tps >= 0.0
    requires sig in rates ==> rates[sig] > 0.0
    ensures NewRate(level, tps, sig, rates) * tps == Min(tps, level) <==> !HeldBack(level, tps, sig, rates)
  {
    var share := if level < tps && tps > 0.0 then level / tps else 1.0;
    if level < tps {
      Quotient(level, tps);
    }
    assert share * tps == Min(tps, level);
    if sig in rates {
      var most := 1.2 * rates[sig];
      Capped(share, rates[sig]);
      if share > most {
        assert (share - most) * tps > 0.0 || tps == 0.0;
      } else {
        Times(share, most, tps);
      }
    }
  }

  /**
   The budget is spent in full, or all traffic is let through, exactly when the cap holds no
   signature back.
   */
  lemma BudgetSpentInFull(s: State, previous: int, new_: int)
    requires Inv(s) && s.seen != map[]
    ensures var tps := SeenTps(s.seen, previous, new_);
      MapSum(Spend(AfterUpdate(s, previous, new_).rates, tps)) == Min(s.targetTps, MapSum(tps)) <==>
      forall sig <- tps :: !HeldBack(BudgetLevel(s.targetTps, tps), tps[sig], sig, s.rates)
  {
    hide BudgetLevel, MapSum, SeenTps, Spend, CountsOk, Lowest, HeldBack, NewRate;
    var tps := SeenTps(s.seen, previous, new_);
    TpsNonNegative(s.seen, previous, new_);
    InFullUnlessHeldBack(s.targetTps, tps, s.rates);
  }

  lemma InFullUnlessHeldBack(targetTps: real, tps: map<Signature, real>, rates: map<Signature, real>)
    requires targetTps > 0.0 && tps != map[]
    requires forall sig <- tps :: tps[sig] >= 0.0
    requires forall sig <- rates :: rates[sig] > 0.0
    ensures var level := BudgetLevel(targetTps, tps);
      MapSum(Spend(NewRates(level, tps, rates), tps)) == Min(targetTps, MapSum(tps)) <==>
      forall sig <- tps :: !HeldBack(level, tps[sig], sig, rates)
  {
    hide BudgetLevel, MapSum, NewRates, Spend, HeldBack, NewRate;
    var level := BudgetLevel(targetTps, tps);
    var spent, cut := Spent(level, tps, rates), Cut(tps, level);
    LevelPositive(targetTps, tps);
    hide Spent, Cut, Min;
    forall sig | sig in tps
      ensures spent[sig] <= cut[sig] && (spent[sig] == cut[sig] <==> !HeldBack(level, tps[sig], sig, rates))
    {
      SpentIsCut(level, tps, rates, sig);
    }
    MapSumEqual(spent, cut);
    CutIsExact(targetTps, tps);
    SpendOfNewRates(level, tps, rates);
  }

  lemma UpdateKeepsRates(s: State, previous: int, new_: int)
    requires Inv(s)
    ensures RatesOk(AfterUpdate(s, previous, new_))
    ensures AfterUpdate(s, previous, new_).seen.Keys <= s.seen.Keys
    ensures s.seen != map[] ==> AfterUpdate(s, previous, new_).rates.Keys == AfterUpdate(s, previous, new_).seen.Keys
  {
    hide BudgetLevel, SeenTps, NewRate, NewRates, CountsOk, Lowest, IsLowest;
    if s.seen != map[] {
      var tps := SeenTps(s.seen, previous, new_);
      var level := BudgetLevel(s.targetTps, tps);
      var rates := NewRates(level, tps, s.rates);
      TpsNonNegative(s.seen, previous, new_);
      LevelPositive(s.targetTps, tps);
      NewRatesHold(level, tps, s.rates);
      forall sig | sig in rates ensures 0.0 < rates[sig] <= 1.0 {
        NewRateBounds(level, tps[sig], sig, s.rates);
      }
      LowestBounds(rates);
    }
  }

  lemma LowestBounds(rates: map<Signature, real>)
    requires forall sig <- rates :: rates[sig] > 0.0
    ensures 0.0 < Lowest(rates) <= 1.0 && forall sig <- rates :: Lowest(rates) <= rates[sig]
  {
    assert IsLowest(rates, Lowest(rates));
  }

  /**
   A rate grows by at most 20% in a rotation, and a signature loses its stored rate only when
   20% more would have reached 1: going away and coming back gains it nothing.
   */
  lemma GrowthIsCapped(s: State, previous: int, new_: int, sig: Signature)
    requires Inv(s) && sig in s.rates
    ensures var after := AfterUpdate(s, previous, new_);
      if sig in after.rates then after.rates[sig] <= 1.2 * s.rates[sig] else 1.2 * s.rates[sig] >= 1.0
  {
    var tps := SeenTps(s.seen, previous, new_);
    TpsNonNegative(s.seen, previous, new_);
    LevelPositive(s.targetTps, tps);
    NewRateBounds(BudgetLevel(s.targetTps, tps), tps[sig], sig, s.rates);
  }

  // ----- The combined ring -----

  lemma AllZero(m: map<Signature, real>)
    requires forall sig <- m :: m[sig] == 0.0
    ensures MapSum(m) == 0.0
  {
    MapSumDropZeros(m, map[]);
  }

  /** A signature is only cleaned up when nothing is left in its ring. */
  lemma CleanedIsEmpty(ring: Ring, previous: int, new_: int)
    requires PeakSeen(ring, previous, new_) == 0.0
    requires forall i | 0 <= i < 6 :: ring[i] >= 0.0
    ensures Rotated(ring, previous, new_) == ZEROS
  {
    PeakIsMaximum(ring, WindowStart(previous, new_), previous + 1);
    forall b | previous - 5 <= b <= previous ensures Held(Rotated(ring, previous, new_), b) == Held(ZEROS, b) {
      RotatedHolds(ring, previous, new_, b);
      assert Held(ring, b) >= 0.0;
    }
    SameRing(Rotated(ring, previous, new_), ZEROS, previous);
  }

  lemma UpdateKeepsCounts(s: State, previous: int, new_: int)
    requires Inv(s)
    ensures CountsOk(AfterUpdate(s, previous, new_).seen, AfterUpdate(s, previous, new_).allSigsSeen)
  {
    if s.seen != map[] {
      var after := AfterUpdate(s, previous, new_);
      var tps := SeenTps(s.seen, previous, new_);
      var level := BudgetLevel(s.targetTps, tps);
      NewRatesHold(level, tps, s.rates);
      forall sig | sig in s.seen && sig !in after.seen ensures Rotated(s.seen[sig], previous, new_) == ZEROS {
        CleanedIsEmpty(s.seen[sig], previous, new_);
      }
      RotatedSums(s, after, previous, new_);
    }
  }

  lemma RotatedSums(s: State, after: State, previous: int, new_: int)
    requires CountsOk(s.seen, s.allSigsSeen)
    requires after.seen.Keys <= s.seen.Keys && after.allSigsSeen == Rotated(s.allSigsSeen, previous, new_)
    requires forall sig <- s.seen ::
      if sig in after.seen then after.seen[sig] == Rotated(s.seen[sig], previous, new_)
      else Rotated(s.seen[sig], previous, new_) == ZEROS
    ensures CountsOk(after.seen, after.allSigsSeen)
  {
    hide MapSum;
    forall i | 0 <= i < 6 ensures after.allSigsSeen[i] == MapSum(Slot(after.seen, i)) {
      if LiveBucket(previous, i) + 6 <= new_ {
        AllZero(Slot(after.seen, i));
      } else {
        forall sig | sig in s.seen
          ensures if sig in after.seen then after.seen[sig][i] == s.seen[sig][i] else s.seen[sig][i] == 0.0
        {
          assert Rotated(s.seen[sig], previous, new_)[i] == s.seen[sig][i];
        }
        MapSumDropZeros(Slot(s.seen, i), Slot(after.seen, i));
      }
    }
  }

  lemma AddKeepsCounts(seen: map<Signature, Ring>, all: Ring, sig: Signature, idx: nat, n: real)
    requires CountsOk(seen, all) && idx < 6 && n >= 0.0
    ensures var ring := if sig in seen then seen[sig] else ZEROS;
      CountsOk(seen[sig := AddTo(ring, idx, n)], AddTo(all, idx, n))
  {
    hide MapSum;
    var ring := if sig in seen then seen[sig] else ZEROS;
    var added := AddTo(ring, idx, n);
    var larger := seen[sig := added];
    forall i | 0 <= i < 6 ensures AddTo(all, idx, n)[i] == MapSum(Slot(larger, i)) {
      assert Slot(larger, i) == Slot(seen, i)[sig := added[i]];
      MapSumUpdate(Slot(seen, i), sig, added[i]);
    }
  }

  // ----- Every step -----

  lemma InitialInv(extraRate: real, targetTps: real)
    requires targetTps > 0.0
    ensures Inv(Initial(extraRate, targetTps))
  {
    forall i | 0 <= i < 6 ensures ZEROS[i] == MapSum(Slot(map[], i)) {
      AllZero(Slot(map[], i));
    }
  }

  lemma RotationKeepsInv(s: State, nowUnixSecs: int)
    requires Inv(s)
    ensures Inv(AfterRotation(s, nowUnixSecs))
  {
    var moved := s.(lastBucketId := BucketId(nowUnixSecs));
    assert Inv(moved);
    UpdateKeepsRates(moved, s.lastBucketId, BucketId(nowUnixSecs));
    UpdateKeepsCounts(moved, s.lastBucketId, BucketId(nowUnixSecs));
    hide Inv;
    assert AfterUpdate(moved, s.lastBucketId, BucketId(nowUnixSecs)).targetTps == s.targetTps;
  }

  lemma CountKeepsInv(s: State, nowUnixSecs: int, sig: Signature, n: real)
    requires Inv(s) && n >= 0.0
    ensures Inv(AfterCount(s, nowUnixSecs, sig, n))
  {
    RotationKeepsInv(s, nowUnixSecs);
    hide AfterRotation;
    var r := AfterRotation(s, nowUnixSecs);
    AddKeepsCounts(r.seen, r.allSigsSeen, sig, BucketIndex(BucketId(nowUnixSecs)), n);
  }

  /** The rate for a signature not yet rated never exceeds any stored rate. */
  lemma DefaultIsLowest(s: State)
    requires Inv(s)
    ensures 0.0 < DefaultRate(s) <= 1.0
    ensures forall sig <- s.rates :: DefaultRate(s) <= s.rates[sig]
  {
    var seenTps := MaxSeen(s.allSigsSeen) / 5.0;
    if s.targetTps < seenTps {
      Quotient(s.targetTps, seenTps);
    }
  }

  /** It is the largest rate that exceeds no stored rate and keeps the busiest bucket within the target. */
  lemma DefaultIsLargest(s: State, q: real)
    requires Inv(s)
    ensures q <= DefaultRate(s) <==>
      && q <= 1.0
      && q * (MaxSeen(s.allSigsSeen) / 5.0) <= s.targetTps
      && forall sig <- s.rates :: q <= s.rates[sig]
  {
    hide CountsOk, MaxSeen, DefaultRate, Lowest, IsLowest;
    var seenTps := MaxSeen(s.allSigsSeen) / 5.0;
    var share := DefaultShare(s);
    ShareIsLargest(s.targetTps, seenTps, share, q);
    BelowLowest(s.rates, q);
  }

  lemma DefaultShare(s: State) returns (share: real)
    requires s.targetTps > 0.0 && 0.0 <= s.lowestRate <= 1.0
    ensures var seenTps := MaxSeen(s.allSigsSeen) / 5.0;
      && seenTps >= 0.0
      && (if s.targetTps < seenTps then share < 1.0 && share * seenTps == s.targetTps else share == 1.0)
    ensures DefaultRate(s) == if s.lowestRate == 0.0 then share else Min(share, s.lowestRate)
  {
    MaxSeenNonNegative(s.allSigsSeen);
    hide MaxSeen;
    var seenTps := MaxSeen(s.allSigsSeen) / 5.0;
    share := if s.targetTps < seenTps && seenTps > 0.0 then s.targetTps / seenTps else 1.0;
    if s.targetTps < seenTps {
      Quotient(s.targetTps, seenTps);
    }
  }

  lemma MaxSeenNonNegative(ring: Ring)
    ensures MaxSeen(ring) >= 0.0
  {
  }

  lemma BelowLowest(rates: map<Signature, real>, q: real)
    ensures q <= Lowest(rates) <==> q <= 1.0 && forall sig <- rates :: q <= rates[sig]
  {
    assert IsLowest(rates, Lowest(rates));
  }
}
