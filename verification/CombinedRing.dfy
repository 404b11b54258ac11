/**
 The combined ring against the history: under a clock that does not go back, slot `b mod 6` of
 `all_sigs_seen` is the total weight recorded in bucket `b`, so the default rate is a function of
 recorded traffic.
 */
module CombinedRing {
  import opened RealSums
  import opened Ring
  import opened SamplerModel
  import opened SamplerInvariants
  import opened SamplerRuns

  /** The same history with every weight under one signature. */
  ghost function Merged(events: seq<Event>): (merged: seq<Event>)
    ensures |merged| == |events|
    ensures forall i | 0 <= i < |events| :: merged[i] == Event(events[i].now, 0, events[i].weight)
  {
    seq(|events|, i requires 0 <= i < |events| => Event(events[i].now, 0, events[i].weight))
  }

  /** The weight recorded in a bucket, over all signatures. */
  ghost function Recorded(events: seq<Event>, b: int): real {
    if events == [] then 0.0 else
      var e := events[|events| - 1];
      Recorded(events[..|events| - 1], b) + (if BucketId(e.now) == b then e.weight else 0.0)
  }

  lemma {:induction false} MergedIsRecorded(events: seq<Event>, b: int)
    ensures Counted(Merged(events), 0, b) == Recorded(events, b)
  {
    if events != [] {
      MergedIsRecorded(events[..|events| - 1], b);
      assert Merged(events)[..|events| - 1] == Merged(events[..|events| - 1]);
    }
  }

  ghost predicate CombinedAligned(s: State, events: seq<Event>) {
    forall b | s.lastBucketId - 5 <= b <= s.lastBucketId :: Held(s.allSigsSeen, b) == Recorded(events, b)
  }

  /** A rotation rotates the combined ring too; with no signature known it is empty already. */
  lemma CombinedAfterRotation(s: State, now: int)
    requires Inv(s) && Rotates(s, now)
    ensures AfterRotation(s, now).allSigsSeen == Rotated(s.allSigsSeen, s.lastBucketId, BucketId(now))
  {
    hide BudgetLevel, Lowest, NewRates, SeenTps;
    if s.seen == map[] {
      forall i | 0 <= i < 6 ensures s.allSigsSeen[i] == 0.0 {
        AllZero(Slot(s.seen, i));
      }
      assert Rotated(s.allSigsSeen, s.lastBucketId, BucketId(now)) == s.allSigsSeen;
    }
  }

  lemma RotationKeepsCombined(s: State, events: seq<Event>, now: int)
    requires Inv(s) && CombinedAligned(s, events) && NothingAfter(events, s.lastBucketId)
    requires BucketId(now) >= s.lastBucketId
    ensures CombinedAligned(AfterRotation(s, now), events)
  {
    hide Inv, AfterUpdate, Counted, Recorded, Rotated;
    RotationMovesOn(s, now);
    if Rotates(s, now) {
      CombinedAfterRotation(s, now);
      forall b ensures Counted(Merged(events), 0, b) == Recorded(events, b) {
        MergedIsRecorded(events, b);
      }
      RotationAligns(s.allSigsSeen, Merged(events), 0, s.lastBucketId, BucketId(now));
    }
  }

  lemma CountKeepsCombined(s: State, events: seq<Event>, e: Event)
    requires Inv(s) && CombinedAligned(s, events) && NothingAfter(events, s.lastBucketId)
    requires BucketId(e.now) >= s.lastBucketId
    ensures CombinedAligned(AfterCount(s, e.now, e.sig, e.weight), events + [e])
  {
    RotationKeepsCombined(s, events, e.now);
    RotationMovesOn(s, e.now);
    hide AfterRotation, Inv;
    var r, now := AfterRotation(s, e.now), BucketId(e.now);
    var after := AfterCount(s, e.now, e.sig, e.weight);
    forall b | now - 5 <= b <= now ensures Held(after.allSigsSeen, b) == Recorded(events + [e], b) {
      assert (events + [e])[..|events|] == events;
      assert Held(r.allSigsSeen, b) == Recorded(events, b);
      assert b % 6 == now % 6 <==> b == now;
    }
  }

  /** After any run under a clock that does not go back, the combined ring agrees with the record. */
  lemma {:induction false} RunIsCombined(start: State, events: seq<Event>)
    requires Fresh(start) && Weighted(events) && Timely(events)
    ensures CombinedAligned(After(start, events), events)
  {
    hide Inv, Aligned, CombinedAligned, AfterCount, Fresh, Weighted, Timely;
    if events == [] {
      NothingCombined(start);
    } else {
      var front, e := events[..|events| - 1], events[|events| - 1];
      assert events == front + [e];
      TimelyFront(events);
      RunIsCombined(start, front);
      RunIsAligned(start, front);
      CountKeepsCombined(After(start, front), front, e);
    }
  }

  lemma NothingCombined(start: State)
    requires Fresh(start)
    ensures CombinedAligned(After(start, []), [])
  {
  }

  lemma TimelyFront(events: seq<Event>)
    requires events != [] && Weighted(events) && Timely(events)
    ensures var front, now := events[..|events| - 1], events[|events| - 1].now;
      && Weighted(front) && Timely(front)
      && BucketId(now) >= (if front == [] then 0 else BucketId(front[|front| - 1].now))
  {
  }

  /** The busiest slot of a ring is its peak over any six consecutive buckets. */
  lemma MaxSeenIsPeak(ring: Ring, last: int)
    ensures forall b | last - 5 <= b <= last :: Held(ring, b) <= MaxSeen(ring)
    ensures MaxSeen(ring) == 0.0 || exists b | last - 5 <= b <= last :: Held(ring, b) == MaxSeen(ring)
  {
    if MaxSeen(ring) != 0.0 {
      var i :| 0 <= i < 6 && ring[i] == MaxSeen(ring);
      assert BucketIndex(LiveBucket(last, i)) == i;
      assert Held(ring, LiveBucket(last, i)) == MaxSeen(ring);
    }
  }

  /** At rate `q`, the traffic of a bucket stays within the target per second. */
  ghost predicate WithinTarget(q: real, weight: real, targetTps: real) {
    q * (weight / 5.0) <= targetTps
  }

  lemma LessIsWithin(q: real, less: real, more: real, targetTps: real)
    requires 0.0 <= less <= more && targetTps > 0.0 && WithinTarget(q, more, targetTps)
    ensures WithinTarget(q, less, targetTps)
  {
    if q >= 0.0 {
      assert q * (more / 5.0 - less / 5.0) >= 0.0;
    } else {
      assert q * (less / 5.0) <= 0.0;
    }
  }

  lemma NoneIsWithin(q: real, targetTps: real)
    requires targetTps > 0.0
    ensures WithinTarget(q, 0.0, targetTps)
  {
  }

  lemma BusiestDecides(q: real, ring: Ring, last: int, targetTps: real)
    requires targetTps > 0.0 && forall b :: Held(ring, b) >= 0.0
    ensures WithinTarget(q, MaxSeen(ring), targetTps) <==>
      forall b | last - 5 <= b <= last :: WithinTarget(q, Held(ring, b), targetTps)
  {
    hide MaxSeen, Held, WithinTarget;
    MaxSeenIsPeak(ring, last);
    NoneIsWithin(q, targetTps);
    if WithinTarget(q, MaxSeen(ring), targetTps) {
      forall b | last - 5 <= b <= last ensures WithinTarget(q, Held(ring, b), targetTps) {
        LessIsWithin(q, Held(ring, b), MaxSeen(ring), targetTps);
      }
    }
  }

  /** At rate `q`, the recorded traffic of each of the six buckets up to `last` stays within the target. */
  ghost predicate RecordWithinTarget(q: real, events: seq<Event>, last: int, targetTps: real) {
    forall b | last - 5 <= b <= last :: WithinTarget(q, Recorded(events, b), targetTps)
  }

  lemma BusiestRecorded(q: real, s: State, events: seq<Event>)
    requires Inv(s) && CombinedAligned(s, events)
    ensures WithinTarget(q, MaxSeen(s.allSigsSeen), s.targetTps) <==>
      RecordWithinTarget(q, events, s.lastBucketId, s.targetTps)
  {
    hide MaxSeen, Held, WithinTarget, Recorded;
    HeldNonNegative(s);
    BusiestDecides(q, s.allSigsSeen, s.lastBucketId, s.targetTps);
  }

  /**
   In every run, the rate for a signature not yet rated is the largest that is at most 1, exceeds no
   stored rate, and would keep the total traffic of each of the last six buckets within the target.
   */
  lemma DefaultRateOnRecord(start: State, events: seq<Event>, q: real)
    requires Fresh(start) && Weighted(events) && Timely(events)
    ensures var s := After(start, events);
      q <= DefaultRate(s) <==>
        && q <= 1.0
        && (forall sig <- s.rates :: q <= s.rates[sig])
        && RecordWithinTarget(q, events, s.lastBucketId, start.targetTps)
  {
    hide After, MaxSeen, DefaultRate, Weighted, Timely, Aligned, Inv, WithinTarget, RecordWithinTarget;
    var s := After(start, events);
    RunIsAligned(start, events);
    RunIsCombined(start, events);
    TargetNeverChanges(start, events);
    BusiestRecorded(q, s, events);
    DefaultIsWithin(s, q);
  }

  lemma DefaultIsWithin(s: State, q: real)
    requires Inv(s)
    ensures q <= DefaultRate(s) <==>
      && q <= 1.0
      && (forall sig <- s.rates :: q <= s.rates[sig])
      && WithinTarget(q, MaxSeen(s.allSigsSeen), s.targetTps)
  {
    hide MaxSeen, DefaultRate, Inv;
    DefaultIsLargest(s, q);
  }

  lemma HeldNonNegative(s: State)
    requires Inv(s)
    ensures forall b :: Held(s.allSigsSeen, b) >= 0.0
  {
    forall i | 0 <= i < 6 ensures s.allSigsSeen[i] >= 0.0 {
      SumNonNegative(Slot(s.seen, i));
    }
  }

  lemma SumNonNegative(m: map<Signature, real>)
    requires forall sig <- m :: m[sig] >= 0.0
    ensures MapSum(m) >= 0.0
  {
    var zeros := map sig | sig in m :: 0.0;
    AllZero(zeros);
    MapSumMonotone(zeros, m);
  }
}
