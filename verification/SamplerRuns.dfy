/**
 Runs of the sampler against the history of what was counted: the six-slot rings agree with an
 unbounded record, so budget and recovery can be stated on that record alone.
 */
module SamplerRuns {
  import opened RealSums
  import opened Ring
  import opened SamplerModel
  import opened SamplerInvariants

  datatype Event = Event(now: int, sig: Signature, weight: real)

  /** A sampler as it is created, and enabled. */
  ghost predicate Fresh(start: State) {
    start == Initial(start.extraRate, start.targetTps) && start.targetTps > 0.0
  }

  ghost function After(start: State, events: seq<Event>): State {
    if events == [] then start else
      var e := events[|events| - 1];
      AfterCount(After(start, events[..|events| - 1]), e.now, e.sig, e.weight)
  }

  ghost predicate Weighted(events: seq<Event>) {
    forall i | 0 <= i < |events| :: events[i].weight >= 0.0
  }

  /** The clock starts at or after the epoch and never goes back. */
  ghost predicate Timely(events: seq<Event>) {
    && (forall i | 0 <= i < |events| :: events[i].now >= 0)
    && (forall i, j | 0 <= i < j < |events| :: events[i].now <= events[j].now)
  }

  /** The weight recorded for a signature in a bucket, over the whole history. */
  ghost function Counted(events: seq<Event>, sig: Signature, b: int): real {
    if events == [] then 0.0 else
      var e := events[|events| - 1];
      Counted(events[..|events| - 1], sig, b) + (if e.sig == sig && BucketId(e.now) == b then e.weight else 0.0)
  }

  /** The weight counted for a signature from second `lo` up to, and without, second `hi`. */
  ghost function CountedBetween(events: seq<Event>, sig: Signature, lo: int, hi: int): real {
    if events == [] then 0.0 else
      var e := events[|events| - 1];
      CountedBetween(events[..|events| - 1], sig, lo, hi) + (if e.sig == sig && lo <= e.now < hi then e.weight else 0.0)
  }

  /** The record of bucket `b` is what was counted in the five seconds from `5 * b` on. */
  lemma {:induction false} RecordIsOfFiveSeconds(events: seq<Event>, sig: Signature, b: int)
    requires forall i | 0 <= i < |events| :: events[i].now >= 0
    ensures Counted(events, sig, b) == CountedBetween(events, sig, 5 * b, 5 * b + 5)
  {
    if events != [] {
      RecordIsOfFiveSeconds(events[..|events| - 1], sig, b);
      BucketIsFiveSeconds(events[|events| - 1].now, b);
    }
  }

  /** The highest weight recorded for a signature in the buckets `lo <= b < hi`, and at least 0. */
  ghost function HistoryPeak(events: seq<Event>, sig: Signature, lo: int, hi: int): real
    decreases hi - lo
  {
    if lo >= hi then 0.0 else Max(HistoryPeak(events, sig, lo, hi - 1), Counted(events, sig, hi - 1))
  }

  lemma {:induction false} RunKeepsInv(start: State, events: seq<Event>)
    requires Inv(start) && Weighted(events)
    ensures Inv(After(start, events))
  {
    if events != [] {
      var e := events[|events| - 1];
      RunKeepsInv(start, events[..|events| - 1]);
      CountKeepsInv(After(start, events[..|events| - 1]), e.now, e.sig, e.weight);
    }
  }

  // ----- The rings hold the history of the last six buckets -----

  ghost predicate Aligned(s: State, events: seq<Event>) {
    forall sig: Signature, b | s.lastBucketId - 5 <= b <= s.lastBucketId ::
      Held(RingOf(s, sig), b) == Counted(events, sig, b)
  }

  ghost predicate NothingAfter(events: seq<Event>, last: int) {
    forall i | 0 <= i < |events| :: BucketId(events[i].now) <= last
  }

  lemma {:induction false} NotYetCounted(events: seq<Event>, last: int, sig: Signature, b: int)
    requires NothingAfter(events, last) && b > last
    ensures Counted(events, sig, b) == 0.0
  {
    if events != [] {
      NotYetCounted(events[..|events| - 1], last, sig, b);
    }
  }

  /** One ring through a rotation forward: six buckets ending at the new one. */
  lemma RotationAligns(ring: Ring, events: seq<Event>, sig: Signature, previous: int, new_: int)
    requires new_ > previous && NothingAfter(events, previous)
    requires forall b | previous - 5 <= b <= previous :: Held(ring, b) == Counted(events, sig, b)
    ensures forall b | new_ - 5 <= b <= new_ :: Held(Rotated(ring, previous, new_), b) == Counted(events, sig, b)
  {
    forall b | new_ - 5 <= b <= new_ ensures Held(Rotated(ring, previous, new_), b) == Counted(events, sig, b) {
      var live := LiveBucket(previous, BucketIndex(b));
      assert BucketIndex(live) == BucketIndex(b) && previous - 5 <= live <= previous;
      assert (b - live) % 6 == 0;
      RotatedHolds(ring, previous, new_, live);
      if b > previous {
        assert b - live >= 6;
        NotYetCounted(events, previous, sig, b);
      } else {
        assert b == live;
      }
    }
  }

  /** The peak that a rotation reads off a ring is the peak of the recorded six buckets. */
  lemma {:induction false} PeakIsRecorded(ring: Ring, events: seq<Event>, sig: Signature, previous: int, lo: int, hi: int)
    requires NothingAfter(events, previous)
    requires forall b | previous - 5 <= b <= previous :: Held(ring, b) == Counted(events, sig, b)
    requires lo >= previous - 5
    ensures HistoryPeak(events, sig, lo, hi) == Peak(ring, lo, if hi <= previous + 1 then hi else previous + 1)
    decreases hi - lo
  {
    if lo < hi {
      PeakIsRecorded(ring, events, sig, previous, lo, hi - 1);
      if hi > previous + 1 {
        NotYetCounted(events, previous, sig, hi - 1);
        PeakIsMaximum(ring, lo, previous + 1);
      }
    } else {
      assert HistoryPeak(events, sig, lo, hi) == 0.0;
    }
  }

  lemma RotationKeepsAligned(s: State, events: seq<Event>, now: int)
    requires Inv(s) && Aligned(s, events) && NothingAfter(events, s.lastBucketId)
    requires BucketId(now) >= s.lastBucketId
    ensures Aligned(AfterRotation(s, now), events)
  {
    var previous, new_ := s.lastBucketId, BucketId(now);
    if new_ > previous {
      var r := AfterRotation(s, now);
      forall sig: Signature
        ensures forall b | new_ - 5 <= b <= new_ :: Held(RingOf(r, sig), b) == Counted(events, sig, b)
      {
        RotationAligns(RingOf(s, sig), events, sig, previous, new_);
        RingAfterRotation(s, now, sig);
      }
    }
  }

  /** A ring that was cleaned up, or was never there, reads as the rotated ring: all zeros. */
  lemma RingAfterRotation(s: State, now: int, sig: Signature)
    requires Inv(s) && Rotates(s, now)
    ensures RingOf(AfterRotation(s, now), sig) == Rotated(RingOf(s, sig), s.lastBucketId, BucketId(now))
  {
    var previous, new_ := s.lastBucketId, BucketId(now);
    hide BudgetLevel, Lowest, NewRate;
    if sig !in s.seen {
      assert Rotated(ZEROS, previous, new_) == ZEROS;
    } else {
      var tps := SeenTps(s.seen, previous, new_);
      NewRatesHold(BudgetLevel(s.targetTps, tps), tps, s.rates);
      if sig !in AfterRotation(s, now).seen {
        CleanedIsEmpty(s.seen[sig], previous, new_);
      }
    }
  }

  lemma CountMovesOn(s: State, e: Event)
    ensures AfterCount(s, e.now, e.sig, e.weight).lastBucketId == BucketId(e.now)
  {
    RotationMovesOn(s, e.now);
  }

  lemma CountKeepsAligned(s: State, events: seq<Event>, e: Event)
    requires Inv(s) && Aligned(s, events) && NothingAfter(events, s.lastBucketId)
    requires BucketId(e.now) >= s.lastBucketId
    ensures Aligned(AfterCount(s, e.now, e.sig, e.weight), events + [e])
  {
    RotationKeepsAligned(s, events, e.now);
    hide AfterRotation;
    var r, new_ := AfterRotation(s, e.now), BucketId(e.now);
    assert r.lastBucketId == new_ by { RotationMovesOn(s, e.now); }
    var after := AfterCount(s, e.now, e.sig, e.weight);
    forall sig: Signature, b | new_ - 5 <= b <= new_
      ensures Held(RingOf(after, sig), b) == Counted(events + [e], sig, b)
    {
      assert (events + [e])[..|events|] == events;
      assert Held(RingOf(r, sig), b) == Counted(events, sig, b);
      assert b % 6 == new_ % 6 <==> b == new_;
    }
  }

  lemma RotationMovesOn(s: State, now: int)
    ensures AfterRotation(s, now).lastBucketId == BucketId(now)
  {
  }

  lemma InitialIsAligned(start: State)
    requires Fresh(start)
    ensures var s := After(start, []); Inv(s) && Aligned(s, []) && s.lastBucketId == 0
  {
    InitialInv(start.extraRate, start.targetTps);
  }

  /** After any run under a clock that does not go back, every ring agrees with the record. */
  lemma {:induction false} RunIsAligned(start: State, events: seq<Event>)
    requires Fresh(start)
    requires Weighted(events) && Timely(events)
    ensures var s := After(start, events);
      && Inv(s) && Aligned(s, events) && NothingAfter(events, s.lastBucketId)
      && s.lastBucketId == (if events == [] then 0 else BucketId(events[|events| - 1].now))
  {
    hide Inv, Counted, AfterCount, AfterRotation;
    if events == [] {
      InitialIsAligned(start);
    } else {
      var front, e := events[..|events| - 1], events[|events| - 1];
      RunIsAligned(start, front);
      var s := After(start, front);
      assert events == front + [e];
      assert BucketId(e.now) >= s.lastBucketId by {
        if front != [] {
          assert front[|front| - 1] == events[|events| - 2];
        }
      }
      InitialInv(start.extraRate, start.targetTps);
      RunKeepsInv(start, events);
      CountKeepsAligned(s, front, e);
      CountMovesOn(s, e);
    }
  }

  /** What a rotation reads off each ring is the record of the six complete buckets before it. */
  lemma RotationReadsSixBuckets(start: State, events: seq<Event>, now: int, sig: Signature)
    requires Fresh(start)
    requires Weighted(events) && Timely(events)
    requires Rotates(After(start, events), now) && now >= 0
    requires events != [] ==> now >= events[|events| - 1].now
    ensures var s, new_ := After(start, events), BucketId(now);
      PeakSeen(RingOf(s, sig), s.lastBucketId, new_) == HistoryPeak(events, sig, new_ - 6, new_)
  {
    hide Inv, Counted, HistoryPeak, Peak, After;
    RunIsAligned(start, events);
    var s, new_ := After(start, events), BucketId(now);
    PeakIsRecorded(RingOf(s, sig), events, sig, s.lastBucketId, new_ - 6, new_);
  }

  // ----- Budget over whole runs -----

  /** Rate times recorded peak traffic per second, for every stored rate. */
  ghost function Sampled(rates: map<Signature, real>, events: seq<Event>, new_: int): map<Signature, real> {
    map sig | sig in rates :: rates[sig] * (HistoryPeak(events, sig, new_ - 6, new_) / 5.0)
  }

  /**
   At every rotation of every run, the rates just set would have let through at most the target
   even at each signature's highest traffic of the six buckets before.
   */
  lemma BudgetOnEveryRotation(start: State, events: seq<Event>, e: Event)
    requires Fresh(start)
    requires Weighted(events + [e]) && Timely(events + [e])
    requires Rotates(After(start, events), e.now)
    ensures var rates := After(start, events + [e]).rates;
      && MapSum(Sampled(rates, events, BucketId(e.now))) <= start.targetTps
      && forall sig <- rates :: 0.0 < rates[sig] <= 1.0
  {
    assert (events + [e])[..|events|] == events && (events + [e])[|events|] == e;
    assert Weighted(events) && Timely(events) by {
      assert forall i | 0 <= i < |events| :: events[i] == (events + [e])[i];
    }
    assert events != [] ==> (events + [e])[|events| - 1] == events[|events| - 1];
    InitialInv(start.extraRate, start.targetTps);
    RunKeepsInv(start, events);
    RunKeepsInv(start, events + [e]);
    TargetNeverChanges(start, events);
    BudgetOfRotation(start, events, e);
  }

  lemma {:induction false} TargetNeverChanges(start: State, events: seq<Event>)
    ensures After(start, events).targetTps == start.targetTps
  {
    if events != [] {
      TargetNeverChanges(start, events[..|events| - 1]);
    }
  }

  lemma BudgetOfRotation(start: State, events: seq<Event>, e: Event)
    requires Fresh(start)
    requires Weighted(events) && Timely(events) && e.now >= 0
    requires events != [] ==> e.now >= events[|events| - 1].now
    requires var s := After(start, events); Rotates(s, e.now) && Inv(s) && s.targetTps == start.targetTps
    ensures MapSum(Sampled(After(start, events + [e]).rates, events, BucketId(e.now))) <= start.targetTps
  {
    hide After, Inv, AfterUpdate, MapSum, SeenTps, Sampled, Weighted, Timely;
    var s, new_ := After(start, events), BucketId(e.now);
    var moved := s.(lastBucketId := new_);
    var rates := AfterUpdate(moved, s.lastBucketId, new_).rates;
    RatesOfRotation(start, events, e);
    SameInv(s, new_);
    RatesAreSeen(moved, s.lastBucketId, new_);
    if s.seen == map[] {
      NothingSampled(start, rates, events, new_);
    } else {
      BudgetHeld(moved, s.lastBucketId, new_);
      SampledIsSpend(start, events, e.now, rates);
    }
  }

  lemma RatesOfRotation(start: State, events: seq<Event>, e: Event)
    requires Rotates(After(start, events), e.now)
    ensures var s, new_ := After(start, events), BucketId(e.now);
      After(start, events + [e]).rates == AfterUpdate(s.(lastBucketId := new_), s.lastBucketId, new_).rates
  {
    hide AfterUpdate;
    assert (events + [e])[..|events|] == events && (events + [e])[|events|] == e;
  }

  lemma SameInv(s: State, b: int)
    requires Inv(s)
    ensures Inv(s.(lastBucketId := b))
  {
    hide CountsOk;
  }

  lemma RatesAreSeen(s: State, previous: int, new_: int)
    requires Inv(s)
    ensures AfterUpdate(s, previous, new_).rates.Keys <= s.seen.Keys
  {
    UpdateKeepsRates(s, previous, new_);
    hide AfterUpdate;
  }

  lemma NothingSampled(start: State, rates: map<Signature, real>, events: seq<Event>, new_: int)
    requires rates.Keys <= {} && start.targetTps > 0.0
    ensures MapSum(Sampled(rates, events, new_)) <= start.targetTps
  {
    AllZero(Sampled(rates, events, new_));
  }

  lemma SampledIsSpend(start: State, events: seq<Event>, now: int, rates: map<Signature, real>)
    requires Fresh(start)
    requires Weighted(events) && Timely(events) && now >= 0
    requires events != [] ==> now >= events[|events| - 1].now
    requires Rotates(After(start, events), now) && rates.Keys <= After(start, events).seen.Keys
    ensures var s := After(start, events);
      Sampled(rates, events, BucketId(now)) == Spend(rates, SeenTps(s.seen, s.lastBucketId, BucketId(now)))
  {
    hide After, PeakSeen, HistoryPeak, Weighted, Timely, Sampled, Spend, SeenTps;
    var s, new_ := After(start, events), BucketId(now);
    var tps := SeenTps(s.seen, s.lastBucketId, new_);
    forall sig | sig in rates ensures sig in s.seen && tps[sig] == HistoryPeak(events, sig, new_ - 6, new_) / 5.0 {
      RotationReadsSixBuckets(start, events, now, sig);
      TpsOf(s.seen, s.lastBucketId, new_, sig);
    }
    SameProducts(rates, events, new_, tps);
  }

  lemma TpsOf(seen: map<Signature, Ring>, previous: int, new_: int, sig: Signature)
    requires sig in seen
    ensures SeenTps(seen, previous, new_)[sig] == PeakSeen(seen[sig], previous, new_) / 5.0
  {
    hide PeakSeen;
  }

  lemma SameProducts(rates: map<Signature, real>, events: seq<Event>, new_: int, tps: map<Signature, real>)
    requires forall sig <- rates :: sig in tps && tps[sig] == HistoryPeak(events, sig, new_ - 6, new_) / 5.0
    ensures Sampled(rates, events, new_) == Spend(rates, tps)
  {
    hide HistoryPeak;
    var sampled, spend := Sampled(rates, events, new_), Spend(rates, tps);
    forall sig | sig in rates ensures sig in spend && sampled[sig] == spend[sig] {
      var peak := HistoryPeak(events, sig, new_ - 6, new_) / 5.0;
      SameProduct(rates[sig], peak, tps[sig]);
      assert sampled[sig] == rates[sig] * peak;
    }
  }

  lemma SameProduct(x: real, a: real, b: real)
    requires a == b
    ensures x * a == x * b
  {
  }
}
