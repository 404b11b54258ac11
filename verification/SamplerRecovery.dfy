/**
 A signature whose traffic stops: its rate climbs by exactly 20% a rotation until it would reach
 1, and that is the rotation that forgets it.
 */
module SamplerRecovery {
  import opened Ring
  import opened SamplerModel
  import opened SamplerInvariants
  import opened SamplerRuns

  /** `rate` times 1.2 to the power `j`. */
  ghost function Climb(rate: real, j: nat): real {
    if j == 0 then rate else 1.2 * Climb(rate, j - 1)
  }

  lemma {:induction false} ClimbIsLinearAtLeast(rate: real, j: nat)
    requires rate >= 0.0
    ensures Climb(rate, j) >= rate + 0.2 * (j as real * rate)
  {
    if j > 0 {
      ClimbIsLinearAtLeast(rate, j - 1);
      assert j as real * rate == (j - 1) as real * rate + rate;
      assert (j - 1) as real * rate >= 0.0;
    }
  }

  /** Any rate recovers: after `5 / rate` rotations at the latest. */
  lemma RecoveryEnds(rate: real, j: nat)
    requires rate > 0.0 && j as real >= 5.0 / rate
    ensures Climb(rate, j) >= 1.0
  {
    ClimbIsLinearAtLeast(rate, j);
    assert 5.0 / rate * rate == 5.0;
    Times(5.0 / rate, j as real, rate);
  }

  /** At every rotation after the first `from` events, the six buckets before are empty for `sig`. */
  ghost predicate QuietSince(start: State, events: seq<Event>, from: nat, sig: Signature)
    requires from <= |events|
  {
    forall k | from <= k < |events| && Rotates(After(start, events[..k]), events[k].now) ::
      HistoryPeak(events[..k], sig, BucketId(events[k].now) - 6, BucketId(events[k].now)) == 0.0
  }

  /** Number of rotations after the first `from` events. */
  ghost function RotationsSince(start: State, events: seq<Event>, from: nat): nat
    requires from <= |events|
    decreases |events|
  {
    if |events| == from then 0 else
      var front, e := events[..|events| - 1], events[|events| - 1];
      RotationsSince(start, front, from) + (if Rotates(After(start, front), e.now) then 1 else 0)
  }

  lemma NewRateWhenQuiet(level: real, sig: Signature, rates: map<Signature, real>)
    requires sig in rates ==> 0.0 < rates[sig]
    ensures NewRate(level, 0.0, sig, rates) == if sig in rates && 1.2 * rates[sig] < 1.0 then 1.2 * rates[sig] else 1.0
  {
    if sig in rates {
      Capped(1.0, rates[sig]);
    }
  }

  /** One rotation that finds nothing in the window of `sig`. */
  lemma QuietRotation(s: State, now: int, sig: Signature)
    requires Inv(s) && Rotates(s, now)
    requires PeakSeen(RingOf(s, sig), s.lastBucketId, BucketId(now)) == 0.0
    ensures var r := AfterRotation(s, now);
      if sig in s.rates && 1.2 * s.rates[sig] < 1.0
      then sig in r.seen && sig in r.rates && r.rates[sig] == 1.2 * s.rates[sig]
      else sig !in r.seen && sig !in r.rates
  {
    hide BudgetLevel, Lowest, NewRate, PeakSeen, Rotated, CountsOk;
    if s.seen != map[] && sig in s.seen {
      var tps := SeenTps(s.seen, s.lastBucketId, BucketId(now));
      var level := BudgetLevel(s.targetTps, tps);
      NewRateWhenQuiet(level, sig, s.rates);
      NewRatesHold(level, tps, s.rates);
    }
  }

  /** State of a signature `j` quiet rotations after it had rate `r0`. */
  ghost predicate RecoveredTo(s: State, sig: Signature, r0: real, j: nat) {
    if j == 0 || Climb(r0, j) < 1.0
    then sig in s.seen && sig in s.rates && s.rates[sig] == Climb(r0, j)
    else sig !in s.rates
  }

  lemma RecoveryStep(s: State, e: Event, sig: Signature, r0: real, j: nat)
    requires Inv(s) && 0.0 < r0 <= 1.0 && RecoveredTo(s, sig, r0, j)
    requires Rotates(s, e.now) ==> PeakSeen(RingOf(s, sig), s.lastBucketId, BucketId(e.now)) == 0.0
    ensures RecoveredTo(AfterCount(s, e.now, e.sig, e.weight), sig, r0, if Rotates(s, e.now) then j + 1 else j)
  {
    hide PeakSeen, AfterUpdate, CountsOk, RingOf;
    if Rotates(s, e.now) {
      QuietRotation(s, e.now, sig);
      hide AfterRotation;
    }
  }

  /**
   The whole recovery: after `j` quiet rotations the rate is the starting rate times 1.2^j as long
   as that is below 1, and from the first rotation where it is not, the signature has no rate.
   */
  lemma {:induction false} Recovery(start: State, events: seq<Event>, from: nat, sig: Signature)
    requires Fresh(start) && Weighted(events) && Timely(events)
    requires from <= |events| && sig in After(start, events[..from]).rates
    requires QuietSince(start, events, from, sig)
    ensures RecoveredTo(After(start, events), sig, After(start, events[..from]).rates[sig], RotationsSince(start, events, from))
    decreases |events|
  {
    hide RecoveredTo, Weighted, Timely, Fresh, Inv, HistoryPeak, PeakSeen, QuietSince, Aligned, AfterCount, RingOf;
    if |events| == from {
      assert events[..from] == events;
      StartsRecovered(start, events, sig);
    } else {
      var n := |events| - 1;
      var front, e := events[..n], events[n];
      assert front[..from] == events[..from];
      PrefixOk(events);
      QuietPrefix(start, events, from, sig);
      Recovery(start, front, from, sig);
      LastIsQuiet(start, events, from, sig);
      RunIsInv(start, front);
      StartRate(start, events, from, sig);
      RecoveryStep(After(start, front), e, sig, After(start, events[..from]).rates[sig], RotationsSince(start, front, from));
    }
  }

  lemma PrefixOk(events: seq<Event>)
    requires events != [] && Weighted(events) && Timely(events)
    ensures Weighted(events[..|events| - 1]) && Timely(events[..|events| - 1])
    ensures var front, e := events[..|events| - 1], events[|events| - 1];
      e.now >= 0 && (front != [] ==> e.now >= front[|front| - 1].now)
  {
  }

  lemma LastIsQuiet(start: State, events: seq<Event>, from: nat, sig: Signature)
    requires Fresh(start) && Weighted(events) && Timely(events)
    requires from < |events| && QuietSince(start, events, from, sig)
    ensures var s, e := After(start, events[..|events| - 1]), events[|events| - 1];
      Rotates(s, e.now) ==> PeakSeen(RingOf(s, sig), s.lastBucketId, BucketId(e.now)) == 0.0
  {
    hide After, PeakSeen, HistoryPeak;
    var n := |events| - 1;
    PrefixOk(events);
    if Rotates(After(start, events[..n]), events[n].now) {
      RotationReadsSixBuckets(start, events[..n], events[n].now, sig);
    }
  }

  lemma QuietPrefix(start: State, events: seq<Event>, from: nat, sig: Signature)
    requires from < |events| && QuietSince(start, events, from, sig)
    ensures QuietSince(start, events[..|events| - 1], from, sig)
  {
    hide After, HistoryPeak;
    var front := events[..|events| - 1];
    forall k | from <= k < |front| && Rotates(After(start, front[..k]), front[k].now)
      ensures HistoryPeak(front[..k], sig, BucketId(front[k].now) - 6, BucketId(front[k].now)) == 0.0
    {
      assert front[..k] == events[..k];
    }
  }

  lemma StartsRecovered(start: State, events: seq<Event>, sig: Signature)
    requires Fresh(start) && Weighted(events) && Timely(events)
    requires sig in After(start, events).rates
    ensures RecoveredTo(After(start, events), sig, After(start, events).rates[sig], 0)
  {
    RunIsAligned(start, events);
    hide CountsOk, After, Aligned;
  }

  lemma RunIsInv(start: State, events: seq<Event>)
    requires Fresh(start) && Weighted(events)
    ensures Inv(After(start, events))
  {
    InitialInv(start.extraRate, start.targetTps);
    RunKeepsInv(start, events);
  }

  lemma StartRate(start: State, events: seq<Event>, from: nat, sig: Signature)
    requires Fresh(start) && Weighted(events)
    requires from <= |events| && sig in After(start, events[..from]).rates
    ensures 0.0 < After(start, events[..from]).rates[sig] <= 1.0
  {
    InitialInv(start.extraRate, start.targetTps);
    RunKeepsInv(start, events[..from]);
    hide After;
  }
}
