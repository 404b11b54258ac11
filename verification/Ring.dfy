/**
 The circular buffer of bucket counts: `bucket_index` and `zero_and_get_max`. Bucket `b` is
 counted in slot `b mod 6`, so a slot is shared by every sixth bucket. The Rust code names the
 constants NUM_BUCKETS = 6, BUCKET_DURATION_SECS = 5 and MAX_RATE_INCREASE = 1.2; they are
 written as literals so that divisions by them stay linear.
 */
module Ring {
  import opened RealSums

  type Ring = r: seq<real> | |r| == 6 witness [0.0, 0.0, 0.0, 0.0, 0.0, 0.0]

  const ZEROS: Ring := [0.0, 0.0, 0.0, 0.0, 0.0, 0.0]

  /** `rem_euclid`, which is Dafny's `%`. */
  function BucketIndex(bucketId: int): (i: nat)
    ensures i < 6
  {
    bucketId % 6
  }

  /** Rust's `/` on `i64` truncates toward zero. */
  function BucketId(nowUnixSecs: int): int {
    if nowUnixSecs >= 0 then nowUnixSecs / 5 else -((-nowUnixSecs) / 5)
  }

  /** A bucket is five seconds long; the one around the epoch reaches to both sides. */
  lemma BucketIsFiveSeconds(now: int, b: int)
    ensures now >= 0 ==> (BucketId(now) == b <==> 5 * b <= now < 5 * b + 5)
    ensures now < 0 ==> (BucketId(now) == b <==> 5 * b - 5 < now <= 5 * b)
  {
  }

  /** What a ring holds for bucket `b`, as long as `b` is one of its last six. */
  function Held(ring: Ring, b: int): real {
    ring[BucketIndex(b)]
  }

  /** The largest of 0 and the counts held for the buckets `lo <= b < hi`. */
  ghost function Peak(ring: Ring, lo: int, hi: int): real
    decreases hi - lo
  {
    if lo >= hi then 0.0 else Max(Peak(ring, lo, hi - 1), Held(ring, hi - 1))
  }

  /** `Peak` is the least upper bound: every count is at most the peak, and the peak is reached. */
  lemma {:induction false} PeakIsMaximum(ring: Ring, lo: int, hi: int)
    ensures Peak(ring, lo, hi) >= 0.0
    ensures forall b | lo <= b < hi :: Held(ring, b) <= Peak(ring, lo, hi)
    ensures Peak(ring, lo, hi) == 0.0 || exists b :: lo <= b < hi && Held(ring, b) == Peak(ring, lo, hi)
    decreases hi - lo
  {
    if lo < hi {
      PeakIsMaximum(ring, lo, hi - 1);
    }
  }

  /** First of the live buckets that are still inside the window of six before `newBucket`. */
  function WindowStart(previous: int, newBucket: int): int {
    if newBucket > previous then newBucket - 6 else previous - 5
  }

  /** The highest count that a rotation to `newBucket` sees. */
  ghost function PeakSeen(ring: Ring, previous: int, newBucket: int): real {
    Peak(ring, WindowStart(previous, newBucket), previous + 1)
  }

  /** The one bucket among the six up to `last` that uses slot `s`. */
  function LiveBucket(last: int, s: nat): int {
    last - (last - s) % 6
  }

  /**
   The ring after the rotation: the slot of live bucket `b` keeps its count as long as bucket
   `b + 6`, which takes the slot over, has not been reached.
   */
  function Rotated(ring: Ring, previous: int, newBucket: int): Ring {
    seq(6, s requires 0 <= s < 6 => if LiveBucket(previous, s) + 6 <= newBucket then 0.0 else ring[s])
  }

  lemma RotatedHolds(ring: Ring, previous: int, newBucket: int, b: int)
    requires previous - 5 <= b <= previous
    ensures Held(Rotated(ring, previous, newBucket), b) == if b + 6 <= newBucket then 0.0 else Held(ring, b)
  {
    assert LiveBucket(previous, BucketIndex(b)) == b;
  }

  /** Two rings that hold the same for six consecutive buckets are equal. */
  lemma SameRing(a: Ring, b: Ring, last: int)
    requires forall c | last - 5 <= c <= last :: Held(a, c) == Held(b, c)
    ensures a == b
  {
    forall s | 0 <= s < 6 ensures a[s] == b[s] {
      assert BucketIndex(LiveBucket(last, s)) == s;
      assert Held(a, LiveBucket(last, s)) == Held(b, LiveBucket(last, s));
    }
  }

  lemma RotatedIs(ring: Ring, previous: int, newBucket: int, r: Ring)
    requires forall b | previous - 5 <= b <= previous ::
      Held(r, b) == if b + 6 <= newBucket then 0.0 else Held(ring, b)
    ensures r == Rotated(ring, previous, newBucket)
  {
    forall b | previous - 5 <= b <= previous
      ensures Held(r, b) == Held(Rotated(ring, previous, newBucket), b)
    {
      RotatedHolds(ring, previous, newBucket, b);
    }
    SameRing(r, Rotated(ring, previous, newBucket), previous);
  }

  /** Clearing the slot of one live bucket leaves the other five alone. */
  lemma Cleared(ring: Ring, after: Ring, last: int, live: int)
    requires last - 5 <= live <= last
    requires after == ring[BucketIndex(live) := 0.0]
    ensures forall b | last - 5 <= b <= last :: Held(after, b) == if b == live then 0.0 else Held(ring, b)
  {
    assert forall b | last - 5 <= b <= last :: b % 6 == live % 6 <==> b == live;
  }

  /** `zero_and_get_max`: the array is passed by value, and the rotated copy is handed back. */
  method ZeroAndGetMax(ring: Ring, previousBucket: int, newBucket: int)
    returns (maxBucket: real, buckets: Ring)
    ensures maxBucket == PeakSeen(ring, previousBucket, newBucket)
    ensures buckets == Rotated(ring, previousBucket, newBucket)
  {
    buckets := ring;
    maxBucket := 0.0;
    var i := previousBucket + 1;
    ghost var start := WindowStart(previousBucket, newBucket);
    while i <= previousBucket + 6
      invariant previousBucket + 1 <= i <= previousBucket + 7
      invariant maxBucket == Peak(ring, start, i - 6)
      invariant forall b | previousBucket - 5 <= b <= previousBucket ::
        Held(buckets, b) == if b < i - 6 && b + 6 <= newBucket then 0.0 else Held(ring, b)
    {
      var index := BucketIndex(i);
      ghost var before, live := buckets, i - 6;
      assert BucketIndex(live) == index;
      if i < newBucket {
        buckets := buckets[index := 0.0];
        i := i + 1;
        Cleared(before, buckets, previousBucket, live);
        continue;
      }
      var value := buckets[index];
      assert value == Held(ring, live);
      if value > maxBucket {
        maxBucket := value;
      }
      if i == newBucket {
        buckets := buckets[index := 0.0];
        Cleared(before, buckets, previousBucket, live);
      }
      i := i + 1;
    }
    RotatedIs(ring, previousBucket, newBucket, buckets);
  }
}
