/**
 The keep decision of signature.rs: a trace id is hashed by multiplication modulo 2^64 and kept
 when the hash lies below the rate's share of the 2^64 hashes. All 64-bit values are integers
 here and the wrap-around is written out.
 */
module SampleByRate {
  import opened SamplerModel

  const MODULUS: int := 0x1_0000_0000_0000_0000

  function Hash(id: int): int {
    (id * 1111111111111111111) % 0x1_0000_0000_0000_0000
  }

  /** The rate as a number of hashes: Rust's cast truncates, and saturates below zero. */
  function Threshold(rate: real): nat {
    if rate <= 0.0 then 0 else (rate * 18446744073709551616.0).Floor
  }

  predicate SampledByRate(traceId: u64, rate: real) {
    if rate < 1.0 then Hash(traceId as int) < Threshold(rate) else true
  }

  // ----- The hash is a bijection -----

  /** Multiplication by the inverse of the hasher modulo 2^64. */
  function Unhash(h: int): int {
    (h * 3396998997810348023) % 0x1_0000_0000_0000_0000
  }

  lemma Unhashed(id: int)
    requires 0 <= id < MODULUS
    ensures Unhash(Hash(id)) == id && Hash(Unhash(id)) == id
  {
    var m := 0x1_0000_0000_0000_0000;
    var q := (id * 1111111111111111111) / m;
    assert Hash(id) == id * 1111111111111111111 - q * 0x1_0000_0000_0000_0000;
    var k := id * 204612982964281147 - q * 3396998997810348023;
    assert Hash(id) * 3396998997810348023 == id + k * 0x1_0000_0000_0000_0000;
    Reduced(id, k);
    var p := (id * 3396998997810348023) / m;
    var j := id * 204612982964281147 - p * 1111111111111111111;
    assert Unhash(id) * 1111111111111111111 == id + j * 0x1_0000_0000_0000_0000;
    Reduced(id, j);
  }

  lemma Reduced(x: int, k: int)
    requires 0 <= x < MODULUS
    ensures (x + k * 0x1_0000_0000_0000_0000) % 0x1_0000_0000_0000_0000 == x
  {
  }

  // ----- Exactly the share asked for is kept -----

  ghost function HashedBelow(t: nat): set<int> {
    set id: int | 0 <= id < MODULUS && Hash(id) < t
  }

  lemma {:induction false} HashedBelowCount(t: nat)
    requires t <= MODULUS
    ensures |HashedBelow(t)| == t
  {
    if t == 0 {
      assert HashedBelow(0) == {};
    } else {
      HashedBelowCount(t - 1);
      Unhashed(t - 1);
      var next := Unhash(t - 1);
      assert 0 <= next < MODULUS && next !in HashedBelow(t - 1);
      forall id | id in HashedBelow(t) && id !in HashedBelow(t - 1) ensures id == next {
        Unhashed(id);
      }
      assert HashedBelow(t) == HashedBelow(t - 1) + {next};
    }
  }

  ghost predicate IdKept(id: int, rate: real) {
    0 <= id < MODULUS && SampledByRate(id as u64, rate)
  }

  ghost function KeptIds(rate: real): set<int> {
    set id: int | 0 <= id < MODULUS && IdKept(id, rate)
  }

  /** How many ids a rate is meant to keep: floor(rate * 2^64) for a rate in [0, 1), and none or all outside. */
  ghost function Share(rate: real): int {
    if rate < 0.0 then 0 else if rate < 1.0 then (rate * 18446744073709551616.0).Floor else MODULUS
  }

  /** Of the 2^64 trace ids, a rate in [0, 1) keeps exactly floor(rate * 2^64); a rate of 1 or more keeps all. */
  lemma ExactShare(rate: real)
    ensures |KeptIds(rate)| == Share(rate)
  {
    if rate < 1.0 {
      assert Threshold(rate) <= MODULUS;
      assert KeptIds(rate) == HashedBelow(Threshold(rate));
      HashedBelowCount(Threshold(rate));
    } else {
      assert KeptIds(rate) == HashedBelow(MODULUS);
      HashedBelowCount(MODULUS);
    }
  }

  lemma ThresholdMonotone(p: real, q: real)
    requires p <= q
    ensures Threshold(p) <= Threshold(q)
  {
    if p > 0.0 {
      var x, y := p * 18446744073709551616.0, q * 18446744073709551616.0;
      assert x.Floor as real <= x <= y < y.Floor as real + 1.0;
    }
  }

  /** Decisions are nested: an id is kept at the lower of two rates exactly when both rates keep it. */
  lemma NestedDecisions(id: u64, p: real, q: real)
    ensures SampledByRate(id, if p <= q then p else q) <==> SampledByRate(id, p) && SampledByRate(id, q)
  {
    var lo, hi := if p <= q then p else q, if p <= q then q else p;
    ThresholdMonotone(lo, hi);
  }

  /** Two chunks of one trace are rescued together as often as the rarer of the two is. */
  lemma KeptTogether(p: real, q: real)
    requires p <= q
    ensures KeptIds(p) <= KeptIds(q)
    ensures |KeptIds(p) * KeptIds(q)| == Share(p)
  {
    forall id | id in KeptIds(p) ensures id in KeptIds(q) {
      NestedDecisions(id as u64, p, q);
    }
    assert KeptIds(p) * KeptIds(q) == KeptIds(p);
    ExactShare(p);
  }
}
