/**
 The uniform split of the sampling budget: `compute_tps_per_sig`. Traffic below the level is
 sampled in full, and what it leaves of the budget raises the level for the others.
 */
module WaterFilling {
  import opened RealSums
  import opened Sorting

  const ORDER: (real, real) -> bool := (a, b) => a <= b

  lemma OrderIsTotal()
    ensures TotalOrder(ORDER)
  {
  }

  function Sorted(s: seq<real>): (r: seq<real>)
    ensures multiset(r) == multiset(s) && |r| == |s| && Ascending(r, ORDER)
  {
    OrderIsTotal();
    SortSorts(s, ORDER);
    Sort(s, ORDER)
  }

  /** The level reached when an ascending list of demands is served lowest first. */
  ghost function Level(target: real, ascending: seq<real>): real
    requires ascending != []
    decreases |ascending|
  {
    var share := target / |ascending| as real;
    if ascending[0] >= share || |ascending| == 1 then share
    else Level(target - ascending[0], ascending[1..])
  }

  /** What is sampled in total when every demand is cut at level `r`. */
  ghost function Used(demands: seq<real>, r: real): real {
    if demands == [] then 0.0 else Min(demands[0], r) + Used(demands[1..], r)
  }

  lemma ShareStep(target: real, n: real, c: real)
    requires n > 1.0 && c < target / n
    ensures (target - c) / (n - 1.0) > target / n
  {
    var r := target / n;
    assert target == r * n;
    assert (target - c) > r * (n - 1.0);
    MulDiv(target - c, r, n - 1.0);
  }

  lemma MulDiv(a: real, r: real, d: real)
    requires d > 0.0 && a > r * d
    ensures a / d > r
  {
    var q := a / d;
    assert q * d == a;
    assert (q - r) * d > 0.0;
  }

  /** The level never falls below the plain uniform share. */
  lemma {:induction false} LevelAtLeastShare(target: real, s: seq<real>)
    requires s != []
    ensures Level(target, s) >= target / |s| as real
    decreases |s|
  {
    if s[0] < target / |s| as real && |s| > 1 {
      ShareStep(target, |s| as real, s[0]);
      LevelAtLeastShare(target - s[0], s[1..]);
    }
  }

  lemma {:induction false} UsedAbove(s: seq<real>, r: real)
    requires forall i | 0 <= i < |s| :: s[i] >= r
    ensures Used(s, r) == r * |s| as real
  {
    if s != [] {
      UsedAbove(s[1..], r);
    }
  }

  lemma {:induction false} SumAbove(s: seq<real>, r: real)
    requires forall i | 0 <= i < |s| :: s[i] >= r
    ensures Sum(s) >= r * |s| as real
  {
    if s != [] {
      SumAbove(s[1..], r);
    }
  }

  lemma {:induction false} LevelFillsAscending(target: real, s: seq<real>)
    requires s != [] && Ascending(s, ORDER)
    ensures Used(s, Level(target, s)) == Min(target, Sum(s))
    decreases |s|
  {
    var share := target / |s| as real;
    assert share * |s| as real == target;
    if s[0] >= share {
      forall i | 0 < i < |s| ensures s[0] <= s[i] {
        assert ORDER(s[0], s[1..][i - 1]);
      }
      UsedAbove(s, share);
      SumAbove(s, share);
    } else if |s| == 1 {
      assert s[1..] == [];
    } else {
      ShareStep(target, |s| as real, s[0]);
      LevelAtLeastShare(target - s[0], s[1..]);
      LevelFillsAscending(target - s[0], s[1..]);
    }
  }

  lemma UsedAppend(a: seq<real>, b: seq<real>, r: real)
    ensures Used(a + b, r) == Used(a, r) + Used(b, r)
  {
    if a == [] {
      assert a + b == b;
    } else {
      assert (a + b)[1..] == a[1..] + b;
    }
  }

  lemma {:induction false} SameBag(a: seq<real>, b: seq<real>, r: real)
    requires multiset(a) == multiset(b)
    ensures Used(a, r) == Used(b, r) && Sum(a) == Sum(b)
  {
    assert |a| == |multiset(a)| == |multiset(b)| == |b|;
    if a != [] {
      assert a[0] in multiset(b);
      var i :| 0 <= i < |b| && b[i] == a[0];
      var left, right := b[..i], b[i + 1..];
      assert a == [a[0]] + a[1..];
      assert b == left + ([b[i]] + right);
      assert multiset(left + right) == multiset(b) - multiset{b[i]};
      SameBag(a[1..], left + right, r);
      UsedAppend(left, [b[i]] + right, r);
      UsedAppend(left, right, r);
      SumAppend(left, [b[i]] + right);
      SumAppend(left, right);
      assert ([b[i]] + right)[1..] == right;
    }
  }

  /** The split meets the budget exactly, or samples everything when the budget is larger. */
  lemma LevelFills(target: real, demands: seq<real>)
    requires demands != []
    ensures Used(demands, Level(target, Sorted(demands))) == Min(target, Sum(demands))
  {
    var s := Sorted(demands);
    LevelFillsAscending(target, s);
    SameBag(s, demands, Level(target, s));
  }

  /** The order in which the demands are listed does not matter. */
  lemma LevelIgnoresOrder(target: real, a: seq<real>, b: seq<real>)
    requires a != [] && multiset(a) == multiset(b)
    ensures |a| == |b| && Level(target, Sorted(a)) == Level(target, Sorted(b))
  {
    assert |a| == |multiset(a)| == |multiset(b)| == |b|;
    OrderIsTotal();
    AscendingUnique(Sorted(a), Sorted(b), ORDER);
  }

  lemma {:induction false} UsedMonotone(s: seq<real>, lo: real, hi: real)
    requires lo <= hi
    ensures Used(s, lo) <= Used(s, hi)
    ensures lo < hi && Used(s, lo) == Used(s, hi) ==> forall i | 0 <= i < |s| :: s[i] <= lo
  {
    if s != [] {
      UsedMonotone(s[1..], lo, hi);
    }
  }

  lemma {:induction false} UsedAll(s: seq<real>, r: real)
    requires forall i | 0 <= i < |s| :: s[i] <= r
    ensures Used(s, r) == Sum(s)
  {
    if s != [] {
      UsedAll(s[1..], r);
    }
  }

  /** When the budget is scarce, the level is the only one that spends exactly the budget. */
  lemma LevelIsTheOnlyOne(target: real, demands: seq<real>, r: real)
    requires demands != [] && target < Sum(demands)
    ensures Used(demands, r) == target <==> r == Level(target, Sorted(demands))
  {
    var level := Level(target, Sorted(demands));
    LevelFills(target, demands);
    if Used(demands, r) == target && r != level {
      var lo, hi := Min(r, level), Max(r, level);
      UsedMonotone(demands, lo, hi);
      UsedAll(demands, lo);
    }
  }

  /**
   `compute_tps_per_sig`: walk up the sorted demands while they stay below the running share,
   taking each of them out of the budget.
   */
  method ComputeTpsPerSig(targetTps: real, seen: seq<real>) returns (sigTarget: real)
    requires seen != []
    ensures sigTarget == Level(targetTps, Sorted(seen))
    ensures Used(seen, sigTarget) == Min(targetTps, Sum(seen))
    ensures sigTarget >= targetTps / |seen| as real
  {
    hide Sum, Used, Sorted;
    var sorted := Sorted(seen);
    var target := targetTps;
    sigTarget := target / |sorted| as real;
    var i := 0;
    while i < |sorted|
      invariant 0 <= i < |sorted|
      invariant sigTarget == target / (|sorted| - i) as real
      invariant Level(targetTps, sorted) == Level(target, sorted[i..])
    {
      var c := sorted[i];
      if c >= sigTarget || i == |sorted| - 1 {
        break;
      }
      target := target - c;
      sigTarget := target / (|sorted| - i - 1) as real;
      assert sorted[i..][1..] == sorted[i + 1..];
      i := i + 1;
    }
    LevelFills(targetTps, seen);
    LevelAtLeastShare(targetTps, sorted);
  }
}
