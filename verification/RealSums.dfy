/** Sums of real numbers over sequences and over the values of finite maps. */
module RealSums {

  function Min(a: real, b: real): real {
    if a <= b then a else b
  }

  function Max(a: real, b: real): real {
    if a >= b then a else b
  }

  /** Two rates multiplied, behind a name so that proofs need not look inside. */
  function Product(x: real, y: real): real {
    x * y
  }

  ghost function Sum(s: seq<real>): real {
    if s == [] then 0.0 else s[0] + Sum(s[1..])
  }

  lemma SumAppend(a: seq<real>, b: seq<real>)
    ensures Sum(a + b) == Sum(a) + Sum(b)
  {
    if a == [] {
      assert a + b == b;
    } else {
      assert (a + b)[1..] == a[1..] + b;
    }
  }

  // ----- Enumerations of a finite set, as iterating over a hash map yields them -----

  ghost predicate Lists<K>(keys: seq<K>, s: set<K>) {
    && (forall k <- keys :: k in s)
    && (forall k <- s :: k in keys)
    && (forall i, j | 0 <= i < j < |keys| :: keys[i] != keys[j])
  }

  lemma {:induction false} ListingExists<K>(s: set<K>)
    ensures exists keys: seq<K> :: Lists(keys, s)
  {
    if s == {} {
      assert Lists([], s);
    } else {
      var k :| k in s;
      ListingExists(s - {k});
      var rest :| Lists(rest, s - {k});
      assert Lists([k] + rest, s);
    }
  }

  ghost function Listing<K>(s: set<K>): (keys: seq<K>)
    ensures Lists(keys, s)
  {
    ListingExists(s);
    var keys :| Lists(keys, s);
    keys
  }

  ghost function Values<K, V>(m: map<K, V>, keys: seq<K>): seq<V>
    requires forall k <- keys :: k in m
  {
    seq(|keys|, i requires 0 <= i < |keys| => m[keys[i]])
  }

  lemma ListsTail<K>(keys: seq<K>, s: set<K>)
    requires Lists(keys, s) && keys != []
    ensures keys[0] in s && Lists(keys[1..], s - {keys[0]})
  {
    var k := keys[0];
    forall x | x in s - {k} ensures x in keys[1..] {
      var i :| 0 <= i < |keys| && keys[i] == x;
      assert keys[1..][i - 1] == x;
    }
  }

  lemma EmptyListing<K>()
    ensures Lists<K>([], {})
  {
  }

  lemma ListsOnce<K>(keys: seq<K>, s: set<K>, i: nat)
    requires Lists(keys, s) && i < |keys|
    ensures keys[i] in s && forall j | 0 <= j < |keys| && j != i :: keys[j] != keys[i]
  {
  }

  lemma ListsAll<K>(keys: seq<K>, s: set<K>)
    requires Lists(keys, s)
    ensures forall j | 0 <= j < |keys| :: keys[j] in s
    ensures forall k <- s :: exists j :: 0 <= j < |keys| && keys[j] == k
  {
  }

  lemma ListsAppend<K>(keys: seq<K>, s: set<K>, k: K)
    requires Lists(keys, s) && k !in s
    ensures Lists(keys + [k], s + {k})
  {
    assert (keys + [k])[|keys|] == k;
    forall x | x in s ensures x in keys + [k] {
      assert x in keys;
    }
  }

  // ----- Sum of the values of a map -----

  ghost function Pick<K, V>(m: map<K, V>): (k: K)
    requires m != map[]
    ensures k in m
  {
    var k :| k in m;
    k
  }

  ghost function MapSum<K>(m: map<K, real>): real
    decreases |m|
  {
    if m == map[] then 0.0 else m[Pick(m)] + MapSum(m - {Pick(m)})
  }

  /** The sum does not depend on which key is taken first. */
  lemma {:induction false} MapSumRemove<K>(m: map<K, real>, k: K)
    requires k in m
    ensures MapSum(m) == m[k] + MapSum(m - {k})
    decreases |m|
  {
    var p := Pick(m);
    if p != k {
      MapSumRemove(m - {p}, k);
      MapSumRemove(m - {k}, p);
      assert (m - {p}) - {k} == (m - {k}) - {p};
    }
  }

  lemma MapSumUpdate<K>(m: map<K, real>, k: K, v: real)
    ensures MapSum(m[k := v]) == MapSum(m) - (if k in m then m[k] else 0.0) + v
  {
    MapSumRemove(m[k := v], k);
    if k in m {
      MapSumRemove(m, k);
      assert m[k := v] - {k} == m - {k};
    } else {
      assert m[k := v] - {k} == m;
    }
  }

  lemma {:induction false} MapSumMonotone<K>(a: map<K, real>, b: map<K, real>)
    requires a.Keys == b.Keys
    requires forall k <- a :: a[k] <= b[k]
    ensures MapSum(a) <= MapSum(b)
    decreases |a|
  {
    if a != map[] {
      var k := Pick(a);
      MapSumRemove(b, k);
      MapSumMonotone(a - {k}, b - {k});
    } else {
      assert b == map[];
    }
  }

  /** Of two maps of which one is nowhere larger, the sums agree only when the maps do. */
  lemma {:induction false} MapSumEqual<K>(a: map<K, real>, b: map<K, real>)
    requires a.Keys == b.Keys
    requires forall k <- a :: a[k] <= b[k]
    ensures MapSum(a) == MapSum(b) <==> forall k <- a :: a[k] == b[k]
    decreases |a|
  {
    if a == map[] {
      assert b == map[];
    } else {
      var k := Pick(a);
      MapSumRemove(b, k);
      MapSumMonotone(a - {k}, b - {k});
      MapSumEqual(a - {k}, b - {k});
      if MapSum(a) == MapSum(b) {
        forall x | x in a ensures a[x] == b[x] {
          assert x != k ==> x in a - {k};
        }
      }
    }
  }

  /** Entries that are zero may be dropped. */
  lemma {:induction false} MapSumDropZeros<K>(m: map<K, real>, kept: map<K, real>)
    requires kept.Keys <= m.Keys
    requires forall k <- m :: if k in kept then kept[k] == m[k] else m[k] == 0.0
    ensures MapSum(kept) == MapSum(m)
    decreases |m|
  {
    if m == map[] {
      assert kept == map[];
    } else {
      var k := Pick(m);
      if k in kept {
        MapSumRemove(kept, k);
        MapSumDropZeros(m - {k}, kept - {k});
      } else {
        MapSumDropZeros(m - {k}, kept);
      }
    }
  }

  lemma {:induction false} MapSumListed<K>(m: map<K, real>, keys: seq<K>)
    requires Lists(keys, m.Keys)
    ensures Sum(Values(m, keys)) == MapSum(m)
    decreases |keys|
  {
    if keys == [] {
      assert m.Keys == {};
      assert m == map[];
    } else {
      var k := keys[0];
      ListsTail(keys, m.Keys);
      assert (m - {k}).Keys == m.Keys - {k};
      MapSumListed(m - {k}, keys[1..]);
      MapSumRemove(m, k);
      assert Values(m, keys)[1..] == Values(m - {k}, keys[1..]);
    }
  }

  lemma ListsWithout<K>(keys: seq<K>, s: set<K>, i: nat)
    requires Lists(keys, s) && i < |keys|
    ensures Lists(keys[..i] + keys[i + 1..], s - {keys[i]})
  {
    var rest := keys[..i] + keys[i + 1..];
    forall x | x in s - {keys[i]} ensures x in rest {
      var j :| 0 <= j < |keys| && keys[j] == x;
      assert if j < i then rest[j] == x else rest[j - 1] == x;
    }
  }

  lemma MoveToFront<V>(x: V, rest: seq<V>, left: seq<V>, right: seq<V>)
    requires multiset(rest) == multiset(left + right)
    ensures multiset([x] + rest) == multiset(left + [x] + right)
  {
  }

  /** Whatever order the keys are listed in, the values form the same bag. */
  lemma {:induction false} ListingsAgree<K>(m: map<K, real>, s: set<K>, a: seq<K>, b: seq<K>)
    requires Lists(a, s) && Lists(b, s) && s <= m.Keys
    ensures multiset(Values(m, a)) == multiset(Values(m, b))
    decreases |a|
  {
    assert b == [] || b[0] in s;
    if a == [] {
      assert s == {};
    } else {
      var k := a[0];
      ListsTail(a, s);
      var i :| 0 <= i < |b| && b[i] == k;
      var left, right := b[..i], b[i + 1..];
      ListsWithout(b, s, i);
      ListingsAgree(m, s - {k}, a[1..], left + right);
      assert Values(m, a) == [m[k]] + Values(m, a[1..]);
      assert Values(m, b) == Values(m, left) + [m[k]] + Values(m, right);
      assert Values(m, left + right) == Values(m, left) + Values(m, right);
      MoveToFront(m[k], Values(m, a[1..]), Values(m, left), Values(m, right));
    }
  }
}
