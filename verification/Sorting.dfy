/** Ascending sequences: what the library sorts that the samplers call deliver. */
module Sorting {

  ghost predicate TotalOrder<T(!new)>(le: (T, T) -> bool) {
    && (forall a, b :: le(a, b) || le(b, a))
    && (forall a, b :: le(a, b) && le(b, a) ==> a == b)
    && (forall a, b, c :: le(a, b) && le(b, c) ==> le(a, c))
  }

  ghost predicate Below<T>(x: T, s: seq<T>, le: (T, T) -> bool) {
    forall i | 0 <= i < |s| :: le(x, s[i])
  }

  ghost predicate Ascending<T>(s: seq<T>, le: (T, T) -> bool) {
    s == [] || (Below(s[0], s[1..], le) && Ascending(s[1..], le))
  }

  function Insert<T>(x: T, s: seq<T>, le: (T, T) -> bool): seq<T> {
    if s == [] || le(x, s[0]) then [x] + s else [s[0]] + Insert(x, s[1..], le)
  }

  function Sort<T>(s: seq<T>, le: (T, T) -> bool): seq<T> {
    if s == [] then [] else Insert(s[0], Sort(s[1..], le), le)
  }

  lemma {:induction false} InsertBag<T>(x: T, s: seq<T>, le: (T, T) -> bool)
    ensures multiset(Insert(x, s, le)) == multiset{x} + multiset(s)
    ensures |Insert(x, s, le)| == |s| + 1
  {
    if s != [] && !le(x, s[0]) {
      InsertBag(x, s[1..], le);
      assert s == [s[0]] + s[1..];
    }
  }

  lemma {:induction false} InsertBelow<T>(y: T, x: T, s: seq<T>, le: (T, T) -> bool)
    requires le(y, x) && Below(y, s, le)
    ensures Below(y, Insert(x, s, le), le)
  {
    if s != [] && !le(x, s[0]) {
      InsertBelow(y, x, s[1..], le);
    }
  }

  lemma {:induction false} InsertAscending<T(!new)>(x: T, s: seq<T>, le: (T, T) -> bool)
    requires TotalOrder(le) && Ascending(s, le)
    ensures Ascending(Insert(x, s, le), le)
  {
    if s == [] {
    } else if le(x, s[0]) {
      assert ([x] + s)[1..] == s;
    } else {
      InsertAscending(x, s[1..], le);
      InsertBelow(s[0], x, s[1..], le);
      assert Insert(x, s, le)[1..] == Insert(x, s[1..], le);
    }
  }

  lemma {:induction false} SortSorts<T(!new)>(s: seq<T>, le: (T, T) -> bool)
    requires TotalOrder(le)
    ensures multiset(Sort(s, le)) == multiset(s) && |Sort(s, le)| == |s|
    ensures Ascending(Sort(s, le), le)
  {
    if s != [] {
      SortSorts(s[1..], le);
      InsertBag(s[0], Sort(s[1..], le), le);
      InsertAscending(s[0], Sort(s[1..], le), le);
      assert s == [s[0]] + s[1..];
    }
  }

  lemma LeastIsFirst<T(!new)>(a: seq<T>, b: seq<T>, le: (T, T) -> bool)
    requires TotalOrder(le) && Ascending(b, le) && a != [] && multiset(a) == multiset(b)
    ensures b != [] && le(b[0], a[0])
  {
    assert a[0] in multiset(b);
    var i :| 0 <= i < |b| && b[i] == a[0];
    if i > 0 {
      assert b[1..][i - 1] == a[0];
    }
  }

  /** There is only one ascending arrangement of a bag of values. */
  lemma {:induction false} AscendingUnique<T(!new)>(a: seq<T>, b: seq<T>, le: (T, T) -> bool)
    requires TotalOrder(le) && Ascending(a, le) && Ascending(b, le)
    requires multiset(a) == multiset(b)
    ensures a == b
  {
    if a == [] {
      assert |b| == |multiset(b)|;
    } else {
      LeastIsFirst(a, b, le);
      LeastIsFirst(b, a, le);
      TailBag(a, b);
      AscendingUnique(a[1..], b[1..], le);
      assert a == [a[0]] + a[1..] && b == [b[0]] + b[1..];
    }
  }

  lemma TailBag<T>(a: seq<T>, b: seq<T>)
    requires a != [] && b != [] && a[0] == b[0] && multiset(a) == multiset(b)
    ensures multiset(a[1..]) == multiset(b[1..])
  {
    assert a == [a[0]] + a[1..] && b == [b[0]] + b[1..];
    assert multiset(a[1..]) == multiset(a) - multiset{a[0]};
    assert multiset(b[1..]) == multiset(b) - multiset{b[0]};
  }
}
