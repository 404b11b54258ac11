/**
 Trace signatures (signature.rs): FNV-1a hashes of the spans, sorted, with equal neighbours
 skipped, and merged by exclusive or.
 */
module Signatures {
  import opened Common
  import opened Sorting
  import opened SamplerModel

  datatype SpanView = SpanView(
    service: Bytes,
    name: Bytes,
    resource: Bytes,
    error: bool,
    httpStatusCode: Option<Bytes>,
    errorType: Option<Bytes>)

  const OFFSET32: bv32 := 2_166_136_261

  function TimesPrime(x: bv32): bv32 {
    x * 16_777_619
  }

  function WriteChar(hash: bv32, c: bv8): bv32 {
    TimesPrime(hash ^ (c as bv32))
  }

  function Written(hash: bv32, data: Bytes): bv32 {
    if data == [] then hash else WriteChar(Written(hash, data[..|data| - 1]), data[|data| - 1])
  }

  /** The accumulator, updated byte by byte. */
  class Fnv1a32 {
    var hash: bv32

    constructor ()
      ensures hash == OFFSET32
    {
      hash := OFFSET32;
    }

    method Write(data: Bytes)
      modifies this
      ensures hash == Written(old(hash), data)
    {
      for i := 0 to |data|
        invariant hash == Written(old(hash), data[..i])
      {
        assert data[..i + 1][..i] == data[..i];
        hash := WriteChar(hash, data[i]);
      }
      assert data[..|data|] == data;
    }
  }

  function OrEmpty(field: Option<Bytes>): Bytes {
    if field.Some? then field.value else []
  }

  /** All the bytes that identify a span, in the order they are hashed. */
  function Identity(span: SpanView, env: Bytes, withResource: bool): Bytes {
    env + span.service + span.name + [if span.error then 1 else 0]
    + (if withResource then span.resource else []) + OrEmpty(span.httpStatusCode) + OrEmpty(span.errorType)
  }

  function SpanHash(span: SpanView, env: Bytes, withResource: bool): bv32 {
    Written(OFFSET32, Identity(span, env, withResource))
  }

  lemma {:induction false} WrittenTwice(hash: bv32, a: Bytes, b: Bytes)
    ensures Written(Written(hash, a), b) == Written(hash, a + b)
  {
    if b == [] {
      assert a + b == a;
    } else {
      var n := |b| - 1;
      WrittenTwice(hash, a, b[..n]);
      assert (a + b)[..|a + b| - 1] == a + b[..n];
    }
  }

  // ----- The hash, checked from outside -----

  /** The reference values of the 32-bit FNV-1a hash for "a" and "is". */
  lemma KnownHashes()
    ensures Written(OFFSET32, []) == 0x811c_9dc5
    ensures Written(OFFSET32, [97]) == 0xe40c_292c
    ensures Written(OFFSET32, [105, 115]) == 0x4e38_8f15
  {
    assert [97][..0] == [] && [105, 115][..1] == [105] && [105][..0] == [];
  }

  /** 899433627 is the inverse of the prime modulo 2^32. */
  lemma PrimeInverse(x: bv32)
    ensures (x * 16_777_619) * 899_433_627 == x
  {
  }

  ghost function UndoPrime(x: bv32): bv32 {
    x * 899_433_627
  }

  lemma PrimeUndone(x: bv32)
    ensures UndoPrime(x * 16_777_619) == x
  {
    PrimeInverse(x);
  }

  /** Multiplying by the prime modulo 2^32 loses nothing. */
  lemma TimesPrimeUndone(x: bv32)
    ensures UndoPrime(TimesPrime(x)) == x
  {
    hide UndoPrime;
    PrimeUndone(x);
  }

  lemma TimesPrimeInjective(x: bv32, y: bv32)
    ensures x != y ==> TimesPrime(x) != TimesPrime(y)
  {
    hide UndoPrime, TimesPrime;
    TimesPrimeUndone(x);
    TimesPrimeUndone(y);
  }

  lemma XorKeepsApart(g: bv32, h: bv32, c: bv8, d: bv8)
    ensures c == d && g != h ==> g ^ (c as bv32) != h ^ (d as bv32)
    ensures c != d && g == h ==> g ^ (c as bv32) != h ^ (d as bv32)
  {
  }

  /** One byte never merges two states, and different bytes never lead to the same state. */
  lemma WriteCharInjective(g: bv32, h: bv32, c: bv8, d: bv8)
    ensures c == d && g != h ==> WriteChar(g, c) != WriteChar(h, d)
    ensures c != d && g == h ==> WriteChar(g, c) != WriteChar(h, d)
  {
    hide TimesPrime;
    XorKeepsApart(g, h, c, d);
    TimesPrimeInjective(g ^ (c as bv32), h ^ (d as bv32));
  }

  lemma {:induction false} WrittenInjective(g: bv32, h: bv32, data: Bytes)
    requires g != h
    ensures Written(g, data) != Written(h, data)
  {
    if data != [] {
      var n := |data| - 1;
      WrittenInjective(g, h, data[..n]);
      WriteCharInjective(Written(g, data[..n]), Written(h, data[..n]), data[n], data[n]);
    }
  }

  /** Where each field lies in the bytes that are hashed. */
  lemma IdentityLayout(span: SpanView, env: Bytes, withResource: bool)
    ensures var data, resource := Identity(span, env, withResource), if withResource then |span.resource| else 0;
      var a := |env|;
      var b := a + |span.service|;
      var c := b + |span.name|;
      var d := c + 1 + resource;
      var e := d + |OrEmpty(span.httpStatusCode)|;
      && |data| == e + |OrEmpty(span.errorType)|
      && data[..a] == env && data[a..b] == span.service && data[b..c] == span.name
      && data[c] == (if span.error then 1 else 0)
      && (withResource ==> data[c + 1..d] == span.resource)
      && (span.httpStatusCode.Some? ==> data[d..e] == span.httpStatusCode.value)
      && (span.errorType.Some? ==> data[e..] == span.errorType.value)
  {
  }

  /** Spans that differ in the error flag alone never have the same hash. */
  lemma ErrorChangesHash(span: SpanView, env: Bytes, withResource: bool)
    ensures SpanHash(span.(error := true), env, withResource) != SpanHash(span.(error := false), env, withResource)
  {
    hide Written;
    var before := env + span.service + span.name;
    var after := (if withResource then span.resource else []) + OrEmpty(span.httpStatusCode) + OrEmpty(span.errorType);
    assert Identity(span.(error := true), env, withResource) == (before + [1]) + after;
    assert Identity(span.(error := false), env, withResource) == (before + [0]) + after;
    OneByteChangesHash(OFFSET32, before, 1, 0, after);
  }

  lemma OneByteChangesHash(hash: bv32, before: Bytes, c: bv8, d: bv8, after: Bytes)
    requires c != d
    ensures Written(hash, (before + [c]) + after) != Written(hash, (before + [d]) + after)
  {
    hide Written, WriteChar;
    WrittenTwice(hash, before + [c], after);
    WrittenTwice(hash, before + [d], after);
    WrittenOne(hash, before, c);
    WrittenOne(hash, before, d);
    var h := Written(hash, before);
    WriteCharInjective(h, h, c, d);
    WrittenInjective(WriteChar(h, c), WriteChar(h, d), after);
  }

  lemma WrittenOne(hash: bv32, data: Bytes, c: bv8)
    ensures Written(hash, data + [c]) == WriteChar(Written(hash, data), c)
  {
    assert (data + [c])[..|data|] == data;
  }

  /** `compute_span_hash`, field by field. */
  method ComputeSpanHash(span: SpanView, env: Bytes, withResource: bool) returns (hash: bv32)
    ensures hash == SpanHash(span, env, withResource)
  {
    var h := new Fnv1a32();
    ghost var written: Bytes := [];
    h.Write(env);
    h.Write(span.service);
    WrittenTwice(OFFSET32, env, span.service);
    written := env + span.service;
    h.Write(span.name);
    WrittenTwice(OFFSET32, written, span.name);
    written := written + span.name;
    var error: Bytes := [if span.error then 1 else 0];
    h.Write(error);
    WrittenTwice(OFFSET32, written, error);
    written := written + error;
    ghost var resource := if withResource then span.resource else [];
    if withResource {
      h.Write(span.resource);
    }
    WrittenTwice(OFFSET32, written, resource);
    written := written + resource;
    if span.httpStatusCode.Some? {
      h.Write(span.httpStatusCode.value);
    }
    WrittenTwice(OFFSET32, written, OrEmpty(span.httpStatusCode));
    written := written + OrEmpty(span.httpStatusCode);
    if span.errorType.Some? {
      h.Write(span.errorType.value);
    }
    WrittenTwice(OFFSET32, written, OrEmpty(span.errorType));
    hash := h.hash;
  }

  // ----- Exclusive or over a set -----

  function Xor(a: bv32, b: bv32): bv32 {
    a ^ b
  }

  lemma XorSwap(a: bv32, b: bv32, c: bv32)
    ensures Xor(a, Xor(b, c)) == Xor(b, Xor(a, c))
  {
  }

  lemma XorZero(a: bv32, b: bv32)
    ensures Xor(a, 0) == a && Xor(a, b) == Xor(b, a)
  {
  }

  ghost function XorSet(s: set<bv32>): bv32 {
    if s == {} then 0 else
      var x := Any(s);
      Xor(x, XorSet(s - {x}))
  }

  ghost function Any<T>(s: set<T>): (x: T)
    requires s != {}
    ensures x in s
  {
    var x :| x in s;
    x
  }

  lemma {:induction false} XorSetRemove(s: set<bv32>, x: bv32)
    requires x in s
    ensures XorSet(s) == Xor(x, XorSet(s - {x}))
  {
    hide Xor;
    var y := Any(s);
    if y != x {
      XorSetRemove(s - {y}, x);
      XorSetRemove(s - {x}, y);
      assert (s - {y}) - {x} == (s - {x}) - {y};
      XorSwap(x, y, XorSet((s - {x}) - {y}));
    }
  }

  ghost function SpanHashes(spans: seq<SpanView>, env: Bytes): set<bv32> {
    set span <- spans :: SpanHash(span, env, false)
  }

  function Widened(hash: bv32): Signature {
    hash as Signature
  }

  /** The signature as a fold over the set of span hashes. */
  ghost function TraceSignature(spans: seq<SpanView>, rootIndex: nat, env: Bytes): Signature
    requires rootIndex < |spans|
  {
    Widened(Xor(SpanHash(spans[rootIndex], env, true), XorSet(SpanHashes(spans, env))))
  }

  // ----- The order of the sort -----

  /** Hashes are ordered by their unsigned value. */
  predicate HashLe(a: bv32, b: bv32) {
    a as int <= b as int
  }

  const HASH_ORDER: (bv32, bv32) -> bool := (a, b) => HashLe(a, b)

  lemma HashLeAntisymmetric(a: bv32, b: bv32)
    requires a as int == b as int
    ensures a == b
  {
    assert (a as int) as bv32 == a && (b as int) as bv32 == b;
  }

  lemma HashLeLaws(a: bv32, b: bv32, c: bv32)
    ensures HashLe(a, b) || HashLe(b, a)
    ensures HashLe(a, b) && HashLe(b, a) ==> a == b
    ensures HashLe(a, b) && HashLe(b, c) ==> HashLe(a, c)
  {
    if a as int == b as int {
      HashLeAntisymmetric(a, b);
    }
  }

  lemma HashOrderIsTotal()
    ensures TotalOrder(HASH_ORDER)
  {
    hide HashLe;
    forall a: bv32, b: bv32, c: bv32
      ensures HASH_ORDER(a, b) || HASH_ORDER(b, a)
      ensures HASH_ORDER(a, b) && HASH_ORDER(b, a) ==> a == b
      ensures HASH_ORDER(a, b) && HASH_ORDER(b, c) ==> HASH_ORDER(a, c)
    {
      HashLeLaws(a, b, c);
    }
  }

  lemma BelowAll(s: seq<bv32>, k: nat)
    requires Ascending(s, HASH_ORDER) && k < |s|
    ensures s[0] == s[k] || HashLe(s[0], s[k])
  {
    hide HashLe;
    if k > 0 {
      assert HASH_ORDER(s[0], s[1..][k - 1]);
    }
  }

  lemma {:induction false} NotBefore(s: seq<bv32>, i: nat)
    requires Ascending(s, HASH_ORDER) && 0 < i < |s| && s[i] != s[i - 1]
    ensures s[i] !in s[..i]
  {
    hide HashLe;
    if i > 1 {
      NotBefore(s[1..], i - 1);
      assert s[1..][i - 1] == s[i] && s[1..][i - 2] == s[i - 1];
      BelowAll(s, i - 1);
      AscendingFrom(s, i - 1);
      BelowAll(s[i - 1..], 1);
      HashLeLaws(s[0], s[i - 1], s[i]);
      HashLeLaws(s[i - 1], s[0], s[i]);
      assert s[..i] == [s[0]] + s[1..][..i - 1];
    }
  }

  lemma {:induction false} AscendingFrom(s: seq<bv32>, k: nat)
    requires Ascending(s, HASH_ORDER) && k <= |s|
    ensures Ascending(s[k..], HASH_ORDER)
  {
    if k == 0 {
      assert s[0..] == s;
    } else {
      AscendingFrom(s[1..], k - 1);
      assert s[1..][k - 1..] == s[k..];
    }
  }

  /** The loop of the signature: merge sorted hashes, skipping equal neighbours. */
  method MergeSorted(sorted: seq<bv32>, rootHash: bv32) returns (traceHash: bv32)
    requires sorted != [] && Ascending(sorted, HASH_ORDER)
    ensures traceHash == Xor(rootHash, XorSet(set h <- sorted))
  {
    hide Xor, HashLe, Ascending;
    var last := sorted[0];
    traceHash := Xor(last, rootHash);
    ghost var merged := {last};
    XorSetRemove(merged, last);
    assert merged - {last} == {};
    XorZero(last, rootHash);
    for i := 1 to |sorted|
      invariant last == sorted[i - 1]
      invariant merged == set h <- sorted[..i]
      invariant traceHash == Xor(rootHash, XorSet(merged))
    {
      var hash := sorted[i];
      assert sorted[..i + 1] == sorted[..i] + [hash];
      if hash != last {
        NotBefore(sorted, i);
        last := hash;
        XorSetRemove(merged + {hash}, hash);
        assert merged + {hash} - {hash} == merged;
        XorSwap(hash, rootHash, XorSet(merged));
        XorZero(traceHash, hash);
        traceHash := Xor(traceHash, hash);
        merged := merged + {hash};
      } else {
        assert sorted[i - 1] in sorted[..i];
      }
    }
    assert sorted[..|sorted|] == sorted;
  }

  /** `compute_signature_with_root_and_env`. */
  method ComputeSignature(spans: seq<SpanView>, rootIndex: nat, env: Bytes) returns (signature: Signature)
    requires rootIndex < |spans|
    ensures signature == TraceSignature(spans, rootIndex, env)
  {
    var rootHash := ComputeSpanHash(spans[rootIndex], env, true);
    var spanHashes: seq<bv32> := [];
    for i := 0 to |spans|
      invariant |spanHashes| == i
      invariant forall k | 0 <= k < i :: spanHashes[k] == SpanHash(spans[k], env, false)
    {
      var h := ComputeSpanHash(spans[i], env, false);
      spanHashes := spanHashes + [h];
    }
    var sorted := Sort(spanHashes, HASH_ORDER);
    HashOrderIsTotal();
    SortSorts(spanHashes, HASH_ORDER);
    var traceHash := MergeSorted(sorted, rootHash);
    SameElements(sorted, spanHashes);
    HashesAreListed(spans, env, spanHashes);
    signature := Widened(traceHash);
  }

  lemma SameElements(a: seq<bv32>, b: seq<bv32>)
    requires multiset(a) == multiset(b)
    ensures (set h <- a) == (set h <- b)
  {
    forall h ensures h in a <==> h in b {
      assert h in a <==> h in multiset(a);
      assert h in b <==> h in multiset(b);
    }
  }

  lemma HashesAreListed(spans: seq<SpanView>, env: Bytes, hashes: seq<bv32>)
    requires |hashes| == |spans|
    requires forall k | 0 <= k < |spans| :: hashes[k] == SpanHash(spans[k], env, false)
    ensures (set h <- hashes) == SpanHashes(spans, env)
  {
    hide SpanHash;
    forall h | h in hashes ensures h in SpanHashes(spans, env) {
      var k :| 0 <= k < |hashes| && hashes[k] == h;
      assert spans[k] in spans;
    }
    forall h | h in SpanHashes(spans, env) ensures h in hashes {
      var span :| span in spans && SpanHash(span, env, false) == h;
      var k :| 0 <= k < |spans| && spans[k] == span;
      assert hashes[k] == h;
    }
  }

  /** Reordering or repeating spans leaves the signature alone, as long as the root is the same span. */
  lemma SignatureIgnoresOrderAndRepeats(a: seq<SpanView>, i: nat, b: seq<SpanView>, j: nat, env: Bytes)
    requires i < |a| && j < |b| && a[i] == b[j]
    requires forall span :: span in a <==> span in b
    ensures TraceSignature(a, i, env) == TraceSignature(b, j, env)
  {
    hide SpanHash, XorSet;
    forall h | h in SpanHashes(a, env) ensures h in SpanHashes(b, env) {
      var span :| span in a && SpanHash(span, env, false) == h;
      assert span in b;
    }
    forall h | h in SpanHashes(b, env) ensures h in SpanHashes(a, env) {
      var span :| span in b && SpanHash(span, env, false) == h;
      assert span in a;
    }
    assert SpanHashes(a, env) == SpanHashes(b, env);
  }

  /** Merging a hash twice takes it out again: this is what tells exclusive or from any other merge. */
  lemma XorCancels(a: bv32, b: bv32)
    ensures Xor(a, a) == 0 && Xor(a, Xor(a, b)) == b
  {
  }

  lemma XorApart(a: bv32, b: bv32, c: bv32)
    requires a != b
    ensures Xor(a, c) != Xor(b, c)
  {
    XorCancels(c, a);
    XorCancels(c, b);
    XorZero(a, c);
    XorZero(b, c);
    hide Xor;
  }

  lemma WidenedApart(a: bv32, b: bv32)
    requires a != b
    ensures Widened(a) != Widened(b)
  {
    if a as int == b as int {
      HashLeAntisymmetric(a, b);
    }
  }

  /** The resource of the root is part of the signature: one byte of it changed changes the signature. */
  lemma RootResourceMatters(spans: seq<SpanView>, rootIndex: nat, env: Bytes, k: nat, c: bv8)
    requires rootIndex < |spans| && k < |spans[rootIndex].resource| && c != spans[rootIndex].resource[k]
    ensures var root := spans[rootIndex];
      var changed := spans[rootIndex := root.(resource := root.resource[k := c])];
      TraceSignature(changed, rootIndex, env) != TraceSignature(spans, rootIndex, env)
  {
    var root := spans[rootIndex];
    var other := root.(resource := root.resource[k := c]);
    var changed := spans[rootIndex := other];
    ResourceChangesHash(root, env, k, c);
    SameSpanHashes(spans, rootIndex, other, env);
    hide SpanHash, Xor, Widened, XorSet;
    XorApart(SpanHash(root, env, true), SpanHash(other, env, true), XorSet(SpanHashes(spans, env)));
    WidenedApart(Xor(SpanHash(root, env, true), XorSet(SpanHashes(spans, env))), Xor(SpanHash(other, env, true), XorSet(SpanHashes(spans, env))));
  }

  lemma ResourceChangesHash(root: SpanView, env: Bytes, k: nat, c: bv8)
    requires k < |root.resource| && c != root.resource[k]
    ensures SpanHash(root.(resource := root.resource[k := c]), env, true) != SpanHash(root, env, true)
  {
    hide Written, OrEmpty;
    var changed := root.resource[k := c];
    var front := env + root.service + root.name + [if root.error then 1 else 0];
    var code, kind := OrEmpty(root.httpStatusCode), OrEmpty(root.errorType);
    Around(front, root.resource, k, code, kind);
    Around(front, changed, k, code, kind);
    assert changed[..k] == root.resource[..k] && changed[k + 1..] == root.resource[k + 1..];
    OneByteChangesHash(OFFSET32, front + root.resource[..k], c, root.resource[k], root.resource[k + 1..] + code + kind);
  }

  lemma Around(front: Bytes, data: Bytes, k: nat, code: Bytes, kind: Bytes)
    requires k < |data|
    ensures front + data + code + kind == ((front + data[..k]) + [data[k]]) + (data[k + 1..] + code + kind)
  {
    assert data == data[..k] + ([data[k]] + data[k + 1..]);
  }

  /** Outside the root hash the resource plays no part. */
  lemma SameSpanHashes(spans: seq<SpanView>, i: nat, other: SpanView, env: Bytes)
    requires i < |spans| && other == spans[i].(resource := other.resource)
    ensures SpanHashes(spans[i := other], env) == SpanHashes(spans, env)
  {
    hide SpanHash;
    var hashes := seq(|spans|, k requires 0 <= k < |spans| => SpanHash(spans[k], env, false));
    HashesAreListed(spans, env, hashes);
    SameHash(spans[i], other, env);
    HashesAreListed(spans[i := other], env, hashes);
  }

  lemma SameHash(a: SpanView, b: SpanView, env: Bytes)
    requires b == a.(resource := b.resource)
    ensures SpanHash(a, env, false) == SpanHash(b, env, false)
  {
    hide Written;
    assert Identity(a, env, false) == Identity(b, env, false);
  }
}
