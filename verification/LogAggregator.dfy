/**
 The log aggregator: a queue of serialized entries, drained into JSON arrays (section 5 of
 RFC 8259) under a limit on entries and a limit on framed bytes.
 */
module LogAggregator {
  import opened Common

  const MAX_BATCH_ENTRIES: nat := 1000
  const MAX_CONTENT_BYTES: nat := 5242880
  const MAX_LOG_BYTES: nat := 1048576

  datatype AggregatorError = EntryTooLarge(size: nat, max: nat) | Serialization

  // ----- Framing -----

  function TotalBytes(q: seq<Bytes>): nat {
    if q == [] then 0 else TotalBytes(q[..|q| - 1]) + |q[|q| - 1]|
  }

  /** Entries separated by commas. */
  function Joined(q: seq<Bytes>): Bytes {
    if q == [] then []
    else Joined(q[..|q| - 1]) + (if |q| == 1 then [] else [44]) + q[|q| - 1]
  }

  /** `[e1,...,ek]` */
  function Frame(q: seq<Bytes>): Bytes {
    [91] + Joined(q) + [93]
  }

  function Commas(k: nat): nat {
    if k == 0 then 0 else k - 1
  }

  lemma {:induction false} FrameSize(q: seq<Bytes>)
    ensures |Frame(q)| == TotalBytes(q) + Commas(|q|) + 2
  {
    if q != [] {
      FrameSize(q[..|q| - 1]);
    }
  }

  /** Where entry `i` starts in the frame. */
  ghost function Offset(q: seq<Bytes>, i: nat): nat
    requires i <= |q|
  {
    1 + TotalBytes(q[..i]) + i
  }

  lemma {:induction false} JoinedBytes(q: seq<Bytes>, i: nat)
    requires i < |q|
    ensures Offset(q, i) - 1 + |q[i]| <= |Joined(q)|
    ensures Joined(q)[Offset(q, i) - 1..Offset(q, i) - 1 + |q[i]|] == q[i]
    ensures i > 0 ==> Joined(q)[Offset(q, i) - 2] == 44
  {
    var n := |q| - 1;
    var front := Joined(q[..n]) + (if |q| == 1 then [] else [44]);
    FrontSize(q);
    assert Joined(q) == front + q[n];
    if i == n {
      assert (front + q[n])[|front|..|front| + |q[n]|] == q[n];
    } else {
      JoinedBytes(q[..n], i);
      assert q[..n][..i] == q[..i];
      var at := Offset(q, i) - 1;
      hide Offset, Joined;
      Within(Joined(q[..n]), Joined(q), at, at + |q[i]|);
    }
  }

  lemma FrontSize(q: seq<Bytes>)
    requires q != []
    ensures var n := |q| - 1;
      |Joined(q[..n])| + (if n == 0 then 0 else 1) == TotalBytes(q[..n]) + n
  {
    FrameSize(q[..|q| - 1]);
  }

  lemma Within(front: Bytes, data: Bytes, lo: nat, hi: nat)
    requires lo <= hi <= |front| && front <= data
    ensures data[lo..hi] == front[lo..hi]
  {
  }

  /**
   The frame byte by byte, a JSON array: an opening bracket, the entries in order with one comma
   between two of them, and a closing bracket.
   */
  lemma FrameBytes(q: seq<Bytes>, i: nat)
    requires i < |q|
    ensures var f, at := Frame(q), Offset(q, i);
      && f[0] == 91 && f[|f| - 1] == 93
      && at + |q[i]| < |f| && f[at..at + |q[i]|] == q[i]
      && (i > 0 ==> f[at - 1] == 44)
      && (i == 0 ==> at == 1)
      && (if i + 1 < |q| then Offset(q, i + 1) == at + |q[i]| + 1 else |f| == at + |q[i]| + 1)
  {
    var at := Offset(q, i);
    JoinedBytes(q, i);
    FrameSize(q);
    assert Frame(q)[at..at + |q[i]|] == Joined(q)[at - 1..at - 1 + |q[i]|];
    assert q[..i + 1][..i] == q[..i] && q[..|q|] == q;
    assert q[..0] == [];
  }

  function SaturatingSub(a: nat, b: nat): nat {
    if a >= b then a - b else 0
  }

  predicate Fits(q: seq<Bytes>) {
    |q| <= MAX_BATCH_ENTRIES && |Frame(q)| <= MAX_CONTENT_BYTES
  }

  predicate Small(q: seq<Bytes>) {
    forall i | 0 <= i < |q| :: |q[i]| <= MAX_LOG_BYTES
  }

  lemma {:induction false} TotalAppend(a: seq<Bytes>, b: seq<Bytes>)
    ensures TotalBytes(a + b) == TotalBytes(a) + TotalBytes(b)
  {
    if b == [] {
      assert a + b == a;
    } else {
      TotalAppend(a, b[..|b| - 1]);
      assert (a + b)[..|a + b| - 1] == a + b[..|b| - 1];
    }
  }

  /** A stretch of a batch that fits also fits. */
  lemma FitsStretch(q: seq<Bytes>, lo: nat, hi: nat)
    requires lo <= hi <= |q| && Fits(q)
    ensures Fits(q[lo..hi])
  {
    assert q == q[..lo] + (q[lo..hi] + q[hi..]);
    TotalAppend(q[..lo], q[lo..hi] + q[hi..]);
    TotalAppend(q[lo..hi], q[hi..]);
    FrameSize(q);
    FrameSize(q[lo..hi]);
  }

  lemma NothingFits(q: seq<Bytes>)
    ensures Fits(q[..0])
  {
    FrameSize(q[..0]);
  }

  lemma OneEntryFits(e: Bytes)
    requires |e| <= MAX_LOG_BYTES
    ensures Fits([e])
  {
    FrameSize([e]);
    assert [e][..0] == [];
  }

  // ----- The greedy split -----

  /** How many entries one batch takes, having taken `k`. */
  ghost function Taken(q: seq<Bytes>, k: nat): (n: nat)
    requires k <= |q|
    ensures k <= n <= |q|
    decreases |q| - k
  {
    if k < |q| && Fits(q[..k + 1]) then Taken(q, k + 1) else k
  }

  lemma {:induction false} TakenFits(q: seq<Bytes>, k: nat)
    requires k <= |q| && Fits(q[..k])
    ensures Fits(q[..Taken(q, k)])
    ensures Taken(q, k) < |q| ==> !Fits(q[..Taken(q, k) + 1])
    decreases |q| - k
  {
    hide Fits;
    if k < |q| && Fits(q[..k + 1]) {
      TakenFits(q, k + 1);
    }
  }

  /** Any prefix that fits is no longer than what is taken. */
  lemma TakenIsLongest(q: seq<Bytes>, n: nat)
    requires n <= |q| && Fits(q[..n])
    ensures Fits(q[..Taken(q, 0)]) && n <= Taken(q, 0)
  {
    hide Fits;
    PrefixesFit(q, n);
    TakenFits(q, 0);
  }

  lemma PrefixesFit(q: seq<Bytes>, n: nat)
    requires n <= |q| && Fits(q[..n])
    ensures forall m | 0 <= m <= n :: Fits(q[..m])
  {
    hide Fits;
    forall m | 0 <= m <= n ensures Fits(q[..m]) {
      FitsStretch(q[..n], 0, m);
      assert q[..n][0..m] == q[..m];
    }
  }

  lemma TakesOne(q: seq<Bytes>)
    requires q != [] && Small(q)
    ensures Taken(q, 0) >= 1
  {
    OneEntryFits(q[0]);
    assert q[..1] == [q[0]];
  }

  /**
   A drain stands still on an entry too large for any batch, and on nothing else: this is what the
   limit on single entries rules out.
   */
  lemma StuckOnlyByOversized(q: seq<Bytes>)
    requires q != []
    ensures Taken(q, 0) == 0 <==> |q[0]| + 2 > MAX_CONTENT_BYTES
  {
    FrameSize(q[..1]);
    assert q[..1][..0] == [];
  }

  /** The batches of a full drain. */
  ghost function Batches(q: seq<Bytes>): seq<seq<Bytes>>
    requires Small(q)
    decreases |q|
  {
    if q == [] then [] else
      TakesOne(q);
      var n := Taken(q, 0);
      [q[..n]] + Batches(q[n..])
  }

  /** A drain loses nothing, keeps the order, and respects both limits. */
  lemma {:induction false} BatchesPartition(q: seq<Bytes>)
    requires Small(q)
    ensures Flatten(Batches(q)) == q
    ensures forall i | 0 <= i < |Batches(q)| :: Batches(q)[i] != [] && Fits(Batches(q)[i])
    decreases |q|
  {
    hide Fits, Taken, Small;
    if q != [] {
      TakesOne(q);
      NothingFits(q);
      TakenIsLongest(q, 0);
      var n := Taken(q, 0);
      SmallTail(q, n);
      BatchesPartition(q[n..]);
      assert Batches(q)[1..] == Batches(q[n..]);
      assert q == q[..n] + q[n..];
    }
  }

  // ----- Greedy is optimal -----

  /** Starting further down the queue never needs more batches. */
  lemma {:induction false} FewerFromFurther(q: seq<Bytes>, i: nat, j: nat)
    requires i <= j <= |q| && Small(q)
    ensures |Batches(q[j..])| <= |Batches(q[i..])|
    decreases |q| - i
  {
    hide Fits;
    if j < |q| && i < j {
      var a, b := i + Taken(q[i..], 0), j + Taken(q[j..], 0);
      TakesOne(q[i..]);
      TakesOne(q[j..]);
      NothingFits(q[i..]);
      TakenIsLongest(q[i..], 0);
      if a > j {
        assert q[i..][..a - i] == q[i..a];
        FitsStretch(q[i..a], j - i, a - i);
        assert q[i..a][j - i..a - i] == q[j..][..a - j];
        TakenIsLongest(q[j..], a - j);
      }
      assert q[i..][a - i..] == q[a..] && q[j..][b - j..] == q[b..];
      FewerFromFurther(q, a, b);
    }
  }

  lemma {:induction false} PartsAreSmall(parts: seq<seq<Bytes>>)
    requires Small(Flatten(parts)) && parts != []
    ensures Small(Flatten(parts[1..]))
    ensures Flatten(parts)[|parts[0]|..] == Flatten(parts[1..]) && Flatten(parts)[..|parts[0]|] == parts[0]
  {
    var q := Flatten(parts);
    assert q == parts[0] + Flatten(parts[1..]);
    forall i | 0 <= i < |Flatten(parts[1..])| ensures |Flatten(parts[1..])[i]| <= MAX_LOG_BYTES {
      assert Flatten(parts[1..])[i] == q[|parts[0]| + i];
    }
  }

  /**
   No split of the queue into consecutive batches within both limits has fewer batches than the
   drain produces.
   */
  lemma {:induction false} GreedyIsOptimal(parts: seq<seq<Bytes>>)
    requires Small(Flatten(parts))
    requires forall i | 0 <= i < |parts| :: Fits(parts[i])
    ensures |Batches(Flatten(parts))| <= |parts|
  {
    var q := Flatten(parts);
    if q != [] {
      PartsAreSmall(parts);
      GreedyIsOptimal(parts[1..]);
      var k := |parts[0]|;
      TakenIsLongest(q, k);
      TakesOne(q);
      FewerFromFurther(q, k, Taken(q, 0));
    }
  }

  // ----- Fullness -----

  predicate Full(q: seq<Bytes>) {
    |q| >= MAX_BATCH_ENTRIES || TotalBytes(q) + (if q == [] then 0 else 2 + (|q| - 1)) >= MAX_CONTENT_BYTES
  }

  /** A queue is full exactly when not even an empty entry more would fit a batch with it. */
  lemma FullMeansNoRoom(q: seq<Bytes>)
    ensures Full(q) <==> !Fits(q + [[]])
  {
    FrameSize(q + [[]]);
    assert (q + [[]])[..|q|] == q;
    hide Frame;
  }

  /** A drain is a single batch exactly when the whole queue fits, and a queue that is not full fits. */
  lemma OneBatchWhenItFits(q: seq<Bytes>)
    requires Small(q) && q != []
    ensures Batches(q) == [q] <==> Fits(q)
    ensures !Full(q) ==> Fits(q)
  {
    FrameSize(q);
    if Fits(q) {
      assert q[..|q|] == q;
      TakenIsLongest(q, |q|);
      assert q[|q|..] == [];
    } else {
      BatchesPartition(q);
    }
  }

  // ----- Steps of a drain -----

  lemma StartsEmpty(q: seq<Bytes>)
    ensures Joined(q[..0]) == [] && TotalBytes(q[..0]) == 0
  {
  }

  /** The test of the drain loop is the test of the greedy split. */
  lemma TakeStep(q: seq<Bytes>, k: nat)
    requires k <= |q|
    ensures k == |q| ==> Taken(q, k) == k
    ensures k < |q| ==>
      && Joined(q[..k + 1]) == Joined(q[..k]) + (if k == 0 then [] else [44]) + q[k]
      && TotalBytes(q[..k + 1]) == TotalBytes(q[..k]) + |q[k]|
      && Taken(q, k) ==
          if k < MAX_BATCH_ENTRIES && TotalBytes(q[..k]) + Commas(k + 1) + |q[k]| + 2 <= MAX_CONTENT_BYTES
          then Taken(q, k + 1) else k
  {
    if k < |q| {
      assert q[..k + 1][..k] == q[..k];
      FrameSize(q[..k + 1]);
      hide Frame;
    }
  }

  lemma Closed(output: Bytes, q: seq<Bytes>)
    requires output == [91] + Joined(q) + [93]
    ensures output == Frame(q)
  {
  }

  lemma SmallTail(q: seq<Bytes>, k: nat)
    requires Small(q) && k <= |q|
    ensures Small(q[k..])
  {
  }

  lemma TotalTail(q: seq<Bytes>)
    requires q != []
    ensures TotalBytes(q) == |q[0]| + TotalBytes(q[1..])
  {
    TotalAppend([q[0]], q[1..]);
    assert q == [q[0]] + q[1..] && [q[0]][..0] == [];
  }

  // ----- The aggregator as it is written -----

  class Aggregator {
    var messages: seq<Bytes>
    var currentSizeBytes: nat

    ghost predicate Valid()
      reads this
    {
      currentSizeBytes == TotalBytes(messages) && Small(messages)
    }

    constructor ()
      ensures Valid() && messages == []
    {
      messages, currentSizeBytes := [], 0;
    }

    /** Takes a serialized entry, or the failure to serialize it. */
    method Insert(serialized: Option<Bytes>) returns (r: Result<bool, AggregatorError>)
      requires Valid()
      modifies this
      ensures Valid()
      ensures match serialized
        case None => r == Err(Serialization) && messages == old(messages)
        case Some(entry) =>
          if |entry| > MAX_LOG_BYTES
          then r == Err(EntryTooLarge(|entry|, MAX_LOG_BYTES)) && messages == old(messages)
          else messages == old(messages) + [entry] && r == Ok(Full(messages))
    {
      if serialized.None? {
        return Err(Serialization);
      }
      var entry := serialized.value;
      if |entry| > MAX_LOG_BYTES {
        return Err(EntryTooLarge(|entry|, MAX_LOG_BYTES));
      }
      TotalAppend(messages, [entry]);
      assert [entry][..0] == [];
      messages := messages + [entry];
      currentSizeBytes := currentSizeBytes + |entry|;
      var full := IsFull();
      return Ok(full);
    }

    method IsFull() returns (full: bool)
      requires Valid()
      ensures full == Full(messages)
    {
      var n := |messages|;
      var framing := if n == 0 then 0 else 2 + (n - 1);
      full := n >= MAX_BATCH_ENTRIES || currentSizeBytes + framing >= MAX_CONTENT_BYTES;
    }

    method GetBatch() returns (batch: Option<Bytes>)
      requires Valid()
      modifies this
      ensures Valid()
      ensures old(messages) == [] ==> batch == None && messages == []
      ensures old(messages) != [] ==>
        var n := Taken(old(messages), 0);
        n >= 1 && batch == Some(Frame(old(messages)[..n])) && messages == old(messages)[n..]
    {
      hide Fits, TotalBytes, Joined, Taken, Frame, Small;
      if messages == [] {
        return None;
      }
      var output: Bytes := [91];
      var bytesInBatch, count := 0, 0;
      ghost var q := messages;
      TakesOne(q);
      StartsEmpty(q);
      while true
        invariant count <= |q| && messages == q[count..]
        invariant count <= MAX_BATCH_ENTRIES
        invariant output == [91] + Joined(q[..count])
        invariant bytesInBatch == TotalBytes(q[..count]) + Commas(count)
        invariant currentSizeBytes == TotalBytes(messages)
        invariant Taken(q, 0) == Taken(q, count)
        decreases |messages|
      {
        TakeStep(q, count);
        if count >= MAX_BATCH_ENTRIES {
          break;
        }
        if messages == [] {
          break;
        }
        var msgLen := |messages[0]|;
        var separator := if count == 0 then 0 else 1;
        if bytesInBatch + separator + msgLen + 2 > MAX_CONTENT_BYTES {
          break;
        }
        var msg := messages[0];
        TotalTail(messages);
        messages := messages[1..];
        if count > 0 {
          output := output + [44];
          bytesInBatch := bytesInBatch + 1;
        }
        assert currentSizeBytes >= |msg|;
        currentSizeBytes := SaturatingSub(currentSizeBytes, |msg|);
        bytesInBatch := bytesInBatch + |msg|;
        count := count + 1;
        output := output + msg;
      }
      output := output + [93];
      Closed(output, q[..count]);
      SmallTail(q, count);
      return Some(output);
    }

    method GetAllBatches() returns (batches: seq<Bytes>)
      requires Valid()
      modifies this
      ensures Valid() && messages == []
      ensures batches == Framed(Batches(old(messages)))
    {
      hide Frame, Taken, Fits;
      batches := [];
      ghost var done: seq<seq<Bytes>> := [];
      ghost var q := messages;
      while true
        invariant Valid()
        invariant Batches(q) == done + Batches(messages)
        invariant batches == Framed(done)
        decreases |messages|
      {
        ghost var before := messages;
        var batch := GetBatch();
        if batch.None? {
          break;
        }
        ghost var n := Taken(before, 0);
        FramedAppend(done, before[..n]);
        done := done + [before[..n]];
        batches := batches + [batch.value];
      }
      assert done + [] == done;
    }
  }

  function Framed(parts: seq<seq<Bytes>>): seq<Bytes> {
    seq(|parts|, i requires 0 <= i < |parts| => Frame(parts[i]))
  }

  lemma FramedAppend(parts: seq<seq<Bytes>>, last: seq<Bytes>)
    ensures Framed(parts + [last]) == Framed(parts) + [Frame(last)]
  {
  }
}
