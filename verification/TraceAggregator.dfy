/** The trace aggregator's batches, and the flush that drains them. */
module TraceAggregator {
  import opened Common

  /** A queued payload: what is sent, and the size recorded for it. */
  datatype SendData<+P> = SendData(payload: P, size: nat)

  ghost function Total<P>(q: seq<SendData<P>>): nat {
    if q == [] then 0 else Total(q[..|q| - 1]) + q[|q| - 1].size
  }

  /** How many payloads a batch takes, having taken `k` of total `size`. */
  ghost function Taken<P>(q: seq<SendData<P>>, limit: nat, k: nat, size: nat): (n: nat)
    requires k <= |q|
    ensures k <= n <= |q|
    decreases |q| - k
  {
    if size >= limit || k == |q| then k
    else if size + q[k].size > limit then (if k == 0 then 1 else k)
    else Taken(q, limit, k + 1, size + q[k].size)
  }

  lemma TotalStep<P>(q: seq<SendData<P>>, k: nat)
    requires k < |q|
    ensures Total(q[..k + 1]) == Total(q[..k]) + q[k].size
  {
    assert q[..k + 1][..k] == q[..k];
  }

  /** Within the limit, or a single payload that is larger by itself. */
  ghost predicate GoodBatch<P>(batch: seq<SendData<P>>, limit: nat) {
    batch != [] && (Total(batch) <= limit || |batch| == 1)
  }

  lemma {:induction false} TakenIsGood<P>(q: seq<SendData<P>>, limit: nat, k: nat)
    requires k <= |q| && Total(q[..k]) <= limit && limit > 0 && q != []
    ensures var n := Taken(q, limit, k, Total(q[..k]));
      && (k > 0 || n > 0)
      && (n > 0 ==> GoodBatch(q[..n], limit))
      && (n < |q| ==> Total(q[..n]) >= limit || Total(q[..n + 1]) > limit)
    decreases |q| - k
  {
    if k < |q| && Total(q[..k]) < limit {
      TotalStep(q, k);
      if Total(q[..k + 1]) <= limit {
        TakenIsGood(q, limit, k + 1);
      }
    }
  }

  /** Every batch a flush sends. With a limit of zero nothing is ever taken. */
  ghost function Batches<P>(q: seq<SendData<P>>, limit: nat): seq<seq<SendData<P>>>
    decreases |q|
  {
    if q == [] || limit == 0 then [] else
      assert q[..0] == [];
      TakenIsGood(q, limit, 0);
      var n := Taken(q, limit, 0, 0);
      [q[..n]] + Batches(q[n..], limit)
  }

  /** The first batch is full, or has no room for the first payload of the next one. */
  ghost predicate Full<P>(batch: seq<SendData<P>>, next: seq<SendData<P>>, limit: nat) {
    Total(batch) >= limit || (next != [] && Total(batch) + next[0].size > limit)
  }

  /** No batch stops short of what it could hold. */
  lemma {:induction false} BatchesAreFull<P>(q: seq<SendData<P>>, limit: nat)
    ensures forall i | 0 < i < |Batches(q, limit)| :: Full(Batches(q, limit)[i - 1], Batches(q, limit)[i], limit)
    decreases |q|
  {
    hide Total, Taken, Full;
    if q != [] && limit > 0 {
      BatchStep(q, limit);
      var n := Taken(q, limit, 0, 0);
      BatchesAreFull(q[n..], limit);
      if n < |q| {
        FirstIsFull(q, limit);
      }
    }
  }

  lemma FirstIsFull<P>(q: seq<SendData<P>>, limit: nat)
    requires limit > 0 && Taken(q, limit, 0, 0) < |q|
    ensures var n := Taken(q, limit, 0, 0);
      n > 0 && Batches(q[n..], limit) != [] && Full(q[..n], Batches(q[n..], limit)[0], limit)
  {
    assert q[..0] == [];
    TakenIsGood(q, limit, 0);
    var n := Taken(q, limit, 0, 0);
    TotalStep(q, n);
    BatchStep(q[n..], limit);
    hide Total, Taken;
  }

  /** A flush sends everything in order, in batches within the limit or with a single payload. */
  lemma {:induction false} BatchesPartition<P>(q: seq<SendData<P>>, limit: nat)
    ensures limit > 0 ==> Flatten(Batches(q, limit)) == q
    ensures forall i | 0 <= i < |Batches(q, limit)| :: GoodBatch(Batches(q, limit)[i], limit)
    decreases |q|
  {
    if q != [] && limit > 0 {
      assert q[..0] == [];
      TakenIsGood(q, limit, 0);
      var n := Taken(q, limit, 0, 0);
      BatchesPartition(q[n..], limit);
      assert Batches(q, limit)[1..] == Batches(q[n..], limit);
      assert q == q[..n] + q[n..];
    }
  }

  class TraceAggregator<P(0)> {
    var queue: seq<SendData<P>>
    const maxContentSizeBytes: nat
    var buffer: seq<SendData<P>>

    constructor (maxContentSizeBytes: nat)
      ensures queue == [] && buffer == [] && this.maxContentSizeBytes == maxContentSizeBytes
    {
      queue, buffer := [], [];
      this.maxContentSizeBytes := maxContentSizeBytes;
    }

    method Add(p: SendData<P>)
      modifies this
      ensures queue == old(queue) + [p] && buffer == old(buffer)
    {
      queue := queue + [p];
    }

    method GetBatch() returns (batch: seq<SendData<P>>)
      requires buffer == []
      modifies this
      ensures buffer == []
      ensures var n := Taken(old(queue), maxContentSizeBytes, 0, 0);
        batch == old(queue)[..n] && queue == old(queue)[n..]
    {
      var batchSize: nat := 0;
      ghost var q := queue;
      while batchSize < maxContentSizeBytes
        invariant |buffer| <= |q| && buffer == q[..|buffer|] && queue == q[|buffer|..]
        invariant Taken(q, maxContentSizeBytes, 0, 0) == Taken(q, maxContentSizeBytes, |buffer|, batchSize)
        decreases |queue|
      {
        if queue == [] {
          break;
        }
        var payload := queue[0];
        queue := queue[1..];
        var payloadSize := payload.size;
        if batchSize + payloadSize > maxContentSizeBytes {
          if buffer == [] {
            buffer := buffer + [payload];
          } else {
            queue := [payload] + queue;
          }
          batch := buffer;
          buffer := [];
          return;
        }
        batchSize := batchSize + payloadSize;
        buffer := buffer + [payload];
      }
      batch := buffer;
      buffer := [];
    }
  }

  /**
   `flush`, holding the lock: draws batches until one comes out empty. The result lists what was
   handed to `send`.
   */
  method Flush<P(0)>(aggregator: TraceAggregator<P>) returns (sent: seq<seq<SendData<P>>>)
    requires aggregator.buffer == []
    modifies aggregator
    ensures aggregator.buffer == []
    ensures sent == Batches(old(aggregator.queue), aggregator.maxContentSizeBytes)
    ensures aggregator.queue == if aggregator.maxContentSizeBytes > 0 then [] else old(aggregator.queue)
  {
    sent := [];
    ghost var start, limit := aggregator.queue, aggregator.maxContentSizeBytes;
    BatchStep(aggregator.queue, limit);
    var traces := aggregator.GetBatch();
    while traces != []
      invariant aggregator.buffer == []
      invariant limit == 0 ==> traces == [] && aggregator.queue == start
      invariant limit > 0 ==> (traces == [] ==> aggregator.queue == [])
      invariant Batches(start, limit) ==
        sent + (if traces == [] then [] else [traces] + Batches(aggregator.queue, limit))
      decreases |aggregator.queue|, |traces|
    {
      assert sent + ([traces] + Batches(aggregator.queue, limit)) == (sent + [traces]) + Batches(aggregator.queue, limit);
      sent := sent + [traces];
      BatchStep(aggregator.queue, limit);
      traces := aggregator.GetBatch();
    }
  }

  lemma BatchStep<P>(q: seq<SendData<P>>, limit: nat)
    ensures var n := Taken(q, limit, 0, 0);
      && (limit == 0 || q == [] ==> n == 0 && Batches(q, limit) == [])
      && (limit > 0 && q != [] ==> n > 0 && Batches(q, limit) == [q[..n]] + Batches(q[n..], limit))
  {
    if limit > 0 && q != [] {
      assert q[..0] == [];
      TakenIsGood(q, limit, 0);
    }
  }

  /** A flush leaves the queue empty exactly when the limit is positive or there was nothing to send. */
  lemma FlushEmptiesQueue<P>(q: seq<SendData<P>>, limit: nat)
    ensures Flatten(Batches(q, limit)) == q <==> limit > 0 || q == []
  {
    BatchesPartition(q, limit);
  }
}
