/**
 Line reassembly on a byte-mode pipe: one buffer, chunks of any size that fits its free part, and a
 packet for every read that completes at least one line.
 */
module PipeReassembly {
  import opened Common

  const NEWLINE: bv8 := 10

  /** Up to and including the last newline. */
  function CompleteSize(data: Bytes): (n: nat)
    ensures n <= |data|
  {
    if data == [] then 0
    else if data[|data| - 1] == NEWLINE then |data|
    else CompleteSize(data[..|data| - 1])
  }

  ghost predicate NoNewline(data: Bytes) {
    forall i | 0 <= i < |data| :: data[i] != NEWLINE
  }

  lemma {:induction false} CompleteIsLast(data: Bytes)
    ensures var n := CompleteSize(data);
      NoNewline(data[n..]) && (n > 0 ==> data[n - 1] == NEWLINE)
  {
    if data != [] && data[|data| - 1] != NEWLINE {
      CompleteIsLast(data[..|data| - 1]);
      var n := CompleteSize(data);
      assert data[n..] == data[..|data| - 1][n..] + [data[|data| - 1]];
    }
  }

  lemma StretchHasNone(data: Bytes, i: nat, j: nat)
    requires i <= j <= |data| && NoNewline(data[i..j])
    ensures forall k | i <= k < j :: data[k] != NEWLINE
  {
    forall k | i <= k < j ensures data[k] != NEWLINE {
      assert data[k] == data[i..j][k - i];
    }
  }

  lemma CompleteIsOnlyOne(data: Bytes, n: nat)
    requires n <= |data| && NoNewline(data[n..]) && (n > 0 ==> data[n - 1] == NEWLINE)
    ensures n == CompleteSize(data)
  {
    CompleteIsLast(data);
    var c := CompleteSize(data);
    assert data[c..] == data[c..|data|] && data[n..] == data[n..|data|];
    StretchHasNone(data, c, |data|);
    StretchHasNone(data, n, |data|);
  }

  // ----- One read -----

  /** What is kept of an unfinished line; a line that fills the buffer is given up. */
  function Rest(pending: Bytes, chunk: Bytes, bufSize: nat): Bytes {
    var data := pending + chunk;
    var rest := data[CompleteSize(data)..];
    if |rest| >= bufSize then [] else rest
  }

  function Packet(pending: Bytes, chunk: Bytes): Bytes {
    (pending + chunk)[..CompleteSize(pending + chunk)]
  }

  // ----- A stream of reads -----

  function Pending(chunks: seq<Bytes>, bufSize: nat): Bytes {
    if chunks == [] then [] else Rest(Pending(chunks[..|chunks| - 1], bufSize), chunks[|chunks| - 1], bufSize)
  }

  function Packets(chunks: seq<Bytes>, bufSize: nat): seq<Bytes> {
    if chunks == [] then [] else
      var front := Packets(chunks[..|chunks| - 1], bufSize);
      var packet := Packet(Pending(chunks[..|chunks| - 1], bufSize), chunks[|chunks| - 1]);
      if packet == [] then front else front + [packet]
  }

  /** Every read returns at least one byte, and no more than the free part of the buffer holds. */
  ghost predicate Legal(chunks: seq<Bytes>, bufSize: nat) {
    forall i | 0 <= i < |chunks| :: chunks[i] != [] && |Pending(chunks[..i], bufSize)| + |chunks[i]| <= bufSize
  }

  /** No stretch without a newline is as long as the buffer. */
  ghost predicate LinesFit(stream: Bytes, bufSize: nat) {
    forall i, j | 0 <= i <= j <= |stream| && NoNewline(stream[i..j]) :: j - i < bufSize
  }

  ghost function Emitted(chunks: seq<Bytes>, bufSize: nat): Bytes {
    Flatten(Packets(chunks, bufSize))
  }

  lemma LegalFront(chunks: seq<Bytes>, bufSize: nat)
    requires Legal(chunks, bufSize) && chunks != []
    ensures Legal(chunks[..|chunks| - 1], bufSize)
    ensures |Pending(chunks[..|chunks| - 1], bufSize)| + |chunks[|chunks| - 1]| <= bufSize
  {
    var front := chunks[..|chunks| - 1];
    forall i | 0 <= i < |front| ensures front[i] != [] && |Pending(front[..i], bufSize)| + |front[i]| <= bufSize {
      assert front[..i] == chunks[..i];
    }
  }

  lemma EmittedStep(chunks: seq<Bytes>, bufSize: nat)
    requires chunks != []
    ensures var front, last := chunks[..|chunks| - 1], chunks[|chunks| - 1];
      Emitted(chunks, bufSize) == Emitted(front, bufSize) + Packet(Pending(front, bufSize), last)
  {
    hide Packet, Pending;
    var front, last := chunks[..|chunks| - 1], chunks[|chunks| - 1];
    FlattenOne(Packets(front, bufSize), Packet(Pending(front, bufSize), last));
  }

  // ----- What the stream alone determines -----

  /** The unfinished line after a stream, byte by byte: it is given up when it fills the buffer. */
  function Kept(stream: Bytes, bufSize: nat): Bytes {
    if stream == [] then [] else
      var kept, b := Kept(stream[..|stream| - 1], bufSize), stream[|stream| - 1];
      if b == NEWLINE || |kept| + 1 >= bufSize then [] else kept + [b]
  }

  /** The bytes emitted after a stream: at each newline, what was kept of its line. */
  function Out(stream: Bytes, bufSize: nat): Bytes {
    if stream == [] then [] else
      var front, b := stream[..|stream| - 1], stream[|stream| - 1];
      if b == NEWLINE then Out(front, bufSize) + (Kept(front, bufSize) + [NEWLINE]) else Out(front, bufSize)
  }

  lemma {:induction false} KeptIsShort(stream: Bytes, bufSize: nat)
    requires bufSize > 0
    ensures |Kept(stream, bufSize)| < bufSize && NoNewline(Kept(stream, bufSize))
  {
    if stream != [] {
      KeptIsShort(stream[..|stream| - 1], bufSize);
    }
  }

  /** One read, whatever its size, does what its bytes do one by one. */
  lemma {:induction false} ReadIsItsBytes(stream: Bytes, chunk: Bytes, bufSize: nat)
    requires bufSize > 0 && |Kept(stream, bufSize)| + |chunk| <= bufSize
    ensures Kept(stream + chunk, bufSize) == Rest(Kept(stream, bufSize), chunk, bufSize)
    ensures Out(stream + chunk, bufSize) == Out(stream, bufSize) + Packet(Kept(stream, bufSize), chunk)
    decreases |chunk|
  {
    hide Kept, Out, Rest, Packet;
    var kept := Kept(stream, bufSize);
    if chunk == [] {
      KeptIsShort(stream, bufSize);
      assert stream + [] == stream;
      RestOfNothing(kept, bufSize);
    } else {
      var front, b := chunk[..|chunk| - 1], chunk[|chunk| - 1];
      ReadIsItsBytes(stream, front, bufSize);
      assert chunk == front + [b];
      OneMoreByte(stream + front, b, bufSize);
      assert stream + chunk == (stream + front) + [b];
      RestOneMore(kept, front, b, bufSize);
    }
  }

  lemma RestOfNothing(pending: Bytes, bufSize: nat)
    requires |pending| < bufSize && NoNewline(pending)
    ensures Rest(pending, [], bufSize) == pending && Packet(pending, []) == []
  {
    assert pending + [] == pending && pending[0..] == pending;
    CompleteIsOnlyOne(pending, 0);
  }

  lemma OneMoreByte(stream: Bytes, b: bv8, bufSize: nat)
    ensures var kept := Kept(stream, bufSize);
      && Kept(stream + [b], bufSize) == (if b == NEWLINE || |kept| + 1 >= bufSize then [] else kept + [b])
      && Out(stream + [b], bufSize) ==
         if b == NEWLINE then Out(stream, bufSize) + (kept + [NEWLINE]) else Out(stream, bufSize)
  {
    assert (stream + [b])[..|stream|] == stream;
  }

  lemma RestOneMore(pending: Bytes, chunk: Bytes, b: bv8, bufSize: nat)
    requires |pending| + |chunk| < bufSize
    ensures var rest := Rest(pending, chunk, bufSize);
      && Rest(pending, chunk + [b], bufSize) == (if b == NEWLINE || |rest| + 1 >= bufSize then [] else rest + [b])
      && Packet(pending, chunk + [b]) ==
         if b == NEWLINE then Packet(pending, chunk) + (rest + [NEWLINE]) else Packet(pending, chunk)
  {
    var data, n := pending + chunk, CompleteSize(pending + chunk);
    assert pending + (chunk + [b]) == data + [b];
    CompleteOneMore(data, b);
    hide CompleteSize;
    if b == NEWLINE {
      assert (data + [b])[|data| + 1..] == [];
      assert (data + [b])[..|data| + 1] == data[..n] + (data[n..] + [b]);
    } else {
      assert (data + [b])[n..] == data[n..] + [b];
      assert (data + [b])[..n] == data[..n];
    }
  }

  lemma CompleteOneMore(data: Bytes, b: bv8)
    ensures CompleteSize(data + [b]) == if b == NEWLINE then |data| + 1 else CompleteSize(data)
  {
    assert (data + [b])[..|data|] == data;
  }

  /** However a stream is cut into reads, it leaves behind and emits what its bytes do one by one. */
  lemma {:induction false} CutIsStream(chunks: seq<Bytes>, bufSize: nat)
    requires Legal(chunks, bufSize) && bufSize > 0
    ensures Pending(chunks, bufSize) == Kept(Flatten(chunks), bufSize)
    ensures Emitted(chunks, bufSize) == Out(Flatten(chunks), bufSize)
  {
    hide Legal, Kept, Out, Rest, Packet;
    if chunks == [] {
      NothingRead(bufSize);
    } else {
      var front, chunk := chunks[..|chunks| - 1], chunks[|chunks| - 1];
      LegalFront(chunks, bufSize);
      CutIsStream(front, bufSize);
      ReadIsItsBytes(Flatten(front), chunk, bufSize);
      FlattenOne(front, chunk);
      assert front + [chunk] == chunks;
      EmittedStep(chunks, bufSize);
    }
  }

  lemma NothingRead(bufSize: nat)
    ensures Kept([], bufSize) == [] && Out([], bufSize) == []
  {
  }

  /** Two cuttings of one stream, any stream, emit the same bytes and keep the same remainder. */
  lemma CuttingDoesNotMatter(a: seq<Bytes>, b: seq<Bytes>, bufSize: nat)
    requires Legal(a, bufSize) && Legal(b, bufSize) && bufSize > 0
    requires Flatten(a) == Flatten(b)
    ensures Emitted(a, bufSize) == Emitted(b, bufSize) && Pending(a, bufSize) == Pending(b, bufSize)
  {
    CutIsStream(a, bufSize);
    CutIsStream(b, bufSize);
  }

  // ----- Line by line -----

  /** The complete lines of a stream, without their newlines. */
  function Lines(stream: Bytes): seq<Bytes> {
    if stream == [] then [] else
      var front := stream[..|stream| - 1];
      if stream[|stream| - 1] == NEWLINE then Lines(front) + [Fragment(front)] else Lines(front)
  }

  /** What follows the last newline. */
  function Fragment(stream: Bytes): Bytes {
    if stream == [] || stream[|stream| - 1] == NEWLINE then []
    else Fragment(stream[..|stream| - 1]) + [stream[|stream| - 1]]
  }

  function Joined(lines: seq<Bytes>): Bytes {
    if lines == [] then [] else Joined(lines[..|lines| - 1]) + (lines[|lines| - 1] + [NEWLINE])
  }

  /** What survives of a line: every full buffer from its start is dropped. */
  function Tail(line: Bytes, bufSize: nat): Bytes
    requires bufSize > 0
    decreases |line|
  {
    if |line| < bufSize then line else Tail(line[bufSize..], bufSize)
  }

  function Tails(lines: seq<Bytes>, bufSize: nat): seq<Bytes>
    requires bufSize > 0
  {
    seq(|lines|, i requires 0 <= i < |lines| => Tail(lines[i], bufSize))
  }

  lemma JoinedOne(lines: seq<Bytes>, line: Bytes)
    ensures Joined(lines + [line]) == Joined(lines) + (line + [NEWLINE])
  {
    assert (lines + [line])[..|lines|] == lines;
  }

  /** Lines and fragment are the stream taken apart at its newlines, and nothing else. */
  lemma {:induction false} LinesAreTheStream(stream: Bytes)
    ensures Joined(Lines(stream)) + Fragment(stream) == stream
    ensures NoNewline(Fragment(stream)) && forall line <- Lines(stream) :: NoNewline(line)
  {
    hide Joined, NoNewline;
    if stream == [] {
      EmptyLine();
    } else {
      var front, b := stream[..|stream| - 1], stream[|stream| - 1];
      LinesAreTheStream(front);
      assert stream == front + [b];
      Regroup(Joined(Lines(front)), Fragment(front), [b]);
      EmptyLine();
      if b == NEWLINE {
        JoinedOne(Lines(front), Fragment(front));
      } else {
        LongerLine(Fragment(front), b);
      }
    }
  }

  lemma EmptyLine()
    ensures Joined([]) == [] && NoNewline([])
  {
  }

  lemma LongerLine(line: Bytes, b: bv8)
    requires NoNewline(line) && b != NEWLINE
    ensures NoNewline(line + [b])
  {
  }

  lemma {:induction false} TailOneMore(line: Bytes, b: bv8, bufSize: nat)
    requires bufSize > 0
    ensures var tail := Tail(line, bufSize);
      Tail(line + [b], bufSize) == if |tail| + 1 >= bufSize then [] else tail + [b]
    decreases |line|
  {
    if |line| >= bufSize {
      TailOneMore(line[bufSize..], b, bufSize);
      assert (line + [b])[bufSize..] == line[bufSize..] + [b];
    } else if |line| + 1 == bufSize {
      assert (line + [b])[bufSize..] == [];
    }
  }

  lemma {:induction false} StreamLineByLine(stream: Bytes, bufSize: nat)
    requires bufSize > 0
    ensures Kept(stream, bufSize) == Tail(Fragment(stream), bufSize)
    ensures Out(stream, bufSize) == Joined(Tails(Lines(stream), bufSize))
  {
    hide Tail;
    if stream == [] {
      ShortTail([], bufSize);
    } else {
      var front, b := stream[..|stream| - 1], stream[|stream| - 1];
      StreamLineByLine(front, bufSize);
      TailOneMore(Fragment(front), b, bufSize);
      ShortTail([], bufSize);
      if b == NEWLINE {
        var tails := Tails(Lines(front), bufSize);
        assert Tails(Lines(front) + [Fragment(front)], bufSize) == tails + [Tail(Fragment(front), bufSize)];
        JoinedOne(tails, Tail(Fragment(front), bufSize));
      }
    }
  }

  lemma ShortTail(line: Bytes, bufSize: nat)
    requires |line| < bufSize
    ensures Tail(line, bufSize) == line
  {
  }

  /**
   The whole contract of the loop: for any stream and any cutting, each line comes out whole if it is
   shorter than the buffer, and without its leading full buffers otherwise; the same of the
   unfinished line is kept.
   */
  lemma EveryLineOrItsTail(chunks: seq<Bytes>, bufSize: nat)
    requires Legal(chunks, bufSize) && bufSize > 0
    ensures Emitted(chunks, bufSize) == Joined(Tails(Lines(Flatten(chunks)), bufSize))
    ensures Pending(chunks, bufSize) == Tail(Fragment(Flatten(chunks)), bufSize)
  {
    CutIsStream(chunks, bufSize);
    StreamLineByLine(Flatten(chunks), bufSize);
  }

  /** A line of three bytes through a buffer of two: its first two are gone, its tail is emitted as a message. */
  lemma TailOfLongLineIsEmitted()
    ensures var chunks: seq<Bytes> := [[1, 2], [3, NEWLINE]];
      Legal(chunks, 2) && Packets(chunks, 2) == [[3, NEWLINE]] && Pending(chunks, 2) == []
  {
    var one, two: Bytes := [1, 2], [3, NEWLINE];
    StepOne([], one, 2);
    StepOne([one], two, 2);
    assert [] + [one] == [one] && [one] + [two] == [one, two];
    assert [] + one == one && one[0..] == one && [] + two == two && two[..2] == two;
    CompleteIsOnlyOne(one, 0);
    CompleteIsOnlyOne(two, 2);
    assert [one, two][..0] == [] && [one, two][..1] == [one];
    assert [one, two] == [[1, 2], [3, NEWLINE]];
  }

  lemma StepOne(chunks: seq<Bytes>, chunk: Bytes, bufSize: nat)
    ensures Pending(chunks + [chunk], bufSize) == Rest(Pending(chunks, bufSize), chunk, bufSize)
    ensures var packet := Packet(Pending(chunks, bufSize), chunk);
      Packets(chunks + [chunk], bufSize) == if packet == [] then Packets(chunks, bufSize) else Packets(chunks, bufSize) + [packet]
  {
    assert (chunks + [chunk])[..|chunks|] == chunks;
  }

  // ----- When nothing is lost -----

  /** The longest run of bytes without a newline that a stream ends in. */
  ghost predicate LongestEnd(stream: Bytes, end: Bytes) {
    && |end| <= |stream| && stream[|stream| - |end|..] == end && NoNewline(end)
    && forall i | 0 <= i <= |stream| && NoNewline(stream[i..]) :: |stream| - i <= |end|
  }

  lemma LongestEndStep(stream: Bytes, end: Bytes, b: bv8)
    requires LongestEnd(stream, end)
    ensures LongestEnd(stream + [b], if b == NEWLINE then [] else end + [b])
  {
    var longer := stream + [b];
    forall i | 0 <= i <= |longer| && NoNewline(longer[i..])
      ensures |longer| - i <= if b == NEWLINE then 0 else |end| + 1
    {
      if i <= |stream| {
        assert longer[i..][|stream| - i] == b;
        assert longer[i..][..|stream| - i] == stream[i..];
        NoNewlinePrefix(longer[i..], |stream| - i);
      }
    }
  }

  lemma NoNewlinePrefix(data: Bytes, n: nat)
    requires NoNewline(data) && n <= |data|
    ensures NoNewline(data[..n])
  {
  }

  lemma FitsStep(stream: Bytes, end: Bytes, b: bv8, bufSize: nat)
    requires LongestEnd(stream, end) && bufSize > 0
    ensures LinesFit(stream + [b], bufSize) <==>
      LinesFit(stream, bufSize) && (b == NEWLINE || |end| + 1 < bufSize)
  {
    var longer := stream + [b];
    LongestEndStep(stream, end, b);
    assert forall i, j | 0 <= i <= j <= |stream| :: longer[i..j] == stream[i..j];
    assert forall i | 0 <= i <= |longer| :: longer[i..|longer|] == longer[i..];
    if b != NEWLINE && |end| + 1 >= bufSize {
      assert NoNewline(longer[|stream| - |end|..|longer|]);
    }
  }

  lemma {:induction false} FitsOrLoses(stream: Bytes, bufSize: nat)
    requires bufSize > 0
    ensures LinesFit(stream, bufSize) ==>
      Out(stream, bufSize) + Kept(stream, bufSize) == stream && LongestEnd(stream, Kept(stream, bufSize))
    ensures !LinesFit(stream, bufSize) ==> |Out(stream, bufSize)| + |Kept(stream, bufSize)| < |stream|
  {
    if stream != [] {
      var front, b := stream[..|stream| - 1], stream[|stream| - 1];
      assert stream == front + [b];
      FitsOrLoses(front, bufSize);
      if LinesFit(front, bufSize) {
        FitsStep(front, Kept(front, bufSize), b, bufSize);
        LongestEndStep(front, Kept(front, bufSize), b);
      } else if LinesFit(stream, bufSize) {
        FitPrefix(front, [b], bufSize);
      }
      hide LinesFit, LongestEnd;
    }
  }

  /** Longer streams only have more long stretches. */
  lemma FitPrefix(stream: Bytes, more: Bytes, bufSize: nat)
    requires LinesFit(stream + more, bufSize)
    ensures LinesFit(stream, bufSize)
  {
    forall i, j | 0 <= i <= j <= |stream| && NoNewline(stream[i..j]) ensures j - i < bufSize {
      assert (stream + more)[i..j] == stream[i..j];
    }
  }

  lemma {:induction false} OutEndsInNewline(stream: Bytes, bufSize: nat)
    ensures Out(stream, bufSize) == [] || EndsInNewline(Out(stream, bufSize))
  {
    if stream != [] {
      OutEndsInNewline(stream[..|stream| - 1], bufSize);
    }
  }

  /** Either nothing was lost and all lines fit, or some line did not fit and bytes are missing. */
  lemma KeptOrTooLong(chunks: seq<Bytes>, bufSize: nat)
    requires Legal(chunks, bufSize) && bufSize > 0
    ensures var stream, pending := Flatten(chunks), Pending(chunks, bufSize);
      && |pending| < bufSize
      && if LinesFit(stream, bufSize)
         then pending == stream[CompleteSize(stream)..] && Emitted(chunks, bufSize) == stream[..CompleteSize(stream)]
         else |Emitted(chunks, bufSize)| + |pending| < |stream|
  {
    hide Legal, LinesFit, Flatten, Emitted, Pending, Kept, Out;
    var stream := Flatten(chunks);
    CutIsStream(chunks, bufSize);
    KeptIsShort(stream, bufSize);
    FitsOrLoses(stream, bufSize);
    if LinesFit(stream, bufSize) {
      var n := |Out(stream, bufSize)|;
      assert stream[n..] == Kept(stream, bufSize) && stream[..n] == Out(stream, bufSize);
      OutEndsInNewline(stream, bufSize);
      CompleteIsOnlyOne(stream, n);
    }
  }

  /**
   Nothing is lost exactly when every stretch without a newline is shorter than the buffer, however
   the stream is cut into chunks.
   */
  lemma ConservedExactlyWhenLinesFit(chunks: seq<Bytes>, bufSize: nat)
    requires Legal(chunks, bufSize) && bufSize > 0
    ensures Emitted(chunks, bufSize) + Pending(chunks, bufSize) == Flatten(chunks) <==> LinesFit(Flatten(chunks), bufSize)
  {
    hide LinesFit, Legal, Pending, Emitted, Flatten, Out, Kept;
    CutIsStream(chunks, bufSize);
    FitsOrLoses(Flatten(chunks), bufSize);
    assert |Emitted(chunks, bufSize) + Pending(chunks, bufSize)| == |Emitted(chunks, bufSize)| + |Pending(chunks, bufSize)|;
  }

  // ----- Packets -----

  ghost predicate EndsInNewline(p: Bytes) {
    p != [] && p[|p| - 1] == NEWLINE
  }

  lemma PacketEndsInNewline(pending: Bytes, chunk: Bytes)
    ensures Packet(pending, chunk) == [] || EndsInNewline(Packet(pending, chunk))
  {
    CompleteIsLast(pending + chunk);
  }

  /** Every packet is a run of complete lines. */
  lemma {:induction false} PacketsEndInNewline(chunks: seq<Bytes>, bufSize: nat)
    ensures forall p <- Packets(chunks, bufSize) :: EndsInNewline(p)
  {
    if chunks != [] {
      var front, last := chunks[..|chunks| - 1], chunks[|chunks| - 1];
      PacketsEndInNewline(front, bufSize);
      PacketEndsInNewline(Pending(front, bufSize), last);
      hide EndsInNewline, Packet, Pending;
    }
  }

  // ----- The client loop as it is written -----

  datatype SendResult = Sent | Full | Closed

  class PipeClient {
    const buf: array<bv8>
    var startWriteIndex: nat
    var dropped: nat

    ghost predicate Valid()
      reads this
    {
      startWriteIndex < buf.Length
    }

    ghost function Held(): Bytes
      reads this, buf
      requires Valid()
    {
      buf[..startWriteIndex]
    }

    constructor (bufSize: nat)
      requires bufSize > 0
      ensures Valid() && fresh(buf) && buf.Length == bufSize && Held() == [] && dropped == 0
    {
      buf := new bv8[bufSize];
      startWriteIndex, dropped := 0, 0;
    }

    /** The read itself: fills the free part from its start. */
    method Fill(chunk: Bytes)
      requires Valid() && startWriteIndex + |chunk| <= buf.Length
      modifies buf
      ensures buf[..startWriteIndex + |chunk|] == old(Held()) + chunk
    {
      ghost var held := buf[..startWriteIndex];
      for i := 0 to |chunk|
        invariant buf[..startWriteIndex + i] == held + chunk[..i]
      {
        buf[startWriteIndex + i] := chunk[i];
        assert buf[..startWriteIndex + i + 1] == buf[..startWriteIndex + i] + [chunk[i]];
      }
    }

    /** `rposition` of the newline, plus one. */
    method FindComplete(end: nat) returns (size: nat)
      requires end <= buf.Length
      ensures size == CompleteSize(buf[..end])
    {
      size := end;
      while size > 0 && buf[size - 1] != NEWLINE
        invariant 0 <= size <= end
        invariant CompleteSize(buf[..end]) == CompleteSize(buf[..size])
      {
        assert buf[..size][..size - 1] == buf[..size - 1];
        size := size - 1;
      }
    }

    /** `copy_within(from..to, 0)` */
    method CopyToFront(from: nat, to: nat)
      requires from <= to <= buf.Length
      modifies buf
      ensures buf[..to - from] == old(buf[from..to])
    {
      for i := 0 to to - from
        invariant buf[..i] == old(buf[from..from + i])
        invariant buf[i..] == old(buf[i..])
      {
        ghost var rest := buf[i..];
        assert buf[from + i] == rest[from] == old(buf[i..])[from];
        buf[i] := buf[from + i];
        assert buf[..i + 1] == buf[..i] + [buf[i]];
        assert old(buf[from..from + i + 1]) == old(buf[from..from + i]) + [old(buf[from + i])];
        assert buf[i + 1..] == rest[1..];
      }
    }

    /** One round of the loop. `alive` is false when the queue is closed and the client stops. */
    method OnRead(chunk: Bytes, result: SendResult) returns (packet: Bytes, alive: bool)
      requires Valid() && chunk != [] && startWriteIndex + |chunk| <= buf.Length
      modifies this, buf
      ensures Valid()
      ensures packet == Packet(old(Held()), chunk)
      ensures alive <==> packet == [] || !result.Closed?
      ensures alive ==> Held() == Rest(old(Held()), chunk, buf.Length)
      ensures dropped == old(dropped) + (if packet != [] && result.Full? then 1 else 0)
    {
      ghost var data := Held() + chunk;
      var endIndex := startWriteIndex + |chunk|;
      Fill(chunk);
      var completeMessageSize := FindComplete(endIndex);
      packet := [];
      if completeMessageSize > 0 {
        packet := buf[..completeMessageSize];
        match result {
          case Full => dropped := dropped + 1;
          case Closed => return packet, false;
          case Sent =>
        }
      }
      assert packet == data[..completeMessageSize];
      startWriteIndex := endIndex - completeMessageSize;
      assert buf[completeMessageSize..endIndex] == data[completeMessageSize..];
      if startWriteIndex >= buf.Length {
        startWriteIndex := 0;
      } else if startWriteIndex > 0 {
        CopyToFront(completeMessageSize, endIndex);
      }
      alive := true;
    }
  }

  /**
   The client's loop over what its reads return, and what the queue answers: it stops early only when
   the queue is closed. `handed` lists the packets offered to the queue.
   */
  method Serve(client: PipeClient, chunks: seq<Bytes>, results: seq<SendResult>)
    returns (handed: seq<Bytes>, rounds: nat, alive: bool)
    requires client.Valid() && client.Held() == [] && Legal(chunks, client.buf.Length) && |results| == |chunks|
    modifies client, client.buf
    ensures client.Valid() && rounds <= |chunks|
    ensures handed == Packets(chunks[..rounds], client.buf.Length)
    ensures alive ==> rounds == |chunks| && client.Held() == Pending(chunks, client.buf.Length)
    ensures !alive ==> 0 < rounds && results[rounds - 1].Closed?
  {
    hide Packet, Rest, CompleteSize;
    handed, rounds, alive := [], 0, true;
    while rounds < |chunks|
      invariant rounds <= |chunks| && alive && client.Valid()
      invariant client.Held() == Pending(chunks[..rounds], client.buf.Length)
      invariant handed == Packets(chunks[..rounds], client.buf.Length)
    {
      ghost var held := client.Held();
      assert chunks[..rounds + 1][..rounds] == chunks[..rounds];
      var packet;
      packet, alive := client.OnRead(chunks[rounds], results[rounds]);
      rounds := rounds + 1;
      if packet != [] {
        handed := handed + [packet];
      }
      if !alive {
        return;
      }
    }
    assert chunks[..|chunks|] == chunks;
  }
}
