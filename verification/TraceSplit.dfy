/**
 Splitting oversized trace payloads by chunk, before they are queued. The encoded size of a payload
 is whatever the encoder says: a parameter.
 */
module TraceSplit {
  import opened Common

  /** 3.2 MB, and the allowance for the outer envelope. */
  const MAX_CONTENT_SIZE_BYTES: nat := 3355443
  const V07_ENVELOPE_OVERHEAD_BYTES: nat := 64

  /** A payload: its chunks, and every other field. */
  datatype Payload<+F, +C> = Payload(fields: F, chunks: seq<C>)

  function Split<F, C>(tp: Payload<F, C>, maxSize: nat, encodedLen: Payload<F, C> -> nat): seq<Payload<F, C>>
    decreases |tp.chunks|
  {
    if encodedLen(tp) <= maxSize then [tp]
    else if |tp.chunks| > 1 then
      var mid := |tp.chunks| / 2;
      Split(tp.(chunks := tp.chunks[..mid]), maxSize, encodedLen) + Split(tp.(chunks := tp.chunks[mid..]), maxSize, encodedLen)
    else [tp]
  }

  function SplitAll<F, C>(payloads: seq<Payload<F, C>>, maxSize: nat, encodedLen: Payload<F, C> -> nat): seq<Payload<F, C>> {
    if payloads == [] then [] else Split(payloads[0], maxSize, encodedLen) + SplitAll(payloads[1..], maxSize, encodedLen)
  }

  /** All chunks of a list of payloads, each with the other fields of the payload it travels in. */
  ghost function Carried<F, C>(payloads: seq<Payload<F, C>>): seq<(F, C)> {
    if payloads == [] then [] else Tagged(payloads[0]) + Carried(payloads[1..])
  }

  ghost function Tagged<F, C>(tp: Payload<F, C>): seq<(F, C)> {
    seq(|tp.chunks|, i requires 0 <= i < |tp.chunks| => (tp.fields, tp.chunks[i]))
  }

  lemma {:induction false} CarriedAppend<F, C>(a: seq<Payload<F, C>>, b: seq<Payload<F, C>>)
    ensures Carried(a + b) == Carried(a) + Carried(b)
  {
    hide Tagged;
    if a == [] {
      assert a + b == b;
    } else {
      CarriedAppend(a[1..], b);
      assert (a + b)[1..] == a[1..] + b;
      Regroup(Tagged(a[0]), Carried(a[1..]), Carried(b));
    }
  }

  /** Fits the budget, or cannot be cut any further. */
  ghost predicate Sendable<F, C>(tp: Payload<F, C>, maxSize: nat, encodedLen: Payload<F, C> -> nat) {
    encodedLen(tp) <= maxSize || |tp.chunks| <= 1
  }

  lemma {:induction false} SplitCarries<F, C>(tp: Payload<F, C>, maxSize: nat, encodedLen: Payload<F, C> -> nat)
    ensures Carried(Split(tp, maxSize, encodedLen)) == Tagged(tp)
    decreases |tp.chunks|
  {
    if encodedLen(tp) > maxSize && |tp.chunks| > 1 {
      var mid := |tp.chunks| / 2;
      var first, second := tp.(chunks := tp.chunks[..mid]), tp.(chunks := tp.chunks[mid..]);
      SplitCarries(first, maxSize, encodedLen);
      SplitCarries(second, maxSize, encodedLen);
      CarriedAppend(Split(first, maxSize, encodedLen), Split(second, maxSize, encodedLen));
      assert Tagged(tp) == Tagged(first) + Tagged(second);
    } else {
      assert Carried([tp]) == Tagged(tp) + [];
    }
  }

  /** Each piece is sendable, keeps the other fields, and is non-empty unless there was nothing to split. */
  ghost predicate GoodPiece<F, C>(piece: Payload<F, C>, tp: Payload<F, C>, maxSize: nat, encodedLen: Payload<F, C> -> nat) {
    Sendable(piece, maxSize, encodedLen) && piece.fields == tp.fields && (tp.chunks != [] ==> piece.chunks != [])
  }

  lemma {:induction false} SplitPieces<F, C>(tp: Payload<F, C>, maxSize: nat, encodedLen: Payload<F, C> -> nat)
    ensures forall piece <- Split(tp, maxSize, encodedLen) :: GoodPiece(piece, tp, maxSize, encodedLen)
    ensures Split(tp, maxSize, encodedLen) == [tp] <==> Sendable(tp, maxSize, encodedLen)
    decreases |tp.chunks|
  {
    if encodedLen(tp) > maxSize && |tp.chunks| > 1 {
      var mid := |tp.chunks| / 2;
      var first, second := tp.(chunks := tp.chunks[..mid]), tp.(chunks := tp.chunks[mid..]);
      SplitPieces(first, maxSize, encodedLen);
      SplitPieces(second, maxSize, encodedLen);
      forall piece | piece in Split(tp, maxSize, encodedLen) ensures GoodPiece(piece, tp, maxSize, encodedLen) {
        assert GoodPiece(piece, first, maxSize, encodedLen) || GoodPiece(piece, second, maxSize, encodedLen);
      }
      assert tp !in Split(tp, maxSize, encodedLen);
    }
  }

  /**
   Splitting keeps every chunk in place, with the fields it came with, and leaves nothing that both
   exceeds the budget and could still be cut.
   */
  lemma {:induction false} SplitKeepsChunks<F, C>(payloads: seq<Payload<F, C>>, maxSize: nat, encodedLen: Payload<F, C> -> nat)
    ensures var pieces := SplitAll(payloads, maxSize, encodedLen);
      && Carried(pieces) == Carried(payloads)
      && (forall piece <- pieces :: Sendable(piece, maxSize, encodedLen))
  {
    if payloads != [] {
      SplitKeepsChunks(payloads[1..], maxSize, encodedLen);
      SplitPieces(payloads[0], maxSize, encodedLen);
      SplitCarries(payloads[0], maxSize, encodedLen);
      CarriedAppend(Split(payloads[0], maxSize, encodedLen), SplitAll(payloads[1..], maxSize, encodedLen));
    }
  }

  /** Splitting what is already split changes nothing. */
  lemma {:induction false} SplitTwice<F, C>(payloads: seq<Payload<F, C>>, maxSize: nat, encodedLen: Payload<F, C> -> nat)
    requires forall i | 0 <= i < |payloads| :: Sendable(payloads[i], maxSize, encodedLen)
    ensures SplitAll(payloads, maxSize, encodedLen) == payloads
  {
    if payloads != [] {
      SplitTwice(payloads[1..], maxSize, encodedLen);
      SplitPieces(payloads[0], maxSize, encodedLen);
    }
  }

  /** The pieces as they are queued, with the size recorded for each. */
  function Pieces<F, C>(payloads: seq<Payload<F, C>>, encodedLen: Payload<F, C> -> nat): seq<(Payload<F, C>, nat)> {
    var split := SplitAll(payloads, MAX_CONTENT_SIZE_BYTES - V07_ENVELOPE_OVERHEAD_BYTES, encodedLen);
    seq(|split|, i requires 0 <= i < |split| => (split[i], encodedLen(split[i]) + V07_ENVELOPE_OVERHEAD_BYTES))
  }

  /** What a piece takes on the wire: its encoding and the allowance for the envelope. */
  ghost function WireSize<F, C>(piece: Payload<F, C>, encodedLen: Payload<F, C> -> nat): nat {
    encodedLen(piece) + 64
  }

  /** The recorded size is the real one, and within the limit unless the piece cannot be cut. */
  lemma RecordedSizes<F, C>(payloads: seq<Payload<F, C>>, encodedLen: Payload<F, C> -> nat)
    ensures forall i | 0 <= i < |Pieces(payloads, encodedLen)| :: var (piece, size) := Pieces(payloads, encodedLen)[i];
      size == WireSize(piece, encodedLen) && (WireSize(piece, encodedLen) <= MAX_CONTENT_SIZE_BYTES || |piece.chunks| <= 1)
  {
    SplitKeepsChunks(payloads, MAX_CONTENT_SIZE_BYTES - V07_ENVELOPE_OVERHEAD_BYTES, encodedLen);
    forall i | 0 <= i < |Pieces(payloads, encodedLen)|
      ensures var (piece, size) := Pieces(payloads, encodedLen)[i];
        size == WireSize(piece, encodedLen) && (WireSize(piece, encodedLen) <= MAX_CONTENT_SIZE_BYTES || |piece.chunks| <= 1)
    {
      var split := SplitAll(payloads, MAX_CONTENT_SIZE_BYTES - V07_ENVELOPE_OVERHEAD_BYTES, encodedLen);
      assert Sendable(split[i], MAX_CONTENT_SIZE_BYTES - V07_ENVELOPE_OVERHEAD_BYTES, encodedLen);
    }
  }

  // ----- No cut without need -----

  /** The piece is one half of a stretch of chunks that was too large. */
  ghost predicate HalfOfOversized<F, C>(piece: Payload<F, C>, tp: Payload<F, C>, maxSize: nat, encodedLen: Payload<F, C> -> nat, lo: nat, hi: nat) {
    && lo + 1 < hi <= |tp.chunks|
    && encodedLen(tp.(chunks := tp.chunks[lo..hi])) > maxSize
    && piece.fields == tp.fields
    && var mid := lo + (hi - lo) / 2; piece.chunks == tp.chunks[lo..mid] || piece.chunks == tp.chunks[mid..hi]
  }

  /** Every piece but an uncut payload is one half of a stretch that did not fit. */
  lemma {:induction false} NoNeedlessCut<F, C>(tp: Payload<F, C>, maxSize: nat, encodedLen: Payload<F, C> -> nat)
    ensures forall piece <- Split(tp, maxSize, encodedLen) ::
      piece == tp || exists lo, hi :: HalfOfOversized(piece, tp, maxSize, encodedLen, lo, hi)
    decreases |tp.chunks|
  {
    if encodedLen(tp) > maxSize && |tp.chunks| > 1 {
      var n := |tp.chunks|;
      var mid := n / 2;
      var first, second := tp.(chunks := tp.chunks[..mid]), tp.(chunks := tp.chunks[mid..]);
      NoNeedlessCut(first, maxSize, encodedLen);
      NoNeedlessCut(second, maxSize, encodedLen);
      assert tp.chunks[0..n] == tp.chunks && tp.(chunks := tp.chunks) == tp;
      assert HalfOfOversized(first, tp, maxSize, encodedLen, 0, n) by {
        assert first.chunks == tp.chunks[0..mid];
      }
      assert HalfOfOversized(second, tp, maxSize, encodedLen, 0, n) by {
        assert second.chunks == tp.chunks[mid..n];
      }
      forall piece | piece in Split(tp, maxSize, encodedLen)
        ensures piece == tp || exists lo, hi :: HalfOfOversized(piece, tp, maxSize, encodedLen, lo, hi)
      {
        if piece != first && piece != second {
          if piece in Split(first, maxSize, encodedLen) {
            var lo, hi :| HalfOfOversized(piece, first, maxSize, encodedLen, lo, hi);
            HalfOfStretch(piece, tp, maxSize, encodedLen, 0, mid, lo, hi);
          } else {
            var lo, hi :| HalfOfOversized(piece, second, maxSize, encodedLen, lo, hi);
            HalfOfStretch(piece, tp, maxSize, encodedLen, mid, n, lo, hi);
          }
        }
      }
    }
  }

  lemma HalfOfStretch<F, C>(piece: Payload<F, C>, tp: Payload<F, C>, maxSize: nat, encodedLen: Payload<F, C> -> nat,
                            from: nat, to: nat, lo: nat, hi: nat)
    requires from <= to <= |tp.chunks|
    requires HalfOfOversized(piece, tp.(chunks := tp.chunks[from..to]), maxSize, encodedLen, lo, hi)
    ensures HalfOfOversized(piece, tp, maxSize, encodedLen, from + lo, from + hi)
  {
    var part, mid := tp.chunks[from..to], lo + (hi - lo) / 2;
    assert part[lo..hi] == tp.chunks[from + lo..from + hi];
    assert part[lo..mid] == tp.chunks[from + lo..from + mid];
    assert part[mid..hi] == tp.chunks[from + mid..from + hi];
    assert tp.(chunks := part).(chunks := part[lo..hi]) == tp.(chunks := part[lo..hi]);
  }
}
