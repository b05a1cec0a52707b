/**
 The download progress that the client keeps: its bitfield, the number of completed pieces and the
 number of completed bytes, from start-up over each completed piece.
 */
module ClientProgress {
  import opened Bitfields

  lemma {:induction false} CountAfterSet(bf: Bitfield, p: nat, n: nat)
    requires p < 8 * |bf| && n <= 8 * |bf| && !HasBit(bf, p)
    ensures Count(SetBit(bf, p), n) == Count(bf, n) + if p < n then 1 else 0
  {
    hide HasBit, SetBit;
    if n > 0 {
      CountAfterSet(bf, p, n - 1);
      SetBitEffect(bf, p, n - 1);
    }
  }

  lemma {:induction false} BytesAfterSet(m: Media, bf: Bitfield, p: nat, n: nat)
    requires m.Valid() && n <= m.NumberOfPieces() <= 8 * |bf|
    requires p < m.NumberOfPieces() && !HasBit(bf, p)
    ensures BytesOwned(m, SetBit(bf, p), n) == BytesOwned(m, bf, n) + if p < n then m.LengthOf(p) else 0
  {
    hide HasBit, SetBit, Media.NumberOfPieces, Media.LengthOf, Media.Valid;
    if n > 0 {
      BytesAfterSet(m, bf, p, n - 1);
      SetBitEffect(bf, p, n - 1);
    }
  }

  /** `padded` is `bf` with every bit from n on set as well. */
  ghost predicate PaddedFrom(bf: Bitfield, padded: Bitfield, n: nat) {
    && |padded| == |bf|
    && forall q: nat :: q < 8 * |bf| ==> (HasBit(padded, q) <==> q >= n || HasBit(bf, q))
  }

  lemma PaddedFromStep(bf: Bitfield, padded: Bitfield, n: nat)
    requires n < 8 * |bf| && PaddedFrom(bf, padded, n + 1)
    ensures PaddedFrom(bf, SetBit(padded, n), n)
  {
    hide HasBit, SetBit;
    forall q: nat | q < 8 * |bf| ensures HasBit(SetBit(padded, n), q) <==> q >= n || HasBit(bf, q) {
      SetBitEffect(padded, n, q);
    }
  }

  lemma {:induction false} PaddedCount(bf: Bitfield, padded: Bitfield, n: nat, upTo: nat)
    requires n <= 8 * |bf| && upTo <= 8 * |bf| && PaddedFrom(bf, padded, n)
    ensures Count(padded, upTo) == if upTo <= n then Count(bf, upTo) else Count(bf, n) + (upTo - n)
  {
    hide HasBit;
    if upTo > 0 {
      PaddedCount(bf, padded, n, upTo - 1);
    }
  }

  lemma LastBytePosition(size: nat, i: nat)
    requires size > 0 && i < 8
    ensures ByteOf(8 * size - 1 - i) == size - 1 && PositionOf(8 * size - 1 - i) == 7 - i
  {
  }

  lemma ShiftSetsBit(bf: Bitfield, i: nat)
    requires |bf| > 0 && i < 8
    ensures bf[|bf| - 1 := bf[|bf| - 1] | ((1 as bv8) << i)] == SetBit(bf, 8 * |bf| - 1 - i)
  {
    LastBytePosition(|bf|, i);
    ShiftedOne(i);
    hide Mask, ByteOf, PositionOf;
  }

  /** Step 3d: set the lowest `leftBits` bits of the last byte. */
  method FillPadding(bf: Bitfield, leftBits: nat) returns (padded: Bitfield)
    requires leftBits < 8 && |bf| > 0
    ensures PaddedFrom(bf, padded, 8 * |bf| - leftBits)
  {
    padded := bf;
    var last := |bf| - 1;
    for i := 0 to leftBits
      invariant |padded| == |bf|
      invariant PaddedFrom(bf, padded, 8 * |bf| - i)
    {
      ShiftSetsBit(padded, i);
      PaddedFromStep(bf, padded, 8 * |bf| - 1 - i);
      hide PaddedFrom, SetBit;
      padded := padded[last := padded[last] | ((1 as bv8) << i)];
    }
  }

  class Client {
    const media: Media
    var bitfield: Bitfield
    var piecesCompleted: nat
    var bytesCompleted: int

    /** The number of pieces agrees with the bitfield. */
    ghost predicate Counted()
      reads this
    {
      && media.Valid() && |bitfield| == media.BitfieldSize()
      && piecesCompleted == Count(bitfield, media.NumberOfPieces())
    }

    /** By how much the number of pieces is too high. */
    ghost function Miscount(): int
      requires media.Valid() && |bitfield| == media.BitfieldSize()
      reads this
    {
      piecesCompleted - Count(bitfield, media.NumberOfPieces())
    }

    /** And so does the number of bytes. */
    ghost predicate Consistent()
      reads this
    {
      Counted() && bytesCompleted == BytesOwned(media, bitfield, media.NumberOfPieces())
    }

    /**
     Steps 3d and 3e of StartApplication, from the bitfield that the settings filled. Without a trailing
     piece the padding is not set, and what is set of it already is counted as pieces.
     */
    constructor (media: Media, filled: Bitfield)
      requires media.Valid() && |filled| == media.BitfieldSize()
      ensures this.media == media && |bitfield| == |filled|
      ensures Counted() <==>
        media.HasTrailingPiece() || forall p: nat :: media.NumberOfPieces() <= p < 8 * |filled| ==> !HasBit(filled, p)
      ensures Counted() ==> Consistent()
      ensures Miscount() == if media.HasTrailingPiece() then 0
                            else Count(filled, 8 * |filled|) - Count(filled, media.NumberOfPieces())
      ensures forall p: nat :: p < media.NumberOfPieces() ==> (HasBit(bitfield, p) <==> HasBit(filled, p))
    {
      var n := media.NumberOfPieces();
      var leftBits, padded := 0, filled;
      if media.HasTrailingPiece() {
        leftBits := 7 - (n - 1) % 8;
        assert leftBits == media.LeftBits() && 8 * |filled| - leftBits == n;
        padded := FillPadding(filled, leftBits);
      }
      hide Media.NumberOfPieces, Media.LeftBits, Media.BitfieldSize, HasBit, BytesOwned, OddAfterShift;
      var bitsSet := CountBits(padded);
      StartCounts(media, filled, padded, leftBits);
      bitsSet := bitsSet - leftBits;
      var bytes := bitsSet * media.pieceLength;
      if media.HasTrailingPiece() {
        if OddAfterShift(padded[|padded| - 1], leftBits) {
          bytes := media.TrailingPieceLength() + bytes - media.pieceLength;
        }
        StartBytes(media, padded);
      }
      this.media, bitfield, piecesCompleted, bytesCompleted := media, padded, bitsSet, bytes;
    }

    /**
     The update for a newly completed piece. The last piece is counted with the length of a trailing
     piece, which is 0 if there is none. A number of pieces that is too high stays so.
     */
    method SetPieceComplete(pieceIndex: nat)
      requires media.Valid() && |bitfield| == media.BitfieldSize()
      requires pieceIndex < media.NumberOfPieces() && !HasBit(bitfield, pieceIndex)
      modifies this
      ensures bitfield == SetBit(old(bitfield), pieceIndex)
      ensures piecesCompleted == old(piecesCompleted) + 1 && Miscount() == old(Miscount())
      ensures old(Counted()) ==> Counted()
      ensures bytesCompleted == old(bytesCompleted) + media.CountedLength(pieceIndex)
      ensures old(Consistent()) ==>
        (Consistent() <==> media.HasTrailingPiece() || pieceIndex != media.NumberOfPieces() - 1)
    {
      var n := media.NumberOfPieces();
      CountAfterSet(bitfield, pieceIndex, n);
      BytesAfterSet(media, bitfield, pieceIndex, n);
      hide HasBit, SetBit, Count, BytesOwned, Media.NumberOfPieces;
      bitfield := SetBit(bitfield, pieceIndex);
      if pieceIndex != n - 1 {
        bytesCompleted := bytesCompleted + media.pieceLength;
      } else {
        bytesCompleted := bytesCompleted + media.TrailingPieceLength();
      }
      piecesCompleted := piecesCompleted + 1;
    }
  }

  lemma {:induction false} CountBeyond(bf: Bitfield, n: nat, upTo: nat)
    requires n <= upTo <= 8 * |bf|
    ensures Count(bf, upTo) >= Count(bf, n)
    ensures Count(bf, upTo) == Count(bf, n) <==> forall p: nat :: n <= p < upTo ==> !HasBit(bf, p)
  {
    hide HasBit;
    if n < upTo {
      CountBeyond(bf, n, upTo - 1);
    }
  }

  /** What the count of all bits is, with the padding set or, without a trailing piece, as it was. */
  lemma StartCounts(m: Media, filled: Bitfield, padded: Bitfield, leftBits: nat)
    requires m.Valid() && |filled| == |padded| == m.BitfieldSize() && leftBits == m.LeftBits()
    requires if m.HasTrailingPiece() then PaddedFrom(filled, padded, m.NumberOfPieces()) else padded == filled
    ensures var n, all := m.NumberOfPieces(), 8 * |padded|;
      && n <= all && Count(padded, n) == Count(filled, n)
      && (m.HasTrailingPiece() ==> Count(padded, all) - leftBits == Count(padded, n))
      && (!m.HasTrailingPiece() ==>
            && leftBits == 0 && BytesOwned(m, padded, n) == Count(padded, n) * m.pieceLength
            && Count(padded, all) >= Count(padded, n)
            && (Count(padded, all) == Count(padded, n) <==> forall p: nat :: n <= p < all ==> !HasBit(filled, p)))
  {
    var n := m.NumberOfPieces();
    assert n <= 8 * |padded|;
    if m.HasTrailingPiece() {
      assert n + leftBits == 8 * |padded|;
      hide Media.NumberOfPieces, Media.LeftBits, Media.BitfieldSize, PaddedFrom;
      PaddedCount(filled, padded, n, 8 * |filled|);
      PaddedCount(filled, padded, n, n);
    } else {
      hide Media.NumberOfPieces, Media.BitfieldSize;
      CountBeyond(padded, n, 8 * |padded|);
      RegularBytes(m, padded, n);
    }
  }

  /** The test of the last piece's bit: shift the last byte by the padding and look at its parity. */
  predicate OddAfterShift(b: bv8, leftBits: nat)
    requires leftBits < 8
  {
    (b >> leftBits) % 2 == 1
  }

  lemma ParityIsMask(b: bv8, leftBits: nat)
    requires leftBits < 8
    ensures OddAfterShift(b, leftBits) <==> b & Mask(7 - leftBits) != 0
  {
    if
    case leftBits == 0 => assert (b >> 0) % 2 == 1 <==> b & 0x01 != 0;
    case leftBits == 1 => assert (b >> 1) % 2 == 1 <==> b & 0x02 != 0;
    case leftBits == 2 => assert (b >> 2) % 2 == 1 <==> b & 0x04 != 0;
    case leftBits == 3 => assert (b >> 3) % 2 == 1 <==> b & 0x08 != 0;
    case leftBits == 4 => assert (b >> 4) % 2 == 1 <==> b & 0x10 != 0;
    case leftBits == 5 => assert (b >> 5) % 2 == 1 <==> b & 0x20 != 0;
    case leftBits == 6 => assert (b >> 6) % 2 == 1 <==> b & 0x40 != 0;
    case leftBits == 7 => assert (b >> 7) % 2 == 1 <==> b & 0x80 != 0;
  }

  lemma LastPieceTest(bf: Bitfield, leftBits: nat)
    requires |bf| > 0 && leftBits < 8
    ensures OddAfterShift(bf[|bf| - 1], leftBits) <==> HasBit(bf, 8 * |bf| - 1 - leftBits)
  {
    hide Mask, ByteOf, PositionOf, OddAfterShift;
    LastBytePosition(|bf|, leftBits);
    ParityIsMask(bf[|bf| - 1], leftBits);
  }

  /** The start-up arithmetic: all owned pieces at full length, corrected for an owned trailing piece. */
  lemma StartBytes(m: Media, bf: Bitfield)
    requires m.Valid() && m.HasTrailingPiece() && |bf| == m.BitfieldSize() > 0
    ensures BytesOwned(m, bf, m.NumberOfPieces())
         == Count(bf, m.NumberOfPieces()) * m.pieceLength
            + if OddAfterShift(bf[|bf| - 1], m.LeftBits()) then m.TrailingPieceLength() - m.pieceLength else 0
  {
    var n := m.NumberOfPieces();
    assert 8 * |bf| - m.LeftBits() == n;
    LastPieceTest(bf, m.LeftBits());
    hide Media.NumberOfPieces, Media.LeftBits, Media.BitfieldSize, HasBit, OddAfterShift;
    RegularBytes(m, bf, n - 1);
    OneMore(Count(bf, n - 1), m.pieceLength);
  }
}
