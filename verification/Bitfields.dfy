/**
 The client's bitfield: one bit per piece, most significant bit first. Covers the fill-up of the
 padding bits and the bit count at start-up, the scan for missing pieces, and the update when a
 piece completes.
 */
module Bitfields {

  type Bitfield = seq<bv8>

  /** The mask of position k within a byte, counted from the most significant bit. */
  function Mask(k: nat): bv8
    requires k < 8
  {
    if k == 0 then 0x80 else if k == 1 then 0x40 else if k == 2 then 0x20 else if k == 3 then 0x10
    else if k == 4 then 0x08 else if k == 5 then 0x04 else if k == 6 then 0x02 else 0x01
  }

  function ByteOf(p: nat): nat {
    p / 8
  }

  function PositionOf(p: nat): (k: nat)
    ensures k < 8
  {
    p % 8
  }

  predicate HasBit(bf: Bitfield, p: nat)
    requires p < 8 * |bf|
  {
    BitAt(bf, ByteOf(p), PositionOf(p))
  }

  predicate BitAt(bf: Bitfield, i: nat, k: nat)
    requires i < |bf| && k < 8
  {
    bf[i] & Mask(k) != 0
  }

  /** The number of bytes that hold n bits. */
  function SizeFor(n: nat): (size: nat)
    ensures n <= 8 * size < n + 8
  {
    n / 8 + if n % 8 > 0 then 1 else 0
  }

  ghost function Owned(bf: Bitfield, n: nat): set<nat>
    requires n <= 8 * |bf|
  {
    set p | 0 <= p < n && HasBit(bf, p)
  }

  /** How many of the first n bits are set. */
  ghost function Count(bf: Bitfield, n: nat): nat
    requires n <= 8 * |bf|
  {
    if n == 0 then 0 else Count(bf, n - 1) + if HasBit(bf, n - 1) then 1 else 0
  }

  lemma {:induction false} CountIsOwned(bf: Bitfield, n: nat)
    requires n <= 8 * |bf|
    ensures |Owned(bf, n)| == Count(bf, n)
  {
    hide HasBit;
    if n > 0 {
      CountIsOwned(bf, n - 1);
      if HasBit(bf, n - 1) {
        assert Owned(bf, n) == Owned(bf, n - 1) + {n - 1};
      } else {
        assert Owned(bf, n) == Owned(bf, n - 1);
      }
    }
  }

  // ----- Counting bits -----

  function PopCount(b: bv8): nat {
    (if b & 0x80 != 0 then 1 else 0) + (if b & 0x40 != 0 then 1 else 0)
    + (if b & 0x20 != 0 then 1 else 0) + (if b & 0x10 != 0 then 1 else 0)
    + (if b & 0x08 != 0 then 1 else 0) + (if b & 0x04 != 0 then 1 else 0)
    + (if b & 0x02 != 0 then 1 else 0) + (if b & 0x01 != 0 then 1 else 0)
  }

  lemma ClearLowestBit(b: bv8)
    requires b != 0
    ensures PopCount(b & (b - 1)) == PopCount(b) - 1
  {
  }

  lemma CountNextByte(bf: Bitfield, i: nat)
    requires i < |bf|
    ensures Count(bf, 8 * (i + 1)) == Count(bf, 8 * i) + PopCount(bf[i])
  {
    hide Count, HasBit;
    CountNextBit(bf, i, 0);
    CountNextBit(bf, i, 1);
    CountNextBit(bf, i, 2);
    CountNextBit(bf, i, 3);
    CountNextBit(bf, i, 4);
    CountNextBit(bf, i, 5);
    CountNextBit(bf, i, 6);
    CountNextBit(bf, i, 7);
  }

  lemma CountNextBit(bf: Bitfield, i: nat, k: nat)
    requires i < |bf| && k < 8
    ensures Count(bf, 8 * i + k + 1) == Count(bf, 8 * i + k) + if bf[i] & Mask(k) != 0 then 1 else 0
  {
    assert ByteOf(8 * i + k) == i && PositionOf(8 * i + k) == k;
  }

  /** Step 3e's count over the whole bitfield, with the shortcut for full bytes. */
  method CountBits(bf: Bitfield) returns (bitsSet: nat)
    ensures bitsSet == Count(bf, 8 * |bf|)
  {
    bitsSet := 0;
    for pos := 0 to |bf|
      invariant bitsSet == Count(bf, 8 * pos)
    {
      CountNextByte(bf, pos);
      hide Count;
      var byte := bf[pos];
      if byte == 255 {
        bitsSet := bitsSet + 8;
      } else {
        ghost var before := bitsSet;
        while byte != 0
          invariant bitsSet + PopCount(byte) == before + PopCount(bf[pos])
          decreases PopCount(byte)
        {
          ClearLowestBit(byte);
          byte := byte & (byte - 1);
          bitsSet := bitsSet + 1;
        }
      }
    }
  }

  // ----- The scan for missing pieces: invert, test the top bit, shift left -----

  /** The inverted byte after k shifts. */
  function Shifted(b: bv8, k: nat): bv8
    requires k <= 8
  {
    (!b) << k
  }

  lemma ScanBit(b: bv8, k: nat)
    requires k < 8
    ensures Shifted(b, k) & 0x80 != 0 <==> b & Mask(k) == 0
    ensures Shifted(b, k) << 1 == Shifted(b, k + 1)
  {
    if
    case k == 0 => assert ((!b) << 0) & 0x80 != 0 <==> b & 0x80 == 0;
    case k == 1 => assert ((!b) << 1) & 0x80 != 0 <==> b & 0x40 == 0;
    case k == 2 => assert ((!b) << 2) & 0x80 != 0 <==> b & 0x20 == 0;
    case k == 3 => assert ((!b) << 3) & 0x80 != 0 <==> b & 0x10 == 0;
    case k == 4 => assert ((!b) << 4) & 0x80 != 0 <==> b & 0x08 == 0;
    case k == 5 => assert ((!b) << 5) & 0x80 != 0 <==> b & 0x04 == 0;
    case k == 6 => assert ((!b) << 6) & 0x80 != 0 <==> b & 0x02 == 0;
    case k == 7 => assert ((!b) << 7) & 0x80 != 0 <==> b & 0x01 == 0;
  }

  lemma ScanPiece(bf: Bitfield, i: nat, k: nat)
    requires i < |bf| && k < 8
    ensures Shifted(bf[i], k) & 0x80 != 0 <==> !HasBit(bf, 8 * i + k)
    ensures Shifted(bf[i], k) << 1 == Shifted(bf[i], k + 1)
  {
    hide Shifted, Mask;
    assert ByteOf(8 * i + k) == i && PositionOf(8 * i + k) == k;
    ScanBit(bf[i], k);
  }

  /** `missing` lists the clear bits among the first n, in ascending order. */
  ghost predicate ListsMissing(bf: Bitfield, n: nat, missing: seq<nat>)
    requires n <= 8 * |bf|
  {
    && (forall p: nat :: p in missing <==> p < n && !HasBit(bf, p))
    && (forall i, j :: 0 <= i < j < |missing| ==> missing[i] < missing[j])
  }

  lemma ListsMissingStep(bf: Bitfield, n: nat, missing: seq<nat>)
    requires n < 8 * |bf| && ListsMissing(bf, n, missing)
    ensures ListsMissing(bf, n + 1, if HasBit(bf, n) then missing else missing + [n])
  {
    forall i | 0 <= i < |missing| ensures missing[i] < n {
      assert missing[i] in missing;
    }
  }

  /** The inner loop of the scan: the pieces of one byte. */
  method ScanByte(bf: Bitfield, i: nat, n: nat, soFar: seq<nat>) returns (missing: seq<nat>, currentPiece: nat)
    requires i < |bf| && 8 * i < n <= 8 * |bf|
    requires ListsMissing(bf, 8 * i, soFar)
    ensures currentPiece == if n < 8 * i + 8 then n else 8 * i + 8
    ensures ListsMissing(bf, currentPiece, missing)
  {
    hide HasBit, ListsMissing;
    missing, currentPiece := soFar, 8 * i;
    var currentByte := !bf[i];
    var bit := 0;
    assert currentByte == Shifted(bf[i], bit);
    hide Shifted;
    while bit < 8 && currentPiece < n
      invariant 0 <= bit <= 8 && currentPiece == 8 * i + bit <= n
      invariant currentByte == Shifted(bf[i], bit)
      invariant ListsMissing(bf, currentPiece, missing)
    {
      ScanPiece(bf, i, bit);
      ListsMissingStep(bf, currentPiece, missing);
      if currentByte & 0x80 != 0 {
        missing := missing + [currentPiece];
      }
      currentByte := currentByte << 1;
      bit, currentPiece := bit + 1, currentPiece + 1;
    }
  }

  /** The scan for the pieces still needed. */
  method MissingPieces(bf: Bitfield, n: nat) returns (missing: seq<nat>)
    requires |bf| == SizeFor(n)
    ensures ListsMissing(bf, n, missing)
  {
    missing := [];
    var currentPiece := 0;
    for currentBitfieldByte := 0 to |bf|
      invariant currentPiece == if currentBitfieldByte < |bf| then 8 * currentBitfieldByte else n
      invariant ListsMissing(bf, currentPiece, missing)
    {
      hide ListsMissing;
      missing, currentPiece := ScanByte(bf, currentBitfieldByte, n, missing);
    }
  }

  // ----- Lengths -----

  /** The file's layout: N pieces of equal length, of which the last may be shorter. */
  datatype Media = Media(fileLength: nat, pieceLength: nat) {
    ghost predicate Valid() {
      fileLength > 0 && pieceLength > 0
    }

    function TrailingPieceLength(): nat
      requires Valid()
    {
      fileLength % pieceLength
    }

    predicate HasTrailingPiece()
      requires Valid()
    {
      TrailingPieceLength() > 0
    }

    function NumberOfPieces(): (n: nat)
      requires Valid()
    {
      fileLength / pieceLength + if HasTrailingPiece() then 1 else 0
    }

    function BitfieldSize(): nat
      requires Valid()
    {
      SizeFor(NumberOfPieces())
    }

    /** The promised length of a piece. */
    function LengthOf(p: nat): nat
      requires Valid() && p < NumberOfPieces()
    {
      if HasTrailingPiece() && p == NumberOfPieces() - 1 then TrailingPieceLength() else pieceLength
    }

    /** What a completed piece is counted with: the last one with the length of a trailing piece, if any. */
    function CountedLength(p: nat): nat
      requires Valid() && p < NumberOfPieces()
    {
      if p != NumberOfPieces() - 1 then pieceLength else TrailingPieceLength()
    }

    /** The low-order bits of the last byte that stand for no piece; filled only for a trailing piece. */
    function LeftBits(): (n: nat)
      requires Valid()
      ensures n < 8
      ensures HasTrailingPiece() ==> NumberOfPieces() + n == 8 * BitfieldSize()
    {
      if HasTrailingPiece() then 7 - (NumberOfPieces() - 1) % 8 else 0
    }
  }

  /** The summed length of the owned pieces among the first n. */
  ghost function BytesOwned(m: Media, bf: Bitfield, n: nat): nat
    requires m.Valid() && n <= m.NumberOfPieces() <= 8 * |bf|
  {
    if n == 0 then 0
    else BytesOwned(m, bf, n - 1) + if HasBit(bf, n - 1) then m.LengthOf(n - 1) else 0
  }

  lemma CountedLengthIff(m: Media, p: nat)
    requires m.Valid() && p < m.NumberOfPieces()
    ensures m.CountedLength(p) == m.LengthOf(p) <==> m.HasTrailingPiece() || p != m.NumberOfPieces() - 1
  {
    hide Media.NumberOfPieces;
  }

  /** The summed length of those of the first n pieces that are owned. */
  ghost function OwnedBytes(m: Media, owned: set<nat>, n: nat): nat
    requires m.Valid() && n <= m.NumberOfPieces()
  {
    if n == 0 then 0
    else OwnedBytes(m, owned, n - 1) + if n - 1 in owned then m.LengthOf(n - 1) else 0
  }

  lemma {:induction false} OwnedBytesOfBitfield(m: Media, bf: Bitfield, n: nat, all: nat)
    requires m.Valid() && n <= all <= m.NumberOfPieces() <= 8 * |bf|
    ensures OwnedBytes(m, Owned(bf, all), n) == BytesOwned(m, bf, n)
  {
    hide Media.NumberOfPieces, Media.LengthOf, HasBit;
    if n > 0 {
      OwnedBytesOfBitfield(m, bf, n - 1, all);
    }
  }

  lemma {:induction false} OwnedBytesAdded(m: Media, owned: set<nat>, p: nat, n: nat)
    requires m.Valid() && n <= m.NumberOfPieces() && p !in owned && p < m.NumberOfPieces()
    ensures OwnedBytes(m, owned + {p}, n) == OwnedBytes(m, owned, n) + if p < n then m.LengthOf(p) else 0
  {
    hide Media.NumberOfPieces, Media.LengthOf;
    if n > 0 {
      OwnedBytesAdded(m, owned, p, n - 1);
    }
  }

  lemma OneMore(a: nat, f: nat)
    ensures (a + 1) * f == a * f + f
  {
  }

  lemma {:induction false} RegularBytes(m: Media, bf: Bitfield, n: nat)
    requires m.Valid() && n <= m.NumberOfPieces() <= 8 * |bf|
    requires m.HasTrailingPiece() ==> n < m.NumberOfPieces()
    ensures BytesOwned(m, bf, n) == Count(bf, n) * m.pieceLength
  {
    hide Media.Valid, Media.HasTrailingPiece, Media.NumberOfPieces, HasBit;
    if n > 0 {
      RegularBytes(m, bf, n - 1);
      OneMore(Count(bf, n - 1), m.pieceLength);
    }
  }

  lemma FileSplit(m: Media)
    requires m.Valid()
    ensures var full := m.NumberOfPieces() - if m.HasTrailingPiece() then 1 else 0;
            full >= 0 && m.fileLength == full * m.pieceLength + m.TrailingPieceLength()
  {
  }

  /** A complete bitfield stands for exactly the bytes of the file. */
  lemma AllBytes(m: Media, bf: Bitfield)
    requires m.Valid() && |bf| == m.BitfieldSize()
    requires Count(bf, m.NumberOfPieces()) == m.NumberOfPieces()
    ensures BytesOwned(m, bf, m.NumberOfPieces()) == m.fileLength
  {
    FileSplit(m);
    hide Media.NumberOfPieces, Media.TrailingPieceLength, HasBit;
    var n := m.NumberOfPieces();
    if m.HasTrailingPiece() {
      CountAtMost(bf, n - 1);
      RegularBytes(m, bf, n - 1);
    } else {
      RegularBytes(m, bf, n);
    }
  }

  lemma {:induction false} CountAtMost(bf: Bitfield, n: nat)
    requires n <= 8 * |bf|
    ensures Count(bf, n) <= n
  {
    if n > 0 {
      CountAtMost(bf, n - 1);
    }
  }

  // ----- Setting bits -----

  lemma MaskDisjoint(b: bv8, j: nat, k: nat)
    requires j < 8 && k < 8
    ensures (b | Mask(j)) & Mask(k) != 0 <==> j == k || b & Mask(k) != 0
  {
  }

  lemma ShiftedOne(i: nat)
    requires i < 8
    ensures (1 as bv8) << i == Mask(7 - i)
  {
  }

  function SetAt(bf: Bitfield, i: nat, k: nat): (r: Bitfield)
    requires i < |bf| && k < 8
    ensures |r| == |bf|
  {
    bf[i := bf[i] | Mask(k)]
  }

  function SetBit(bf: Bitfield, p: nat): (r: Bitfield)
    requires p < 8 * |bf|
    ensures |r| == |bf|
  {
    SetAt(bf, ByteOf(p), PositionOf(p))
  }

  lemma SetAtEffect(bf: Bitfield, i: nat, k: nat, j: nat, l: nat)
    requires i < |bf| && k < 8 && j < |bf| && l < 8
    ensures BitAt(SetAt(bf, i, k), j, l) <==> (i == j && k == l) || BitAt(bf, j, l)
  {
    MaskDisjoint(bf[i], k, l);
    hide Mask;
  }

  lemma SamePlace(p: nat, q: nat)
    ensures p == q <==> ByteOf(p) == ByteOf(q) && PositionOf(p) == PositionOf(q)
  {
  }

  lemma SetBitEffect(bf: Bitfield, p: nat, q: nat)
    requires p < 8 * |bf| && q < 8 * |bf|
    ensures HasBit(SetBit(bf, p), q) <==> p == q || HasBit(bf, q)
  {
    SamePlace(p, q);
    hide SetAt, BitAt;
    SetAtEffect(bf, ByteOf(p), PositionOf(p), ByteOf(q), PositionOf(q));
  }
}
