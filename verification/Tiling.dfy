/**
 How a needed piece is cut into the blocks that can be requested (`GeneratePieceNeeded`).
 */
module Tiling {
  import opened Words
  import opened Lists

  /** An entry of the list of possible blocks. Readers take `second - first` as the block's length. */
  datatype Block = Block(first: nat, second: nat) {
    /** The 32-bit difference that every reader of the list uses as the length. */
    function Length(): (n: nat)
      ensures n < U32
      ensures first <= second < U32 ==> n == second - first
    {
      (second - first) % U32
    }
  }

  /** The 32-bit end offset under which a delivered block is looked up in the list again. */
  function EndOffset(offset: nat, length: nat): nat {
    (offset + length) % U32
  }

  /** A block is found again from the offset and length it was requested with. */
  lemma LengthInverse(b: Block)
    requires b.first < U32 && b.second < U32
    ensures Block(b.first, EndOffset(b.first, b.Length())) == b
  {
    if b.first <= b.second {
      assert b.Length() == b.second - b.first;
    } else {
      assert b.Length() == b.second - b.first + U32;
    }
  }

  /** The entries from a given offset on; the last one holds a length where an end offset belongs. */
  function BlocksFrom(offset: nat, pieceLength: nat, blockSize: nat): seq<Block>
    requires blockSize > 0
    decreases pieceLength - offset
  {
    if offset + blockSize <= pieceLength then
      [Block(offset, offset + blockSize)] + BlocksFrom(offset + blockSize, pieceLength, blockSize)
    else if offset < pieceLength then [Block(offset, pieceLength - offset)]
    else []
  }

  /** The loop that fills m_possibleBlocks. */
  method GenerateBlocks(pieceLength: nat, blockSize: nat) returns (possibleBlocks: seq<Block>)
    requires blockSize > 0 && pieceLength + blockSize < U32
    ensures possibleBlocks == BlocksFrom(0, pieceLength, blockSize)
  {
    possibleBlocks := [];
    var currentOffset := 0;
    while currentOffset + blockSize <= pieceLength
      invariant possibleBlocks + BlocksFrom(currentOffset, pieceLength, blockSize)
             == BlocksFrom(0, pieceLength, blockSize)
    {
      possibleBlocks := possibleBlocks + [Block(currentOffset, currentOffset + blockSize)];
      currentOffset := currentOffset + blockSize;
    }
    if currentOffset < pieceLength {
      possibleBlocks := possibleBlocks + [Block(currentOffset, pieceLength - currentOffset)];
    }
  }

  /** The blocks are consecutive, of positive length, and together cover [from, pieceLength). */
  ghost predicate Tiles(blocks: seq<Block>, from: nat, pieceLength: nat) {
    if blocks == [] then from == pieceLength
    else
      && blocks[0].first == from < blocks[0].second
      && Tiles(blocks[1..], blocks[0].second, pieceLength)
  }

  lemma AtLeastOneMore(k: int, d: nat)
    requires k >= 1
    ensures k * d >= d
  {
  }

  lemma LargerQuotient(d: nat, q: int, r: nat, q': int, r': nat)
    requires r' < d && q > q'
    ensures q * d + r > q' * d + r'
  {
    AtLeastOneMore(q - q', d);
    assert (q - q') * d == q * d - q' * d;
  }

  lemma RemainderUnique(x: int, d: nat, q: int, r: nat)
    requires r < d && x == q * d + r
    ensures x % d == r
  {
    var q', r' := x / d, x % d;
    assert x == q' * d + r';
    if q > q' {
      LargerQuotient(d, q, r, q', r');
    } else if q' > q {
      LargerQuotient(d, q', r', q, r);
    }
  }

  predicate Divides(d: nat, x: nat)
    requires d > 0
  {
    x % d == 0
  }

  lemma DividesStep(x: nat, d: nat)
    requires 0 < d <= x
    ensures Divides(d, x - d) == Divides(d, x)
  {
    var q, r := x / d, x % d;
    assert (q - 1) * d == q * d - d;
    RemainderUnique(x - d, d, q - 1, r);
  }

  lemma SmallNotDivided(x: nat, d: nat)
    requires 0 < x < d
    ensures !Divides(d, x)
  {
    RemainderUnique(x, d, 0, x);
  }

  lemma ZeroDivided(d: nat)
    requires d > 0
    ensures Divides(d, 0)
  {
  }

  lemma {:induction false} TilesExactlyFrom(offset: nat, pieceLength: nat, blockSize: nat)
    requires 0 < blockSize && offset <= pieceLength
    requires offset == 0 || blockSize <= offset
    ensures Tiles(BlocksFrom(offset, pieceLength, blockSize), offset, pieceLength)
       <==> Divides(blockSize, pieceLength - offset) || (offset == 0 && pieceLength < blockSize)
    decreases pieceLength - offset
  {
    hide Divides;
    var blocks := BlocksFrom(offset, pieceLength, blockSize);
    if offset + blockSize <= pieceLength {
      TilesExactlyFrom(offset + blockSize, pieceLength, blockSize);
      DividesStep(pieceLength - offset, blockSize);
      assert blocks[1..] == BlocksFrom(offset + blockSize, pieceLength, blockSize);
    } else if offset < pieceLength {
      SmallNotDivided(pieceLength - offset, blockSize);
      assert blocks[1..] == [];
    } else {
      ZeroDivided(blockSize);
    }
  }

  /**
   The promise that the blocks completely cover the piece holds exactly when the block size divides
   the piece length or exceeds it.
   */
  lemma TilesIffDivides(pieceLength: nat, blockSize: nat)
    requires 0 < blockSize
    ensures Tiles(BlocksFrom(0, pieceLength, blockSize), 0, pieceLength)
       <==> Divides(blockSize, pieceLength) || pieceLength < blockSize
  {
    hide Divides;
    TilesExactlyFrom(0, pieceLength, blockSize);
  }

  /** A piece of 5 bytes in blocks of 2: the last entry reads (4, 1), not (4, 5). */
  lemma TailEntryExample()
    ensures BlocksFrom(0, 5, 2) == [Block(0, 2), Block(2, 4), Block(4, 1)]
    ensures !Tiles(BlocksFrom(0, 5, 2), 0, 5)
  {
    TilesIffDivides(5, 2);
  }

  /** The list with its last entry read the way it was written: as an offset and a length. */
  function Corrected(blocks: seq<Block>, blockSize: nat): seq<Block> {
    if blocks == [] then []
    else
      var tail := blocks[|blocks| - 1];
      blocks[..|blocks| - 1]
      + [if tail.second == tail.first + blockSize then tail else Block(tail.first, tail.first + tail.second)]
  }

  /** Read that way, the blocks cover every piece. */
  lemma {:induction false} CorrectedTiles(offset: nat, pieceLength: nat, blockSize: nat)
    requires 0 < blockSize && offset <= pieceLength
    ensures Tiles(Corrected(BlocksFrom(offset, pieceLength, blockSize), blockSize), offset, pieceLength)
    decreases pieceLength - offset
  {
    var blocks := BlocksFrom(offset, pieceLength, blockSize);
    if offset + blockSize <= pieceLength {
      var rest := BlocksFrom(offset + blockSize, pieceLength, blockSize);
      CorrectedTiles(offset + blockSize, pieceLength, blockSize);
      assert blocks[1..] == rest;
      assert rest != [] ==> Corrected(blocks, blockSize)[1..] == Corrected(rest, blockSize);
      assert Tiles(Corrected(rest, blockSize), offset + blockSize, pieceLength);
    } else if offset < pieceLength {
      assert Corrected(blocks, blockSize)[1..] == [];
    }
  }

  /** What the request bookkeeping needs of the list, whatever the sizes. */
  ghost predicate Requestable(blocks: seq<Block>) {
    forall i :: 0 <= i < |blocks| ==> blocks[i].first < U32 && blocks[i].second < U32 && blocks[i].Length() > 0
  }

  /** A tail entry behind other blocks wraps around; it is still not 0. */
  lemma TailLength(offset: nat, rest: nat)
    requires 0 < rest < offset < U32
    ensures Block(offset, rest).Length() == rest - offset + U32
  {
  }

  /** No entry has length 0, so "length 0" can stand for "no block found". */
  lemma {:induction false} GeneratedRequestable(offset: nat, pieceLength: nat, blockSize: nat)
    requires 0 < blockSize && pieceLength + blockSize < U32
    requires offset == 0 || blockSize <= offset
    ensures Requestable(BlocksFrom(offset, pieceLength, blockSize))
    decreases pieceLength - offset
  {
    hide Block.Length;
    if offset + blockSize <= pieceLength {
      GeneratedRequestable(offset + blockSize, pieceLength, blockSize);
    } else if 0 < offset < pieceLength {
      TailLength(offset, pieceLength - offset);
    }
  }

  lemma {:induction false} GeneratedDistinct(offset: nat, pieceLength: nat, blockSize: nat)
    requires 0 < blockSize
    ensures forall b :: b in BlocksFrom(offset, pieceLength, blockSize) ==> offset <= b.first < pieceLength
    ensures Distinct(BlocksFrom(offset, pieceLength, blockSize))
    decreases pieceLength - offset
  {
    if offset + blockSize <= pieceLength {
      GeneratedDistinct(offset + blockSize, pieceLength, blockSize);
    }
  }
}
