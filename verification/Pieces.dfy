/** Blocks and pieces as src/BitTorrent/Primitives/Piece.h holds them: a vector of
    block slots whose concatenation is the piece, addressed byte by byte through the
    size of the first block. */
module Pieces {
  import opened Common

  newtype byte = b: int | 0 <= b < 256

  /** Largest block a peer may be asked for: 2^14 bytes. */
  const MOST_REQUEST_SIZE: nat := 16384

  datatype Block = Block(data: seq<byte>, begin: nat)

  /** `currentBlocksNum` counts the blocks received so far. */
  datatype Piece = Piece(index: nat, blockCount: nat, blocks: seq<Block>, currentBlocksNum: nat)

  const EMPTY_BLOCK := Block([], 0)

  /** A new piece: `blockCount` empty slots. */
  function NewPiece(index: nat, blockCount: nat): (piece: Piece)
    ensures |piece.blocks| == blockCount
  {
    Piece(index, blockCount, seq(blockCount, _ => EMPTY_BLOCK), 0)
  }

  /** The bytes the slots hold, in slot order: what the SHA-1 runs over. */
  function Concat(blocks: seq<Block>): seq<byte> {
    if blocks == [] then [] else Concat(blocks[..|blocks| - 1]) + blocks[|blocks| - 1].data
  }

  /** Every slot but the last is as long as the first; the last is no longer, and none is empty. */
  ghost predicate Uniform(blocks: seq<Block>) {
    && |blocks| > 0
    && 0 < |blocks[|blocks| - 1].data| <= |blocks[0].data|
    && forall k :: 0 <= k < |blocks| - 1 ==> |blocks[k].data| == |blocks[0].data|
  }

  /** Blocks as long as the first, then one that is no longer, then only empty ones. */
  ghost predicate Regular(blocks: seq<Block>) {
    blocks == [] || exists n: nat :: n < |blocks| && RegularUpTo(blocks, n)
  }

  ghost predicate RegularUpTo(blocks: seq<Block>, n: nat)
    requires n < |blocks|
  {
    && (forall k :: 0 <= k < n ==> |blocks[k].data| == |blocks[0].data|)
    && |blocks[n].data| <= |blocks[0].data|
    && forall k :: n < k < |blocks| ==> blocks[k].data == []
  }

  lemma UniformIsRegular(blocks: seq<Block>)
    requires Uniform(blocks)
    ensures Regular(blocks)
  {
    assert RegularUpTo(blocks, |blocks| - 1);
  }

  /** The precondition of `Piece::operator[]`: the two subscripts are inside their vectors. */
  predicate Indexable(blocks: seq<Block>, idx: nat) {
    && |blocks| > 0
    && |blocks[0].data| > 0
    && idx / |blocks[0].data| < |blocks|
    && idx % |blocks[0].data| < |blocks[idx / |blocks[0].data|].data|
  }

  /** `Piece::operator[]`: block number and offset by division with the first block's size. */
  function At(blocks: seq<Block>, idx: nat): byte
    requires Indexable(blocks, idx)
  {
    var mid := |blocks[0].data|;
    blocks[idx / mid].data[idx % mid]
  }

  /** `Piece::size`. */
  method Size(piece: Piece) returns (size: nat)
    ensures size == |Concat(piece.blocks)|
  {
    size := 0;
    for k := 0 to |piece.blocks|
      invariant size == |Concat(piece.blocks[..k])|
    {
      assert piece.blocks[..k + 1][..k] == piece.blocks[..k];
      size := size + |piece.blocks[k].data|;
    }
    assert piece.blocks[..|piece.blocks|] == piece.blocks;
  }

  lemma {:induction false} FullPrefix(blocks: seq<Block>, n: nat, mid: nat)
    requires n <= |blocks|
    requires forall k :: 0 <= k < n ==> |blocks[k].data| == mid
    ensures |Concat(blocks[..n])| == n * mid
  {
    if n == 0 {
      assert blocks[..0] == [];
    } else {
      FullPrefix(blocks, n - 1, mid);
      MulStep(n - 1, mid);
      assert blocks[..n][..n - 1] == blocks[..n - 1];
    }
  }

  lemma {:induction false} ConcatSlot(blocks: seq<Block>, k: nat, o: nat)
    requires k < |blocks| && o < |blocks[k].data|
    ensures |Concat(blocks[..k])| + o < |Concat(blocks)|
    ensures Concat(blocks)[|Concat(blocks[..k])| + o] == blocks[k].data[o]
  {
    var last := |blocks| - 1;
    if k < last {
      ConcatSlot(blocks[..last], k, o);
      assert blocks[..last][..k] == blocks[..k];
    }
  }

  lemma {:induction false} ConcatPrefix(blocks: seq<Block>, n: nat)
    requires n <= |blocks|
    ensures |Concat(blocks[..n])| <= |Concat(blocks)|
    ensures |Concat(blocks[..n])| == |Concat(blocks)| <==> forall k :: n <= k < |blocks| ==> blocks[k].data == []
  {
    if n < |blocks| {
      var last := |blocks| - 1;
      ConcatPrefix(blocks[..last], n);
      assert blocks[..last][..n] == blocks[..n];
      assert forall k :: n <= k < last ==> blocks[..last][k] == blocks[k];
    } else {
      assert blocks[..n] == blocks;
    }
  }

  /** Blocks that are long enough add up to enough, and to no more only if none is longer. */
  lemma {:induction false} LongBlocks(blocks: seq<Block>, n: nat, mid: nat)
    requires n <= |blocks|
    requires forall k :: 0 <= k < n ==> |blocks[k].data| >= mid
    ensures |Concat(blocks[..n])| >= n * mid
    ensures |Concat(blocks[..n])| == n * mid ==> forall k :: 0 <= k < n ==> |blocks[k].data| == mid
  {
    if n > 0 {
      LongBlocks(blocks, n - 1, mid);
      MulStep(n - 1, mid);
      assert blocks[..n][..n - 1] == blocks[..n - 1];
    }
  }

  lemma SlotOf(blocks: seq<Block>, n: nat, idx: nat, k: nat, o: nat, mid: nat)
    requires n < |blocks| && RegularUpTo(blocks, n) && idx < |Concat(blocks)|
    requires mid == |blocks[0].data| && idx == k * mid + o && o < mid
    ensures k < |blocks| && o < |blocks[k].data|
    ensures blocks[k].data[o] == Concat(blocks)[idx]
  {
    ConcatPrefix(blocks, n + 1);
    FullPrefix(blocks, n, mid);
    assert blocks[..n + 1][..n] == blocks[..n];
    MulBound(k, n, mid);
    FullPrefix(blocks, k, mid);
    ConcatSlot(blocks, k, o);
  }

  /** `operator[]` reads byte idx of the concatenation, at every index below `size()`. */
  lemma AtIsConcat(blocks: seq<Block>, idx: nat)
    requires Regular(blocks) && idx < |Concat(blocks)|
    ensures Indexable(blocks, idx)
    ensures At(blocks, idx) == Concat(blocks)[idx]
  {
    var n: nat :| n < |blocks| && RegularUpTo(blocks, n);
    var mid := |blocks[0].data|;
    FirstNotEmpty(blocks, n);
    DivModIs(idx, mid);
    hide RegularUpTo;
    SlotOf(blocks, n, idx, idx / mid, idx % mid, mid);
  }

  lemma FirstNotEmpty(blocks: seq<Block>, n: nat)
    requires n < |blocks| && RegularUpTo(blocks, n) && Concat(blocks) != []
    ensures |blocks[0].data| > 0
  {
    ConcatPrefix(blocks, 0);
    assert blocks[..0] == [];
  }

  ghost predicate IndexableBelow(blocks: seq<Block>, size: nat) {
    forall idx: nat :: idx < size ==> Indexable(blocks, idx)
  }

  lemma LongBlock(blocks: seq<Block>, size: nat, n: nat, k: nat, mid: nat)
    requires IndexableBelow(blocks, size) && blocks != [] && mid == |blocks[0].data| > 0
    requires k < n && n * mid < size
    ensures k < |blocks| && |blocks[k].data| >= mid
  {
    MulMono(k + 1, n, mid);
    var idx := k * mid + (mid - 1);
    assert idx < size;
    assert Indexable(blocks, idx);
    DivMod(k, mid - 1, mid);
  }

  lemma LastIndex(blocks: seq<Block>, idx: nat, n: nat, o: nat)
    requires Indexable(blocks, idx)
    requires n == idx / |blocks[0].data| && o == idx % |blocks[0].data|
    ensures idx == n * |blocks[0].data| + o && o < |blocks[0].data| && n < |blocks| && o < |blocks[n].data|
  {
    DivModIs(idx, |blocks[0].data|);
  }

  /** Subscripts in range up to the last byte leave no other shape. */
  lemma IndexableIsRegular(blocks: seq<Block>)
    requires |Concat(blocks)| > 0 && IndexableBelow(blocks, |Concat(blocks)|)
    ensures Regular(blocks)
  {
    var last := |Concat(blocks)| - 1;
    assert Indexable(blocks, last);
    var n, o := last / |blocks[0].data|, last % |blocks[0].data|;
    LastIndex(blocks, last, n, o);
    hide *;
    RegularIfLastAt(blocks, n, o, |blocks[0].data|);
  }

  lemma RegularIfLastAt(blocks: seq<Block>, n: nat, o: nat, mid: nat)
    requires IndexableBelow(blocks, |Concat(blocks)|)
    requires n < |blocks| && o < |blocks[n].data| && o < mid == |blocks[0].data|
    requires |Concat(blocks)| == n * mid + o + 1
    ensures Regular(blocks)
  {
    hide *;
    forall k: nat | k < n
      ensures k < |blocks| && |blocks[k].data| >= mid
    {
      LongBlock(blocks, |Concat(blocks)|, n, k, mid);
    }
    LongBlocks(blocks, n, mid);
    EndOfBlocks(blocks, n, o, mid);
  }

  lemma EndOfBlocks(blocks: seq<Block>, n: nat, o: nat, mid: nat)
    requires n < |blocks| && o < |blocks[n].data| && o < mid == |blocks[0].data|
    requires |Concat(blocks)| == n * mid + o + 1 && |Concat(blocks[..n])| >= n * mid
    requires |Concat(blocks[..n])| == n * mid ==> forall k :: 0 <= k < n ==> |blocks[k].data| == mid
    ensures Regular(blocks)
  {
    assert blocks[..n + 1][..n] == blocks[..n];
    ConcatPrefix(blocks, n + 1);
    assert RegularUpTo(blocks, n);
  }

  /** Writing a piece byte by byte leaves its vectors exactly if its blocks are irregular, whatever
      they hold. */
  lemma AlwaysIndexable(blocks: seq<Block>)
    ensures IndexableBelow(blocks, |Concat(blocks)|) <==> Regular(blocks)
  {
    if |Concat(blocks)| == 0 {
      ConcatPrefix(blocks, 0);
      assert blocks[..0] == [];
      assert blocks != [] ==> RegularUpTo(blocks, 0);
    } else if Regular(blocks) {
      forall idx: nat | idx < |Concat(blocks)|
        ensures Indexable(blocks, idx)
      {
        AtIsConcat(blocks, idx);
      }
    } else {
      if IndexableBelow(blocks, |Concat(blocks)|) {
        IndexableIsRegular(blocks);
      }
    }
  }
}
