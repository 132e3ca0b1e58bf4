/** Pieces put together from blocks of any length, for any slot, also for one that is filled. */
module Arrivals {
  import opened Pieces
  import opened Requests
  import opened Assembly

  /** A block message for the active piece, as far as it is checked, and with a slot to go to. */
  predicate Stored(arrival: Block, count: nat) {
    |arrival.data| <= MOST_REQUEST_SIZE && arrival.begin / MOST_REQUEST_SIZE < count
  }

  ghost predicate AllStored(arrivals: seq<Block>, count: nat) {
    forall i :: 0 <= i < |arrivals| ==> Stored(arrivals[i], count)
  }

  function SlotOfBlock(arrival: Block): nat {
    arrival.begin / MOST_REQUEST_SIZE
  }

  /** The piece after the blocks in the order they came. */
  function Gathered(index: nat, count: nat, arrivals: seq<Block>): (piece: Piece)
    requires AllStored(arrivals, count)
    ensures |piece.blocks| == piece.blockCount == count && piece.currentBlocksNum == |arrivals|
    ensures forall b: nat :: b < count ==>
              piece.blocks[b] == EMPTY_BLOCK || (piece.blocks[b] in arrivals && SlotOfBlock(piece.blocks[b]) == b)
  {
    if arrivals == [] then NewPiece(index, count)
    else
      var front, last := arrivals[..|arrivals| - 1], arrivals[|arrivals| - 1];
      assert Stored(last, count);
      Store(Gathered(index, count, front), last.begin, last.data)
  }

  ghost predicate NoneEmpty(blocks: seq<Block>) {
    forall k :: 0 <= k < |blocks| ==> blocks[k].data != []
  }

  ghost predicate SmallBlocks(blocks: seq<Block>) {
    forall k :: 0 <= k < |blocks| ==> |blocks[k].data| <= MOST_REQUEST_SIZE
  }

  /** With an empty block among them, n blocks make at most n - 1 full ones. */
  lemma {:induction false} LongNeedsAll(blocks: seq<Block>)
    requires SmallBlocks(blocks)
    ensures |Concat(blocks)| <= |blocks| * MOST_REQUEST_SIZE
    ensures |Concat(blocks)| > (|blocks| - 1) * MOST_REQUEST_SIZE ==> NoneEmpty(blocks)
  {
    if blocks != [] {
      LongNeedsAll(blocks[..|blocks| - 1]);
      assert forall k :: 0 <= k < |blocks| - 1 ==> blocks[..|blocks| - 1][k] == blocks[k];
    }
  }

  lemma SameElements(a: seq<Block>, b: seq<Block>)
    requires multiset(a) == multiset(b)
    ensures |a| == |b|
    ensures SmallBlocks(a) ==> SmallBlocks(b)
    ensures NoneEmpty(a) ==> NoneEmpty(b)
  {
    assert |a| == |multiset(a)| == |multiset(b)| == |b|;
    forall k | 0 <= k < |b|
      ensures b[k] in a
    {
      assert b[k] in multiset(b);
    }
  }

  /** A piece with no empty slot ascends, so sorting leaves it as it is. */
  lemma FilledAscends(index: nat, count: nat, arrivals: seq<Block>)
    requires AllStored(arrivals, count) && NoneEmpty(Gathered(index, count, arrivals).blocks)
    ensures Ascending(Gathered(index, count, arrivals).blocks)
  {
    var blocks := Gathered(index, count, arrivals).blocks;
    forall i, j | 0 <= i < j < |blocks|
      ensures blocks[i].begin < blocks[j].begin
    {
      assert SlotOfBlock(blocks[i]) == i && SlotOfBlock(blocks[j]) == j;
    }
  }

  function SlotsHit(arrivals: seq<Block>): (r: set<nat>)
    ensures forall b :: b in r <==> exists i :: 0 <= i < |arrivals| && SlotOfBlock(arrivals[i]) == b
  {
    set i | 0 <= i < |arrivals| :: SlotOfBlock(arrivals[i])
  }

  ghost predicate OwnSlots(arrivals: seq<Block>) {
    forall i, j :: 0 <= i < j < |arrivals| ==> SlotOfBlock(arrivals[i]) != SlotOfBlock(arrivals[j])
  }

  /** As many slots as blocks only if each block has its own. */
  lemma {:induction false} OneEach(arrivals: seq<Block>)
    ensures |SlotsHit(arrivals)| <= |arrivals|
    ensures |SlotsHit(arrivals)| == |arrivals| ==> OwnSlots(arrivals)
  {
    if arrivals != [] {
      var front, last := arrivals[..|arrivals| - 1], SlotOfBlock(arrivals[|arrivals| - 1]);
      OneEach(front);
      HitMore(front, arrivals[|front|]);
      assert arrivals == front + [arrivals[|front|]];
      hide SlotOfBlock;
      if last in SlotsHit(front) {
        assert SlotsHit(arrivals) == SlotsHit(front);
      }
    }
  }

  lemma HitMore(front: seq<Block>, last: Block)
    ensures SlotsHit(front + [last]) == SlotsHit(front) + {SlotOfBlock(last)}
  {
    hide SlotOfBlock;
    var all := front + [last];
    assert all[|front|] == last && forall i :: 0 <= i < |front| ==> all[i] == front[i];
  }

  /** When as many blocks have come as the piece has, and the content that is hashed has the length
      of the piece, then each slot got exactly one block, no block came for a filled slot, and the
      sort changed nothing. The piece can be written exactly if its blocks are regular. */
  lemma ArrivedComplete(index: nat, len: nat, arrivals: seq<Block>, sorted: seq<Block>)
    requires len > 0 && |arrivals| == BlockCount(len) && AllStored(arrivals, BlockCount(len))
    requires var blocks := Gathered(index, BlockCount(len), arrivals).blocks;
      && multiset(sorted) == multiset(blocks) && |Concat(sorted)| == len
      && forall i, j :: 0 <= i < j < |sorted| ==> sorted[i].begin <= sorted[j].begin
    ensures sorted == Gathered(index, BlockCount(len), arrivals).blocks && NoneEmpty(sorted)
    ensures OwnSlots(arrivals)
    ensures IndexableBelow(sorted, len) <==> Regular(sorted)
  {
    var blocks := Gathered(index, BlockCount(len), arrivals).blocks;
    hide Concat, Ascending, Indexable, Regular;
    assert SmallBlocks(blocks);
    SameElements(blocks, sorted);
    LongNeedsAll(sorted);
    SameElements(sorted, blocks);
    FilledAscends(index, BlockCount(len), arrivals);
    SortChangesNothing(blocks, sorted);
    EverySlotHit(index, BlockCount(len), arrivals);
    OneEach(arrivals);
    AlwaysIndexable(sorted);
  }

  lemma EverySlotHit(index: nat, count: nat, arrivals: seq<Block>)
    requires AllStored(arrivals, count) && NoneEmpty(Gathered(index, count, arrivals).blocks)
    ensures |SlotsHit(arrivals)| == count
  {
    var blocks := Gathered(index, count, arrivals).blocks;
    forall b: nat | b < count
      ensures b in SlotsHit(arrivals)
    {
      assert blocks[b] in arrivals && SlotOfBlock(blocks[b]) == b;
    }
    SizeOfBounded(SlotsHit(arrivals), count);
  }

  /** The content in two blocks that were not cut as requested, each for its own slot. */
  function Uneven(index: nat, full: seq<byte>): Piece
    requires |full| == MOST_REQUEST_SIZE + 1
  {
    Store(Store(NewPiece(index, BlockCount(|full|)), 0, full[..1]), MOST_REQUEST_SIZE, full[1..])
  }

  /** Blocks of one byte and of 2^14 bytes complete a piece of 2^14 + 1 bytes with the content its
      hash promises, whatever that is, and writing it leaves the vectors at its third byte. */
  lemma UnevenBlocks(index: nat, full: seq<byte>)
    requires |full| == MOST_REQUEST_SIZE + 1
    ensures var piece := Uneven(index, full);
      && |full[1..]| <= MOST_REQUEST_SIZE && piece.currentBlocksNum == piece.blockCount
      && Concat(piece.blocks) == full && Ascending(piece.blocks)
      && !Indexable(piece.blocks, 2) && !Regular(piece.blocks)
  {
    var blocks := Uneven(index, full).blocks;
    assert blocks == [Block(full[..1], 0), Block(full[1..], MOST_REQUEST_SIZE)];
    assert blocks[..1] == [blocks[0]] && blocks[..1][..0] == [];
    assert Concat(blocks[..1]) == full[..1];
    assert full[..1] + full[1..] == full;
    AlwaysIndexable(blocks);
  }
}
