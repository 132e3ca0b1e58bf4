/** Putting a piece together from blocks that arrive in any order. */
module Assembly {
  import opened Pieces
  import opened Requests

  /** What the posted part of `OnPieceBlock` does to the active piece. */
  function Store(piece: Piece, begin: nat, data: seq<byte>): Piece
    requires begin / MOST_REQUEST_SIZE < |piece.blocks|
  {
    piece.(blocks := piece.blocks[begin / MOST_REQUEST_SIZE := Block(data, begin)],
           currentBlocksNum := piece.currentBlocksNum + 1)
  }

  /** The bytes of block b of a piece whose content is `full`. */
  function BlockBytes(full: seq<byte>, b: nat): (r: seq<byte>)
    requires b < BlockCount(|full|)
    ensures |r| == BlockLen(|full|, b) > 0
  {
    full[b * MOST_REQUEST_SIZE..b * MOST_REQUEST_SIZE + BlockLen(|full|, b)]
  }

  /** The slots in `done` hold their blocks of `full`, the others are empty, and the counter is
      the number of filled slots. */
  ghost predicate Holds(piece: Piece, full: seq<byte>, done: set<nat>) {
    && |piece.blocks| == piece.blockCount == BlockCount(|full|)
    && piece.currentBlocksNum == |done|
    && (forall b :: b in done ==> b < piece.blockCount)
    && forall b: nat :: b < piece.blockCount ==>
         piece.blocks[b] == if b in done then Block(BlockBytes(full, b), b * MOST_REQUEST_SIZE) else EMPTY_BLOCK
  }

  lemma NothingYet(index: nat, full: seq<byte>)
    ensures Holds(NewPiece(index, BlockCount(|full|)), full, {})
  {
  }

  /** A block that was not there yet fills its slot and counts once. */
  lemma StoreFills(piece: Piece, full: seq<byte>, done: set<nat>, b: nat)
    requires Holds(piece, full, done) && b < piece.blockCount && b !in done
    ensures |piece.blocks| == piece.blockCount
    ensures Holds(Store(piece, b * MOST_REQUEST_SIZE, BlockBytes(full, b)), full, done + {b})
    ensures Store(piece, b * MOST_REQUEST_SIZE, BlockBytes(full, b)).index == piece.index
  {
  }

  lemma {:induction false} SizeOfBounded(s: set<nat>, n: nat)
    requires forall x :: x in s ==> x < n
    ensures |s| <= n
    ensures |s| == n <==> forall x: nat :: x < n ==> x in s
  {
    if n > 0 {
      var t := s - {n - 1};
      SizeOfBounded(t, n - 1);
      assert n - 1 !in s ==> s == t;
      if forall x: nat :: x < n ==> x in s {
        assert forall x: nat :: x < n - 1 ==> x in t;
      }
    } else {
      assert s == {};
    }
  }

  /** The counter reaches `block_count` exactly when every slot is filled. */
  lemma CompleteWhenFull(piece: Piece, full: seq<byte>, done: set<nat>)
    requires Holds(piece, full, done)
    ensures piece.currentBlocksNum == piece.blockCount <==> forall b: nat :: b < piece.blockCount ==> b in done
  {
    SizeOfBounded(done, piece.blockCount);
  }

  /** Begins ascend strictly from slot to slot. */
  ghost predicate Ascending(blocks: seq<Block>) {
    forall i, j :: 0 <= i < j < |blocks| ==> blocks[i].begin < blocks[j].begin
  }

  /** A full piece is the content cut into blocks: its concatenation is the content, and its
      bytes can be addressed through the first block's size. */
  lemma FullPiece(piece: Piece, full: seq<byte>, done: set<nat>)
    requires Holds(piece, full, done) && |full| > 0 && piece.currentBlocksNum == piece.blockCount
    ensures Concat(piece.blocks) == full && Uniform(piece.blocks) && Ascending(piece.blocks)
  {
    CompleteWhenFull(piece, full, done);
    forall b: nat | b < piece.blockCount
      ensures piece.blocks[b] == Block(BlockBytes(full, b), b * MOST_REQUEST_SIZE)
    {
    }
    CutConcat(piece.blocks, full, piece.blockCount);
    assert piece.blocks[..piece.blockCount] == piece.blocks;
  }

  lemma {:induction false} CutConcat(blocks: seq<Block>, full: seq<byte>, n: nat)
    requires |blocks| == BlockCount(|full|) && n <= |blocks|
    requires forall b: nat :: b < |blocks| ==> blocks[b].data == BlockBytes(full, b)
    ensures var m := if n * MOST_REQUEST_SIZE <= |full| then n * MOST_REQUEST_SIZE else |full|;
            Concat(blocks[..n]) == full[..m]
  {
    if n > 0 {
      CutConcat(blocks, full, n - 1);
      assert blocks[..n][..n - 1] == blocks[..n - 1];
    }
  }

  /** The content's blocks arriving in the order given. */
  function Deliver(piece: Piece, full: seq<byte>, order: seq<nat>): Piece
    requires |piece.blocks| == BlockCount(|full|)
    requires forall i :: 0 <= i < |order| ==> order[i] < BlockCount(|full|)
    ensures |Deliver(piece, full, order).blocks| == |piece.blocks|
  {
    if order == [] then piece
    else
      var b := order[|order| - 1];
      Store(Deliver(piece, full, order[..|order| - 1]), b * MOST_REQUEST_SIZE, BlockBytes(full, b))
  }

  function Elements(order: seq<nat>): (r: set<nat>)
    ensures forall b :: b in r <==> b in order
  {
    if order == [] then {} else Elements(order[..|order| - 1]) + {order[|order| - 1]}
  }

  lemma {:induction false} Delivered(index: nat, full: seq<byte>, order: seq<nat>)
    requires forall i :: 0 <= i < |order| ==> order[i] < BlockCount(|full|)
    requires forall i, j :: 0 <= i < j < |order| ==> order[i] != order[j]
    ensures Holds(Deliver(NewPiece(index, BlockCount(|full|)), full, order), full, Elements(order))
    ensures |Elements(order)| == |order|
    ensures Deliver(NewPiece(index, BlockCount(|full|)), full, order).index == index
  {
    hide Holds, BlockCount, Store, BlockBytes;
    NothingYet(index, full);
    if order != [] {
      var front, b := order[..|order| - 1], order[|order| - 1];
      Delivered(index, full, front);
      Slots(Deliver(NewPiece(index, BlockCount(|full|)), full, front), full, Elements(front));
      StoreFills(Deliver(NewPiece(index, BlockCount(|full|)), full, front), full, Elements(front), b);
    }
  }

  lemma Slots(piece: Piece, full: seq<byte>, done: set<nat>)
    requires Holds(piece, full, done)
    ensures |piece.blocks| == piece.blockCount == BlockCount(|full|) && piece.currentBlocksNum == |done|
  {
  }

  /** Every request answered once, in any order: after k blocks the counter is k, so it reaches
      `block_count` on the last block and at no other, and then the piece is the content. */
  lemma {:induction false} AnyOrder(index: nat, full: seq<byte>, order: seq<nat>, k: nat)
    requires |full| > 0 && |order| == BlockCount(|full|) && k <= |order|
    requires forall i :: 0 <= i < |order| ==> order[i] < BlockCount(|full|)
    requires forall i, j :: 0 <= i < j < |order| ==> order[i] != order[j]
    ensures var piece := Deliver(NewPiece(index, BlockCount(|full|)), full, order[..k]);
            && piece.index == index
            && piece.currentBlocksNum == k
            && (piece.currentBlocksNum == piece.blockCount <==> k == |order|)
            && (k == |order| ==> Concat(piece.blocks) == full && Uniform(piece.blocks) && Ascending(piece.blocks))
  {
    hide Holds, BlockCount, Uniform, Ascending, Deliver, NewPiece;
    var piece := Deliver(NewPiece(index, BlockCount(|full|)), full, order[..k]);
    Delivered(index, full, order[..k]);
    Slots(piece, full, Elements(order[..k]));
    if k == |order| {
      FullPiece(piece, full, Elements(order[..k]));
    }
  }

  lemma TailBag(s: seq<Block>)
    requires s != []
    ensures multiset(s[1..]) == multiset(s) - multiset{s[0]}
  {
    assert s == [s[0]] + s[1..];
  }

  lemma {:induction false} SameHead(blocks: seq<Block>, sorted: seq<Block>)
    requires Ascending(blocks) && multiset(sorted) == multiset(blocks) && blocks != [] && sorted != []
    requires forall i, j :: 0 <= i < j < |sorted| ==> sorted[i].begin <= sorted[j].begin
    ensures sorted[0] == blocks[0]
    ensures multiset(sorted[1..]) == multiset(blocks[1..])
  {
    assert blocks[0] in multiset(sorted) && sorted[0] in multiset(blocks);
    assert blocks[0] in sorted && sorted[0] in blocks;
    TailBag(sorted);
    TailBag(blocks);
  }

  /** Sorting an assembled piece by `begin`, however the sort treats ties, changes nothing. */
  lemma {:induction false} SortChangesNothing(blocks: seq<Block>, sorted: seq<Block>)
    requires Ascending(blocks) && multiset(sorted) == multiset(blocks)
    requires forall i, j :: 0 <= i < j < |sorted| ==> sorted[i].begin <= sorted[j].begin
    ensures sorted == blocks
  {
    assert |sorted| == |multiset(sorted)| == |multiset(blocks)| == |blocks|;
    if blocks != [] {
      SameHead(blocks, sorted);
      SortChangesNothing(blocks[1..], sorted[1..]);
    }
  }

  /** The slots that hold a block. */
  ghost function FilledSlots(piece: Piece): set<nat> {
    set b: nat | b < |piece.blocks| && piece.blocks[b] != EMPTY_BLOCK
  }

  /** A piece of length `len` under assembly, whatever bytes the blocks carry: each filled slot
      has its own begin and length, and the counter counts the filled slots. */
  ghost predicate Partial(piece: Piece, len: nat) {
    && |piece.blocks| == piece.blockCount == BlockCount(len)
    && piece.currentBlocksNum == |FilledSlots(piece)|
    && forall b: nat :: b in FilledSlots(piece) ==>
         piece.blocks[b].begin == b * MOST_REQUEST_SIZE && |piece.blocks[b].data| == BlockLen(len, b)
  }

  /** A piece that can be checked and written: all slots there, cut as requested. */
  ghost predicate Assembled(piece: Piece, len: nat) {
    Uniform(piece.blocks) && |Concat(piece.blocks)| == len && Ascending(piece.blocks)
  }

  lemma NewIsPartial(index: nat, len: nat)
    ensures Partial(NewPiece(index, BlockCount(len)), len)
  {
    assert FilledSlots(NewPiece(index, BlockCount(len))) == {};
  }

  /** Storing a block of the right length in an empty slot. */
  lemma StoreKeepsPartial(piece: Piece, len: nat, b: nat, data: seq<byte>)
    requires Partial(piece, len) && b < |piece.blocks| && piece.blocks[b] == EMPTY_BLOCK && |data| == BlockLen(len, b)
    ensures Partial(Store(piece, b * MOST_REQUEST_SIZE, data), len)
  {
    assert FilledSlots(Store(piece, b * MOST_REQUEST_SIZE, data)) == FilledSlots(piece) + {b};
  }

  lemma {:induction false} CutLength(blocks: seq<Block>, len: nat, n: nat)
    requires |blocks| == BlockCount(len) && n <= |blocks|
    requires forall b: nat :: b < |blocks| ==> |blocks[b].data| == BlockLen(len, b)
    ensures |Concat(blocks[..n])| == if n * MOST_REQUEST_SIZE <= len then n * MOST_REQUEST_SIZE else len
  {
    if n > 0 {
      CutLength(blocks, len, n - 1);
      assert blocks[..n][..n - 1] == blocks[..n - 1];
    }
  }

  /** When the counter reaches `block_count` the piece is ready for checking. */
  lemma CompleteIsAssembled(piece: Piece, len: nat)
    requires Partial(piece, len) && 0 < len && piece.currentBlocksNum == piece.blockCount
    ensures Assembled(piece, len)
  {
    SizeOfBounded(FilledSlots(piece), piece.blockCount);
    forall b: nat | b < |piece.blocks|
      ensures piece.blocks[b].begin == b * MOST_REQUEST_SIZE && |piece.blocks[b].data| == BlockLen(len, b)
    {
      assert b in FilledSlots(piece);
    }
    CutLength(piece.blocks, len, |piece.blocks|);
    assert piece.blocks[..|piece.blocks|] == piece.blocks;
  }
}
