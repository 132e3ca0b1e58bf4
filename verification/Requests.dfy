/** The block requests of a piece: the batched request loop of `TryToRequestPiece`, the cancel
    loop that mirrors it, and what happens when a batch does not cover the piece. */
module Requests {
  import opened Common
  import opened Pieces

  const REQUEST_MAX_QUEUE_SIZE: nat := 150

  /** Bytes in a full batch of requests. */
  const BATCH: nat := REQUEST_MAX_QUEUE_SIZE * MOST_REQUEST_SIZE

  /** A stretch of a piece that is asked for, or whose request is taken back. */
  datatype Range = Range(index: nat, begin: nat, length: nat)

  /** The blocks of [lo, hi): full blocks, then what is left. */
  function Tiling(index: nat, lo: nat, hi: nat): seq<Range>
    requires lo <= hi
    decreases hi - lo
  {
    if lo == hi then []
    else if hi - lo <= MOST_REQUEST_SIZE then [Range(index, lo, hi - lo)]
    else [Range(index, lo, MOST_REQUEST_SIZE)] + Tiling(index, lo + MOST_REQUEST_SIZE, hi)
  }

  /** How far one call gets when `size` bytes seem to remain. */
  function BatchBytes(size: nat): nat {
    if size <= BATCH then size else BATCH
  }

  /** What one call sends from offset `begin`. A piece of size 0 still gets one empty request. */
  function Batch(index: nat, begin: nat, size: nat): seq<Range> {
    if size == 0 then [Range(index, begin, 0)] else Tiling(index, begin, begin + BatchBytes(size))
  }

  /** What `cancel_piece` sends. */
  function Cancels(index: nat, size: nat): seq<Range> {
    if size == 0 then [Range(index, 0, 0)] else Tiling(index, 0, size)
  }

  /** `ceil(size / 2^14)`. */
  function BlockCount(size: nat): nat {
    (size + MOST_REQUEST_SIZE - 1) / MOST_REQUEST_SIZE
  }

  /** The length of block b of a piece. */
  function BlockLen(size: nat, b: nat): nat
    requires b < BlockCount(size)
  {
    if b == BlockCount(size) - 1 then size - b * MOST_REQUEST_SIZE else MOST_REQUEST_SIZE
  }

  /** Block by block, in order and aligned: there are `block_count` of them, none longer than
      2^14, and each one starts where the one before ends. */
  lemma {:induction false} TilingBlocks(index: nat, lo: nat, hi: nat)
    requires lo <= hi
    ensures |Tiling(index, lo, hi)| == BlockCount(hi - lo)
    ensures forall b ::
              0 <= b < BlockCount(hi - lo) ==>
                Tiling(index, lo, hi)[b] == Range(index, lo + b * MOST_REQUEST_SIZE, BlockLen(hi - lo, b))
    decreases hi - lo
  {
    if hi - lo > MOST_REQUEST_SIZE {
      TilingBlocks(index, lo + MOST_REQUEST_SIZE, hi);
      var rest := Tiling(index, lo + MOST_REQUEST_SIZE, hi);
      forall b | 0 <= b < BlockCount(hi - lo)
        ensures Tiling(index, lo, hi)[b] == Range(index, lo + b * MOST_REQUEST_SIZE, BlockLen(hi - lo, b))
      {
        if b > 0 {
          assert Tiling(index, lo, hi)[b] == rest[b - 1];
        }
      }
    }
  }

  /** Every byte of [lo, hi) is in exactly one range of the tiling, and no range leaves it. */
  lemma TilingOnce(index: nat, lo: nat, hi: nat, x: nat) returns (b: nat)
    requires lo <= x < hi
    ensures b < |Tiling(index, lo, hi)|
    ensures forall k :: 0 <= k < |Tiling(index, lo, hi)| ==>
              var r := Tiling(index, lo, hi)[k];
              && lo <= r.begin && 0 < r.length <= MOST_REQUEST_SIZE && r.begin + r.length <= hi
              && (r.begin <= x < r.begin + r.length <==> k == b)
  {
    TilingBlocks(index, lo, hi);
    b := (x - lo) / MOST_REQUEST_SIZE;
  }

  /** What the 32-bit parameters of `send_request` and `send_cancel` leave of a range. */
  function OnWire(r: Range): Range {
    Range(r.index % TWO_TO_THE_32, r.begin % TWO_TO_THE_32, r.length % TWO_TO_THE_32)
  }

  function Wire(ranges: seq<Range>): (r: seq<Range>)
    ensures |r| == |ranges|
  {
    seq(|ranges|, b requires 0 <= b < |ranges| => OnWire(ranges[b]))
  }

  /** The 32 bits of a message hold every request of a piece exactly if its index and its length
      are no more than they can count. */
  lemma RequestsFit(index: nat, size: nat)
    ensures Wire(Tiling(index, 0, size)) == Tiling(index, 0, size) <==>
            size == 0 || (index < TWO_TO_THE_32 && size <= TWO_TO_THE_32)
  {
    var ranges := Tiling(index, 0, size);
    TilingBlocks(index, 0, size);
    if size > 0 && index >= TWO_TO_THE_32 {
      assert Wire(ranges)[0].index != ranges[0].index;
    } else if size > TWO_TO_THE_32 {
      assert 262144 * MOST_REQUEST_SIZE == TWO_TO_THE_32;
      assert ranges[262144].begin == TWO_TO_THE_32;
      assert Wire(ranges)[262144].begin == 0;
    }
  }

  lemma {:induction false} TilingSplits(index: nat, lo: nat, mid: nat, hi: nat)
    requires lo <= mid <= hi && (mid - lo) % MOST_REQUEST_SIZE == 0
    ensures Tiling(index, lo, hi) == Tiling(index, lo, mid) + Tiling(index, mid, hi)
    decreases mid - lo
  {
    if lo < mid {
      TilingSplits(index, lo + MOST_REQUEST_SIZE, mid, hi);
      if mid == hi {
        assert Tiling(index, mid, hi) == [];
      }
    }
  }

  /** One call covers the piece, request by request, exactly if it has at most 150 blocks; a
      larger piece gets its first 150 blocks, all of them full. */
  lemma FirstBatch(index: nat, size: nat)
    requires size > 0
    ensures Batch(index, 0, size) == Tiling(index, 0, size) <==> BlockCount(size) <= REQUEST_MAX_QUEUE_SIZE
    ensures Batch(index, 0, size) == Cancels(index, size) <==> BlockCount(size) <= REQUEST_MAX_QUEUE_SIZE
    ensures BlockCount(size) > REQUEST_MAX_QUEUE_SIZE ==>
              && |Batch(index, 0, size)| == REQUEST_MAX_QUEUE_SIZE
              && Batch(index, 0, size) <= Tiling(index, 0, size)
              && forall r :: r in Batch(index, 0, size) ==> r.length == MOST_REQUEST_SIZE
  {
    TilingBlocks(index, 0, size);
    TilingBlocks(index, 0, BatchBytes(size));
  }

  /** `TryToRequestPiece` called again while the piece is active: it compares the cursor with
      the piece size and otherwise starts a batch as if the whole piece remained. */
  function Resumed(size: nat, begin: nat): nat {
    if size == begin then begin else begin + BatchBytes(size)
  }

  /** The cursor after the first call and k more. */
  function Cursor(size: nat, k: nat): nat {
    if k == 0 then BatchBytes(size) else Resumed(size, Cursor(size, k - 1))
  }

  /** Everything sent by the first call and k more. */
  function Emitted(index: nat, size: nat, k: nat): seq<Range> {
    if k == 0 then Batch(index, 0, size)
    else Emitted(index, size, k - 1) +
         if size == Cursor(size, k - 1) then [] else Batch(index, Cursor(size, k - 1), size)
  }

  lemma {:induction false} CursorOvershoots(size: nat, k: nat)
    requires size > BATCH && size % BATCH != 0
    ensures Cursor(size, k) == (k + 1) * BATCH
  {
    if k > 0 {
      CursorOvershoots(size, k - 1);
    }
  }

  lemma {:induction false} ExactCursor(size: nat, k: nat)
    requires 0 < size && (size <= BATCH || size % BATCH == 0)
    ensures Cursor(size, k) == if (k + 1) * BATCH <= size then (k + 1) * BATCH else size
  {
    if k > 0 {
      ExactCursor(size, k - 1);
    }
  }

  /** The cursor stands at the end of the piece after k resumptions exactly if one batch is enough
      or the piece is a whole number of full ones and all are sent. */
  lemma CursorMeets(size: nat, k: nat)
    ensures Cursor(size, k) == size <==> size <= BATCH || (size % BATCH == 0 && size <= (k + 1) * BATCH)
  {
    if size == 0 {
      EmptyRequest(0, k);
    } else if size <= BATCH || size % BATCH == 0 {
      ExactCursor(size, k);
    } else {
      CursorOvershoots(size, k);
    }
  }

  /** A piece of size 0 gets one request for no bytes, however often it is resumed. */
  lemma {:induction false} EmptyRequest(index: nat, k: nat)
    ensures Cursor(0, k) == 0 && Emitted(index, 0, k) == [Range(index, 0, 0)]
  {
    if k > 0 {
      EmptyRequest(index, k - 1);
    }
  }

  lemma BatchNotEmpty(index: nat, begin: nat, size: nat)
    ensures Batch(index, begin, size) != []
  {
  }

  /** A full batch ends with a full block. */
  lemma LastOfBatch(index: nat, lo: nat, size: nat) returns (r: Range)
    requires size > BATCH
    ensures r in Batch(index, lo, size) && r.begin + r.length == lo + BATCH
  {
    TilingBlocks(index, lo, lo + BATCH);
    assert BlockCount(BATCH) == REQUEST_MAX_QUEUE_SIZE;
    hide Tiling, BlockCount;
    r := Batch(index, lo, size)[REQUEST_MAX_QUEUE_SIZE - 1];
  }

  /** Some request reaches past the end of the piece. */
  lemma Overshoot(index: nat, size: nat) returns (k: nat, r: Range)
    requires size > BATCH && size % BATCH != 0
    ensures r in Emitted(index, size, k) && r.begin + r.length > size
  {
    k := size / BATCH;
    CursorOvershoots(size, k - 1);
    hide Batch, Tiling;
    r := LastOfBatch(index, Cursor(size, k - 1), size);
  }

  lemma CursorIs(size: nat, k: nat)
    requires size > 0
    ensures Cursor(size, k) == if (size > BATCH && size % BATCH != 0) || (k + 1) * BATCH <= size then (k + 1) * BATCH
                               else size
  {
    if size > BATCH && size % BATCH != 0 {
      CursorOvershoots(size, k);
    } else {
      ExactCursor(size, k);
    }
  }

  lemma {:induction false} CursorAligned(size: nat, k: nat)
    ensures size <= BATCH ==> Cursor(size, k) == size
    ensures size > BATCH ==> Cursor(size, k) % MOST_REQUEST_SIZE == 0
  {
    if k > 0 {
      CursorAligned(size, k - 1);
    }
  }

  /** The first call and k more send the blocks of the piece from its first byte up to the cursor,
      in order, each once. */
  lemma {:induction false} EmittedIsTiling(index: nat, size: nat, k: nat)
    requires size > 0
    ensures Emitted(index, size, k) == Tiling(index, 0, Cursor(size, k))
  {
    if k == 0 {
      EmittedFirst(index, size);
    } else {
      hide Tiling, Emitted, Cursor, BatchBytes, Batch;
      EmittedIsTiling(index, size, k - 1);
      EmittedNext(index, size, k - 1);
      CursorAligned(size, k - 1);
      if Cursor(size, k - 1) != size {
        BatchIsTiling(index, Cursor(size, k - 1), size);
        TilingSplits(index, 0, Cursor(size, k - 1), Cursor(size, k));
      }
    }
  }

  lemma BatchIsTiling(index: nat, begin: nat, size: nat)
    requires size > 0
    ensures Batch(index, begin, size) == Tiling(index, begin, begin + BatchBytes(size))
    ensures size > BATCH ==> BatchBytes(size) == BATCH
  {
  }

  lemma EmittedFirst(index: nat, size: nat)
    ensures Emitted(index, size, 0) == Batch(index, 0, size) && Cursor(size, 0) == BatchBytes(size)
  {
  }

  lemma EmittedNext(index: nat, size: nat, k: nat)
    ensures Cursor(size, k + 1) == Resumed(size, Cursor(size, k))
    ensures Emitted(index, size, k + 1) ==
            Emitted(index, size, k) + if size == Cursor(size, k) then [] else Batch(index, Cursor(size, k), size)
  {
  }

  /** However often `TryToRequestPiece` resumes an active piece, its requests stay inside the
      piece exactly if the piece has at most 150 blocks or is a whole number of full batches;
      then they end up covering all of it. */
  lemma ResumptionIsExact(index: nat, size: nat)
    requires size > 0
    ensures (forall k: nat, r: Range :: r in Emitted(index, size, k) ==> r.begin + r.length <= size) <==>
            (size <= BATCH || size % BATCH == 0)
    ensures size <= BATCH || size % BATCH == 0 ==>
              forall k: nat :: k >= size / BATCH ==> Emitted(index, size, k) == Tiling(index, 0, size)
  {
    if size <= BATCH || size % BATCH == 0 {
      forall k: nat
        ensures forall r :: r in Emitted(index, size, k) ==> r.begin + r.length <= size
        ensures k >= size / BATCH ==> Emitted(index, size, k) == Tiling(index, 0, size)
      {
        ExactlyInside(index, size, k);
      }
    } else {
      var k, r := Overshoot(index, size);
    }
  }

  lemma ExactlyInside(index: nat, size: nat, k: nat)
    requires 0 < size && (size <= BATCH || size % BATCH == 0)
    ensures forall r :: r in Emitted(index, size, k) ==> r.begin + r.length <= size
    ensures k >= size / BATCH ==> Emitted(index, size, k) == Tiling(index, 0, size)
  {
    CursorInside(size, k);
    hide Cursor, Tiling, Emitted, BlockCount, BlockLen;
    EmittedIsTiling(index, size, k);
    forall r | r in Emitted(index, size, k)
      ensures r.begin + r.length <= size
    {
      RangeInside(index, Cursor(size, k), r);
    }
  }

  lemma RangeInside(index: nat, hi: nat, r: Range)
    requires r in Tiling(index, 0, hi)
    ensures r.begin + r.length <= hi
  {
    TilingBlocks(index, 0, hi);
    hide Tiling;
  }

  lemma CursorInside(size: nat, k: nat)
    requires 0 < size && (size <= BATCH || size % BATCH == 0)
    ensures Cursor(size, k) <= size && (k >= size / BATCH ==> Cursor(size, k) == size)
  {
    ExactCursor(size, k);
    if k >= size / BATCH {
      MulMono(size / BATCH, k, BATCH);
      DivModIs(size, BATCH);
    }
  }

  lemma WireMore(index: nat, lo: nat, mid: nat, length: nat)
    requires lo <= mid && (mid - lo) % MOST_REQUEST_SIZE == 0 && 0 < length <= MOST_REQUEST_SIZE
    ensures Wire(Tiling(index, lo, mid)) + [OnWire(Range(index, mid, length))] == Wire(Tiling(index, lo, mid + length))
  {
    TilingSplits(index, lo, mid, mid + length);
    assert Tiling(index, mid, mid + length) == [Range(index, mid, length)];
    hide Tiling;
  }

  lemma WireNothing(index: nat, begin: nat)
    ensures Wire(Tiling(index, begin, begin)) == []
    ensures [] + [OnWire(Range(index, begin, 0))] == Wire([Range(index, begin, 0)])
  {
  }

  /** The request loop: at most 150 full blocks, then the rest if a request is left for it. */
  method SendBatch(index: nat, begin: nat, pieceSize: nat) returns (sent: seq<Range>, begin': nat)
    ensures sent == Wire(Batch(index, begin, pieceSize))
    ensures begin' == begin + BatchBytes(pieceSize)
  {
    hide Tiling, Wire, OnWire;
    WireNothing(index, begin);
    sent := [];
    begin' := begin;
    var size := pieceSize;
    var reqCount: int := REQUEST_MAX_QUEUE_SIZE;
    while true
      invariant 0 <= reqCount <= REQUEST_MAX_QUEUE_SIZE && 0 <= size <= pieceSize
      invariant begin' == begin + (pieceSize - size)
      invariant pieceSize - size == (REQUEST_MAX_QUEUE_SIZE - reqCount) * MOST_REQUEST_SIZE
      invariant reqCount < REQUEST_MAX_QUEUE_SIZE ==> size > 0
      invariant sent == Wire(Tiling(index, begin, begin'))
      decreases reqCount
    {
      if size <= MOST_REQUEST_SIZE {
        break;
      }
      reqCount := reqCount - 1;
      if reqCount < 0 {
        break;
      }
      WireMore(index, begin, begin', MOST_REQUEST_SIZE);
      sent := sent + [OnWire(Range(index, begin', MOST_REQUEST_SIZE))];
      size := size - MOST_REQUEST_SIZE;
      begin' := begin' + MOST_REQUEST_SIZE;
    }
    if reqCount > 0 {
      if size > 0 {
        WireMore(index, begin, begin', size);
      }
      sent := sent + [OnWire(Range(index, begin', size))];
      begin' := begin' + size;
    }
  }

  /** The cancel loop. */
  method SendCancels(index: nat, pieceSize: nat) returns (sent: seq<Range>)
    ensures sent == Wire(Cancels(index, pieceSize))
  {
    hide Tiling, Wire, OnWire;
    WireNothing(index, 0);
    sent := [];
    var begin := 0;
    var length := pieceSize;
    while length > MOST_REQUEST_SIZE
      invariant 0 <= length && begin + length == pieceSize && begin % MOST_REQUEST_SIZE == 0
      invariant begin > 0 ==> length > 0
      invariant sent == Wire(Tiling(index, 0, begin))
    {
      WireMore(index, 0, begin, MOST_REQUEST_SIZE);
      sent := sent + [OnWire(Range(index, begin, MOST_REQUEST_SIZE))];
      length := length - MOST_REQUEST_SIZE;
      begin := begin + MOST_REQUEST_SIZE;
    }
    if length > 0 {
      WireMore(index, 0, begin, length);
    }
    sent := sent + [OnWire(Range(index, begin, length))];
  }
}
