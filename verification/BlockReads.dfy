/** Blocks that leave their piece: `ReadPieceBlockFromFile` is given whatever begin and length a
    peer asked for, and this is how far it reads. */
module BlockReads {
  import opened Common
  import opened Pieces
  import opened Layout
  import opened Storage

  /** Where the bytes that the last segment of a piece yields end, counted in the piece: where
      its recorded size ends. */
  function Reach(segs: seq<FileInfo>): int
    requires |segs| > 0
  {
    var last := segs[|segs| - 1];
    last.pieceBegin + last.size - last.fileBegin
  }

  /** The request stays inside the piece, or begins there and is cut at its end because its last
      file ends with it. An empty request stays anywhere. */
  predicate StaysInside(meta: MetaInfo, p: nat, segs: seq<FileInfo>, begin: nat, length: nat)
    requires |segs| > 0
  {
    || length == 0
    || begin + length <= meta.PieceLen(p)
    || (begin < meta.PieceLen(p) && Reach(segs) == meta.PieceLen(p))
  }

  lemma WrapNegative(x: int, length: nat)
    requires -(TWO_TO_THE_64 - TWO_TO_THE_32) < x <= 0 && 0 < length < TWO_TO_THE_32
    ensures Wrap64(x) == 0 || Wrap64(x) >= length
  {
  }

  /** After the first piece of a single file the subtraction never cuts a read. */
  lemma SingleUncut(s: FileInfo, p: nat, begin: Word32, length: Word32)
    requires p > 0 && 0 < length
    requires 0 < s.size && s.fileBegin == Offset(s.size, p) < 0x8000_0000_0000_0000
    ensures ReadLen(s, begin, length) == length
  {
    OffsetMono(s.size, 1, p);
    assert Offset(s.size, 1) == Offset(s.size, 0) + s.size == s.size;
    WrapNegative(s.size - s.fileBegin - begin, length);
  }

  lemma CutRead(s: FileInfo, begin: Word32, length: Word32)
    requires 0 < length && 0 < s.size - s.fileBegin - begin < TWO_TO_THE_64
    ensures ReadLen(s, begin, length) == Min(s.size - s.fileBegin - begin, length)
  {
  }

  /** The piece is not the first of a single file. */
  predicate Uncut(meta: MetaInfo, p: nat) {
    meta.SingleFile? && p > 0
  }

  /** What a segment has left of its recorded size. */
  function Left(s: FileInfo, begin: nat): int {
    s.size - s.fileBegin - begin
  }

  /** A read takes what is left of the recorded size or all it was asked for. */
  lemma ReadLenCut(meta: MetaInfo, p: nat, s: FileInfo, begin: Word32, length: Word32)
    requires meta.WellFormed() && SegmentOk(meta, p, s) && !Uncut(meta, p) && 0 < length && 0 < Left(s, begin)
    ensures ReadLen(s, begin, length) == Min(Left(s, begin), length)
  {
    if meta.SingleFile? {
      assert s.size == meta.pieceLength;
    } else {
      MultiBase(meta, p, s);
    }
    CutRead(s, begin, length);
  }

  lemma OneSegmentOnly(meta: MetaInfo, p: nat, segs: seq<FileInfo>)
    requires meta.WellFormed() && meta.SingleFile? && p < meta.pieceCount && Chain(meta, p, segs)
    ensures |segs| == 1
  {
    hide Chain, MetaInfo.WellFormed;
    FileBegins(meta, p, segs);
    ChainStep(meta, p, segs, 0);
    if |segs| > 1 {
      ChainStep(meta, p, segs, 1);
      PieceInside(meta, p);
      SingleSpan(meta, p, segs[0]);
    }
  }

  lemma SingleSpan(meta: MetaInfo, p: nat, s: FileInfo)
    requires meta.WellFormed() && meta.SingleFile? && SegmentOk(meta, p, s) && s.pieceBegin == 0 && 0 < meta.PieceLen(p)
    ensures Span(meta, s) == meta.PieceLen(p) && s.size == meta.pieceLength && s.fileBegin == Offset(s.size, p)
  {
    SingleBase(meta, p, s);
  }

  /** What a segment that is not the last has left ends where the next one begins, and that one
      has something left. */
  lemma LeftStep(meta: MetaInfo, p: nat, segs: seq<FileInfo>, j: nat)
    requires meta.WellFormed() && p < meta.pieceCount && Chain(meta, p, segs) && j < |segs|
    ensures SegmentOk(meta, p, segs[j]) && 0 <= segs[j].pieceBegin && 0 <= segs[j].fileBegin
    ensures j + 1 < |segs| ==>
      && segs[j].pieceBegin + Left(segs[j], 0) == segs[j + 1].pieceBegin
      && segs[j + 1].fileBegin == 0 && 0 < Left(segs[j + 1], 0)
  {
    ChainStep(meta, p, segs, j);
    if j + 1 < |segs| {
      if meta.SingleFile? {
        OneSegmentOnly(meta, p, segs);
      } else {
        ChainStep(meta, p, segs, j + 1);
      }
    }
  }

  lemma {:induction false} ReachAhead(meta: MetaInfo, p: nat, segs: seq<FileInfo>, j: nat)
    requires meta.WellFormed() && p < meta.pieceCount && Chain(meta, p, segs) && j < |segs|
    ensures segs[j].pieceBegin + Left(segs[j], 0) <= Reach(segs)
    ensures j + 1 < |segs| ==> segs[j].pieceBegin + Left(segs[j], 0) < Reach(segs)
    decreases |segs| - j
  {
    hide Chain, MetaInfo.WellFormed, SegmentOk;
    LeftStep(meta, p, segs, j);
    if j + 1 < |segs| {
      ReachAhead(meta, p, segs, j + 1);
    }
  }

  /** A read that goes on at segment `it` ends where it was asked to end or at the reach of the
      piece, and asking for more than that makes no difference. */
  lemma {:induction false} ReadEnds(meta: MetaInfo, p: nat, segs: seq<FileInfo>, got: seq<byte>, it: nat, beg: Word32,
                                    rest: Word32, disk: Disk)
    requires meta.WellFormed() && p < meta.pieceCount && Chain(meta, p, segs) && !Uncut(meta, p)
    requires it < |segs| && 0 < Left(segs[it], beg)
    ensures BeginsKnown(segs)
    ensures 0 < Reach(segs) - segs[it].pieceBegin - beg
    ensures var n := Min(rest, Reach(segs) - segs[it].pieceBegin - beg);
      && |ReadFrom(got, segs, it, beg, rest, disk)| == |got| + n
      && ReadFrom(got, segs, it, beg, rest, disk) == ReadFrom(got, segs, it, beg, n, disk)
    decreases |segs| - it
  {
    hide Chain, MetaInfo.WellFormed, SegmentOk, ReadLen, FileSlice, Reach;
    FileBegins(meta, p, segs);
    LeftStep(meta, p, segs, it);
    ReachAhead(meta, p, segs, it);
    LastReach(segs);
    if rest > 0 {
      var s := segs[it];
      var m := Min(rest, Reach(segs) - s.pieceBegin - beg);
      ReadLenCut(meta, p, s, beg, rest);
      ReadLenCut(meta, p, s, beg, m);
      var n := ReadLen(s, beg, rest);
      var data := FileSlice(Contents(disk, s.path), s.fileBegin + beg, n);
      SliceLength(Contents(disk, s.path), s.fileBegin + beg, n);
      if n < rest && it + 1 < |segs| {
        ReadEnds(meta, p, segs, got + data, it + 1, 0, rest - n, disk);
      }
    }
  }

  lemma LastReach(segs: seq<FileInfo>)
    requires |segs| > 0
    ensures Reach(segs) == segs[|segs| - 1].pieceBegin + Left(segs[|segs| - 1], 0)
  {
  }

  lemma SliceLength(file: seq<byte>, at: nat, n: nat)
    ensures |FileSlice(file, at, n)| == n
  {
  }

  lemma {:induction false} ReadsSomething(segs: seq<FileInfo>, got: seq<byte>, it: nat, beg: nat, rest: nat, disk: Disk)
    requires BeginsKnown(segs)
    ensures |ReadFrom(got, segs, it, beg, rest, disk)| >= |got|
    ensures it < |segs| && rest > 0 ==> |ReadFrom(got, segs, it, beg, rest, disk)| > |got|
    decreases |segs| - it
  {
    if it < |segs| && rest > 0 {
      var n := ReadLen(segs[it], beg, rest);
      var data := FileSlice(Contents(disk, segs[it].path), segs[it].fileBegin + beg, n);
      ReadsSomething(segs, got + data, it + 1, 0, rest - n, disk);
    }
  }

  /** Where a read that begins in the piece starts. */
  lemma StartsInside(meta: MetaInfo, p: nat, segs: seq<FileInfo>, begin: nat)
    requires meta.WellFormed() && p < meta.pieceCount && !Uncut(meta, p)
    requires Chain(meta, p, segs) && ChainEnd(meta, segs) == meta.PieceLen(p) && begin < meta.PieceLen(p)
    ensures var it := SegmentAt(meta, p, segs, begin); 0 < Left(segs[it], begin - segs[it].pieceBegin)
    ensures meta.PieceLen(p) <= Reach(segs)
  {
    hide Chain, MetaInfo.WellFormed, SegmentOk, MetaInfo.PieceLen, ChainEnd;
    var it := SegmentAt(meta, p, segs, begin);
    ChainStep(meta, p, segs, it);
    SpanLeft(meta, p, segs[it]);
    LastSpan(meta, p, segs);
  }

  lemma SpanLeft(meta: MetaInfo, p: nat, s: FileInfo)
    requires meta.WellFormed() && SegmentOk(meta, p, s) && !Uncut(meta, p)
    requires meta.SingleFile? ==> s.pieceBegin == 0
    ensures Span(meta, s) <= Left(s, 0)
  {
    if meta.SingleFile? {
      SingleBase(meta, p, s);
    } else {
      MultiBase(meta, p, s);
    }
  }

  lemma LastSpan(meta: MetaInfo, p: nat, segs: seq<FileInfo>)
    requires meta.WellFormed() && Chain(meta, p, segs) && !Uncut(meta, p)
    ensures |segs| > 0 && ChainEnd(meta, segs) <= Reach(segs)
  {
    hide Chain, MetaInfo.WellFormed, SegmentOk, Span;
    FileBegins(meta, p, segs);
    ChainStep(meta, p, segs, |segs| - 1);
    SpanLeft(meta, p, segs[|segs| - 1]);
  }

  /** A piece after the first of a single file: every read yields all it was asked for, and its
      one segment reaches nowhere into the piece. */
  lemma UncutFetch(meta: MetaInfo, p: nat, segs: seq<FileInfo>, begin: Word32, length: Word32, disk: Disk)
    requires meta.WellFormed() && p < meta.pieceCount && Uncut(meta, p) && Chain(meta, p, segs)
    ensures |segs| == 1 && Reach(segs) <= 0
    ensures |Fetched(meta, p, segs, begin, length, disk)| == length
  {
    hide Chain, MetaInfo.WellFormed, SegmentOk, ReadLen, FileSlice;
    OneSegmentOnly(meta, p, segs);
    ChainStep(meta, p, segs, 0);
    FileBegins(meta, p, segs);
    PieceInside(meta, p);
    SingleSpan(meta, p, segs[0]);
    SingleBase(meta, p, segs[0]);
    OffsetMono(segs[0].size, 1, p);
    assert Offset(segs[0].size, 1) == Offset(segs[0].size, 0) + segs[0].size;
    if length > 0 {
      SingleUncut(segs[0], p, begin, length);
    }
    OneRead(segs, begin, length, disk);
  }

  lemma OneRead(segs: seq<FileInfo>, begin: nat, length: nat, disk: Disk)
    requires |segs| == 1 && segs[0].fileBegin >= 0 && (length > 0 ==> ReadLen(segs[0], begin, length) == length)
    ensures |ReadFrom([], segs, 0, begin, length, disk)| == length
  {
    hide ReadLen, FileSlice;
    SliceLength(Contents(disk, segs[0].path), segs[0].fileBegin + begin, length);
  }

  /** How many bytes come back, wherever a read begins inside the piece; from anywhere at least
      one comes back if one was asked for. */
  lemma FetchedLength(meta: MetaInfo, p: nat, segs: seq<FileInfo>, begin: Word32, length: Word32, disk: Disk)
    requires meta.WellFormed() && p < meta.pieceCount
    requires Chain(meta, p, segs) && ChainEnd(meta, segs) == meta.PieceLen(p)
    ensures |segs| > 0
    ensures var bytes := Fetched(meta, p, segs, begin, length, disk);
      && (length == 0 <==> bytes == [])
      && (begin < meta.PieceLen(p) ==> |bytes| == if Uncut(meta, p) then length else Min(length, Reach(segs) - begin))
  {
    hide Chain, MetaInfo.WellFormed, SegmentOk, ReadLen, FileSlice, MetaInfo.PieceLen, ChainEnd, Reach, Left;
    FileBegins(meta, p, segs);
    var it := SegmentAt(meta, p, segs, begin);
    ReadsSomething(segs, [], it, begin - segs[it].pieceBegin, length, disk);
    if begin < meta.PieceLen(p) {
      if Uncut(meta, p) {
        UncutFetch(meta, p, segs, begin, length, disk);
      } else {
        StartsInside(meta, p, segs, begin);
        LeftStep(meta, p, segs, it);
        ReadEnds(meta, p, segs, [], it, begin - segs[it].pieceBegin, length, disk);
      }
    }
  }

  /** Asking for more than the reach of the piece makes no difference. */
  lemma FetchedCut(meta: MetaInfo, p: nat, segs: seq<FileInfo>, begin: Word32, length: Word32, disk: Disk)
    requires meta.WellFormed() && p < meta.pieceCount && !Uncut(meta, p)
    requires Chain(meta, p, segs) && ChainEnd(meta, segs) == meta.PieceLen(p) && begin < meta.PieceLen(p)
    ensures |segs| > 0 && begin < Reach(segs)
    ensures Fetched(meta, p, segs, begin, length, disk) ==
            Fetched(meta, p, segs, begin, Min(length, Reach(segs) - begin), disk)
  {
    hide Chain, MetaInfo.WellFormed, SegmentOk, ReadLen, FileSlice, MetaInfo.PieceLen, ChainEnd, Reach, Left;
    FileBegins(meta, p, segs);
    StartsInside(meta, p, segs, begin);
    var it := SegmentAt(meta, p, segs, begin);
    LeftStep(meta, p, segs, it);
    ReadEnds(meta, p, segs, [], it, begin - segs[it].pieceBegin, length, disk);
  }

  /** The bytes of an answer lie in the window of the piece exactly if the request stays inside,
      and then they are the bytes of the flat string there. */
  lemma FetchedStaysInside(meta: MetaInfo, p: nat, segs: seq<FileInfo>, begin: Word32, length: Word32, disk: Disk)
    requires meta.WellFormed() && p < meta.pieceCount
    requires Chain(meta, p, segs) && ChainEnd(meta, segs) == meta.PieceLen(p)
    ensures |segs| > 0
    ensures var bytes := Fetched(meta, p, segs, begin, length, disk);
      && (StaysInside(meta, p, segs, begin, length) <==> bytes == [] || begin + |bytes| <= meta.PieceLen(p))
      && (StaysInside(meta, p, segs, begin, length) && bytes != [] ==>
            && Offset(meta.pieceLength, p) + begin + |bytes| <= meta.Total()
            && bytes == Slice(FlatOf(meta.Files(), disk), Offset(meta.pieceLength, p) + begin, |bytes|))
  {
    hide Chain, MetaInfo.WellFormed, MetaInfo.PieceLen, ChainEnd, Reach, Fetched, FlatOf, Slice, Uncut;
    FileBegins(meta, p, segs);
    PieceInside(meta, p);
    FetchedLength(meta, p, segs, begin, length, disk);
    if begin < meta.PieceLen(p) {
      if Uncut(meta, p) {
        UncutFetch(meta, p, segs, begin, length, disk);
      } else {
        StartsInside(meta, p, segs, begin);
        FetchedCut(meta, p, segs, begin, length, disk);
      }
      if begin + length <= meta.PieceLen(p) {
        FetchedIsSlice(meta, p, segs, begin, length, disk);
      } else if Reach(segs) == meta.PieceLen(p) {
        FetchedIsSlice(meta, p, segs, begin, meta.PieceLen(p) - begin, disk);
      }
    }
  }

  /** Two pieces of 16 bytes in one file: a block of 32 bytes asked of the second piece is
      completed with what is in the file behind it. */
  lemma ReadPastThePiece(disk: Disk)
    ensures var s := FileInfo("f", 1, 0, 16, 16);
      && ReadLen(s, 0, 32) == 32
      && ReadFrom([], [s], 0, 0, 32, disk) == FileSlice(Contents(disk, "f"), 16, 32)
      && ReadFrom([], [s], 0, 0, 32, disk)[16..] == FileSlice(Contents(disk, "f"), 32, 16)
  {
    var s := FileInfo("f", 1, 0, 16, 16);
    CutNothing(s);
    hide ReadLen, FileSlice, Contents;
    OneSegment(s, 32, disk);
    SliceTail(Contents(disk, "f"));
  }

  lemma OneSegment(s: FileInfo, n: nat, disk: Disk)
    requires s.fileBegin >= 0 && BeginsKnown([s]) && ReadLen(s, 0, n) == n > 0
    ensures ReadFrom([], [s], 0, 0, n, disk) == FileSlice(Contents(disk, s.path), s.fileBegin, n)
  {
    hide ReadLen, FileSlice, Contents;
    var block := FileSlice(Contents(disk, s.path), s.fileBegin, n);
    assert [] + block == block;
    assert ReadFrom(block, [s], 1, 0, 0, disk) == block;
  }

  lemma SliceTail(file: seq<byte>)
    ensures FileSlice(file, 16, 32)[16..] == FileSlice(file, 32, 16)
  {
  }

  lemma CutNothing(s: FileInfo)
    requires s.fileBegin == s.size
    ensures ReadLen(s, 0, 32) == 32
  {
  }
}
