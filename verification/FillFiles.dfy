/** How the segment table grows, file by file, while `fill_files` runs over a multi-file
    torrent with the cursor (curPieceIndex, curPieceBegin). */
module FillFiles {
  import opened Layout

  /** `pieces_by_files_[p].emplace_back(s)`: operator[] creates the vector if it is missing. */
  function Push(table: PieceTable, p: nat, s: FileInfo): PieceTable {
    table[p := (if p in table then table[p] else []) + [s]]
  }

  ghost predicate ClosesFile(meta: MetaInfo, segs: seq<FileInfo>)
    requires |segs| > 0
  {
    var last := segs[|segs| - 1];
    last.fileBegin + Span(meta, last) == FileSize(meta.Files(), last.path)
  }

  /** The pieces before `upTo` are laid out in full. */
  ghost predicate FullBefore(meta: MetaInfo, table: PieceTable, upTo: nat) {
    forall p: nat :: p < upTo ==>
      p in table && Chain(meta, p, table[p]) && ChainEnd(meta, table[p]) == meta.pieceLength
  }

  /** After the first n files: the cursor is the number of bytes laid out so far, every piece
      before it is full, and its own piece ends at it. */
  ghost predicate Progress(meta: MetaInfo, n: nat, table: PieceTable, index: nat, begin: int) {
    && n <= |meta.Files()|
    && 0 <= begin <= meta.pieceLength
    && Offset(meta.pieceLength, index) + begin == Prefix(meta.Files(), n)
    && FullBefore(meta, table, index)
    && (forall p: nat :: p in table ==> n > 0 && p <= index)
    && (n > 0 ==>
          && index in table
          && Chain(meta, index, table[index])
          && ChainEnd(meta, table[index]) == begin
          && ClosesFile(meta, table[index]))
  }

  /** While file n is cut at piece boundaries: its last segment so far opens piece `index`. */
  ghost predicate Cutting(meta: MetaInfo, n: nat, table: PieceTable, index: nat, begin: int, fileBegin: int) {
    && n < |meta.Files()|
    && 0 <= fileBegin && 0 <= begin && fileBegin + begin == meta.Files()[n].size
    && Offset(meta.pieceLength, index) == Prefix(meta.Files(), n) + fileBegin
    && FullBefore(meta, table, index)
    && (forall p: nat :: p in table ==> p <= index)
    && index in table
    && table[index] == [FileInfo(meta.Files()[n].path, index, 0, fileBegin, meta.Files()[n].size)]
  }

  lemma ProgressStart(meta: MetaInfo)
    ensures Progress(meta, 0, map[], 0, 0)
  {
  }

  lemma ProgressCursor(meta: MetaInfo, n: nat, table: PieceTable, index: nat, begin: int)
    requires Progress(meta, n, table, index, begin)
    ensures 0 <= begin <= meta.pieceLength && Offset(meta.pieceLength, index) + begin == Prefix(meta.Files(), n)
  {
  }

  lemma Closes(meta: MetaInfo, segs: seq<FileInfo>)
    requires |segs| > 0 && ClosesFile(meta, segs)
    ensures segs[|segs| - 1].fileBegin + Span(meta, segs[|segs| - 1]) == FileSize(meta.Files(), segs[|segs| - 1].path)
  {
  }

  lemma ExtendChain(meta: MetaInfo, p: nat, segs: seq<FileInfo>, s: FileInfo)
    requires Chain(meta, p, segs) && ClosesFile(meta, segs)
    requires SegmentOk(meta, p, s) && s.fileBegin == 0 && s.pieceBegin == ChainEnd(meta, segs)
    ensures Chain(meta, p, segs + [s])
  {
    hide SegmentOk, Span, ClosesFile, FileSize;
    var all := segs + [s];
    assert ChainEnd(meta, segs) == segs[|segs| - 1].pieceBegin + Span(meta, segs[|segs| - 1]);
    Closes(meta, segs);
    forall j | 0 < j < |all|
      ensures all[j].fileBegin == 0 && all[j].pieceBegin == all[j - 1].pieceBegin + Span(meta, all[j - 1])
    {
      assert all[j - 1] == segs[j - 1];
    }
  }

  /** File n's first segment, at the cursor, is well placed and ends where the file or the piece does. */
  lemma CursorSegment(meta: MetaInfo, n: nat, index: nat, begin: int, s: FileInfo)
    requires meta.MultiFile? && Distinct(meta.Files()) && n < |meta.Files()|
    requires 0 <= begin <= meta.pieceLength && Offset(meta.pieceLength, index) + begin == Prefix(meta.Files(), n)
    requires s == FileInfo(meta.Files()[n].path, index, begin, 0, meta.Files()[n].size)
    ensures SegmentOk(meta, index, s)
    ensures s.pieceBegin + Span(meta, s) == Min(meta.pieceLength, begin + meta.Files()[n].size)
    ensures begin + meta.Files()[n].size <= meta.pieceLength ==>
              s.fileBegin + Span(meta, s) == FileSize(meta.Files(), s.path)
  {
    IndexOfIs(meta.Files(), n);
  }

  lemma PushElsewhere(meta: MetaInfo, table: PieceTable, index: nat, s: FileInfo)
    requires FullBefore(meta, table, index)
    ensures FullBefore(meta, Push(table, index, s), index)
  {
  }

  lemma OpenFile(meta: MetaInfo, n: nat, table: PieceTable, index: nat, begin: int, table': PieceTable)
    requires meta.MultiFile? && meta.WellFormed() && n < |meta.Files()| && Progress(meta, n, table, index, begin)
    requires table' == Push(table, index, FileInfo(meta.Files()[n].path, index, begin, 0, meta.Files()[n].size))
    ensures Chain(meta, index, table'[index])
    ensures ChainEnd(meta, table'[index]) == Min(meta.pieceLength, begin + meta.Files()[n].size)
    ensures begin + meta.Files()[n].size <= meta.pieceLength ==> ClosesFile(meta, table'[index])
    ensures FullBefore(meta, table', index)
    ensures forall p: nat :: p in table' ==> p <= index
  {
    var s := FileInfo(meta.Files()[n].path, index, begin, 0, meta.Files()[n].size);
    CursorSegment(meta, n, index, begin, s);
    PushElsewhere(meta, table, index, s);
    if n == 0 {
      OffsetBound(meta.pieceLength, index, 0);
      assert table'[index] == [s];
    } else {
      ExtendChain(meta, index, table[index], s);
    }
  }

  lemma FileFits(meta: MetaInfo, n: nat, table: PieceTable, index: nat, begin: int, table': PieceTable)
    requires meta.MultiFile? && meta.WellFormed() && n < |meta.Files()| && Progress(meta, n, table, index, begin)
    requires table' == Push(table, index, FileInfo(meta.Files()[n].path, index, begin, 0, meta.Files()[n].size))
    requires begin + meta.Files()[n].size < meta.pieceLength
    ensures Progress(meta, n + 1, table', index, begin + meta.Files()[n].size)
    ensures begin + meta.Files()[n].size > 0
  {
    OpenFile(meta, n, table, index, begin, table');
  }

  lemma FullNext(meta: MetaInfo, table: PieceTable, index: nat, table': PieceTable)
    requires FullBefore(meta, table, index) && index in table
    requires Chain(meta, index, table[index]) && ChainEnd(meta, table[index]) == meta.pieceLength
    requires forall p: nat :: p <= index ==> p in table' && (p in table ==> table'[p] == table[p])
    ensures FullBefore(meta, table', index + 1)
  {
  }

  lemma FileCrosses(meta: MetaInfo, n: nat, table: PieceTable, index: nat, begin: int,
                    table': PieceTable, table'': PieceTable)
    requires meta.MultiFile? && meta.WellFormed() && n < |meta.Files()| && Progress(meta, n, table, index, begin)
    requires begin + meta.Files()[n].size >= meta.pieceLength
    requires table' == Push(table, index, FileInfo(meta.Files()[n].path, index, begin, 0, meta.Files()[n].size))
    requires table'' ==
             Push(table', index + 1,
                  FileInfo(meta.Files()[n].path, index + 1, 0, meta.pieceLength - begin, meta.Files()[n].size))
    ensures Cutting(meta, n, table'', index + 1,
                    meta.Files()[n].size - (meta.pieceLength - begin), meta.pieceLength - begin)
  {
    hide Progress, Chain, ChainEnd, Prefix, Distinct;
    ProgressCursor(meta, n, table, index, begin);
    OpenFile(meta, n, table, index, begin, table');
    FirstCut(meta, n, table', index, begin, table'');
  }

  lemma FirstCut(meta: MetaInfo, n: nat, table: PieceTable, index: nat, begin: int, table': PieceTable)
    requires n < |meta.Files()| && begin <= meta.pieceLength <= begin + meta.Files()[n].size
    requires Offset(meta.pieceLength, index) + begin == Prefix(meta.Files(), n)
    requires FullBefore(meta, table, index) && index in table && (forall p: nat :: p in table ==> p <= index)
    requires Chain(meta, index, table[index]) && ChainEnd(meta, table[index]) == meta.pieceLength
    requires table' ==
             Push(table, index + 1,
                  FileInfo(meta.Files()[n].path, index + 1, 0, meta.pieceLength - begin, meta.Files()[n].size))
    ensures Cutting(meta, n, table', index + 1,
                    meta.Files()[n].size - (meta.pieceLength - begin), meta.pieceLength - begin)
  {
    hide Chain, ChainEnd, Prefix;
    assert index + 1 !in table;
    FullNext(meta, table, index, table');
  }

  lemma Opened(meta: MetaInfo, n: nat, table: PieceTable, index: nat, begin: int, fileBegin: int)
    requires meta.MultiFile? && meta.WellFormed() && Cutting(meta, n, table, index, begin, fileBegin)
    ensures Chain(meta, index, table[index])
    ensures ChainEnd(meta, table[index]) == Min(meta.pieceLength, begin)
    ensures begin <= meta.pieceLength ==> ClosesFile(meta, table[index])
  {
    IndexOfIs(meta.Files(), n);
  }

  lemma CutAgain(meta: MetaInfo, n: nat, table: PieceTable, index: nat, begin: int, fileBegin: int, table': PieceTable)
    requires meta.MultiFile? && meta.WellFormed() && Cutting(meta, n, table, index, begin, fileBegin)
    requires begin > meta.pieceLength
    requires table' ==
             Push(table, index + 1,
                  FileInfo(meta.Files()[n].path, index + 1, 0, fileBegin + meta.pieceLength, meta.Files()[n].size))
    ensures Cutting(meta, n, table', index + 1, begin - meta.pieceLength, fileBegin + meta.pieceLength)
  {
    hide Chain, ChainEnd, Prefix, MetaInfo.WellFormed, ClosesFile;
    Opened(meta, n, table, index, begin, fileBegin);
    assert index + 1 !in table;
    FullNext(meta, table, index, table');
  }

  lemma FileDone(meta: MetaInfo, n: nat, table: PieceTable, index: nat, begin: int, fileBegin: int)
    requires meta.MultiFile? && meta.WellFormed() && Cutting(meta, n, table, index, begin, fileBegin)
    requires begin <= meta.pieceLength
    ensures Progress(meta, n + 1, table, index, begin)
  {
    Opened(meta, n, table, index, begin, fileBegin);
  }

  /** The cursor's piece is the last one, or one past it when the cursor is at 0. */
  lemma LastIndex(meta: MetaInfo, index: nat, begin: int)
    requires meta.WellFormed() && 0 <= begin <= meta.pieceLength
    requires Offset(meta.pieceLength, index) + begin == meta.Total()
    ensures begin > 0 ==> index == meta.pieceCount - 1
    ensures begin == 0 ==> index == meta.pieceCount
  {
    var l, c := meta.pieceLength, meta.pieceCount;
    OffsetBound(l, index, c);
    if begin > 0 && c > 0 {
      OffsetBound(l, index, c - 1);
      OffsetBound(l, c - 1, index);
    } else if c > 0 {
      OffsetBound(l, c, index);
    }
  }

  lemma {:induction false} FullPiece(meta: MetaInfo, p: nat, index: nat)
    requires p < index && Offset(meta.pieceLength, index) <= meta.Total()
    ensures meta.PieceLen(p) == meta.pieceLength
  {
    OffsetMono(meta.pieceLength, p + 1, index);
  }

  /** Once every file is in, the table is complete, and the cursor is the last piece's length
      unless it is 0. */
  lemma AllDone(meta: MetaInfo, table: PieceTable, index: nat, begin: int)
    requires meta.WellFormed() && Progress(meta, |meta.Files()|, table, index, begin)
    ensures LaidOut(meta, table)
    ensures begin != 0 ==> begin == meta.PieceLen(meta.pieceCount - 1)
    ensures meta.pieceCount > 0 ==> |meta.Files()| > 0
  {
    LastIndex(meta, index, begin);
    forall p: nat | p < meta.pieceCount
      ensures p in table && Chain(meta, p, table[p]) && ChainEnd(meta, table[p]) == meta.PieceLen(p)
    {
      if p < index {
        FullPiece(meta, p, index);
      }
    }
  }

  /** The first n files end on a piece boundary which the last of them is the first to reach:
      strip trailing files of exactly one piece; nothing is left, or a file shorter than one. */
  predicate EndsOnFirstBoundary(meta: MetaInfo, n: nat)
    requires meta.pieceLength > 0 && n <= |meta.Files()|
  {
    && n > 0
    && Modulo(Prefix(meta.Files(), n), meta.pieceLength) == 0
    && (|| meta.Files()[n - 1].size < meta.pieceLength
        || (meta.Files()[n - 1].size == meta.pieceLength && (n == 1 || EndsOnFirstBoundary(meta, n - 1))))
  }

  function Modulo(a: nat, l: nat): nat
    requires l > 0
  {
    a % l
  }

  lemma {:induction false} Remainder(q: nat, r: nat, l: nat)
    requires r < l
    ensures Modulo(Offset(l, q) + r, l) == r
  {
    hide Modulo, Offset;
    var x := Offset(l, q) + r;
    var d := Quotient(x, l);
    SamePiece(l, q, r, d, Modulo(x, l));
  }

  lemma Quotient(x: nat, l: nat) returns (d: nat)
    requires l > 0
    ensures x == Offset(l, d) + Modulo(x, l) && Modulo(x, l) < l
  {
    d := x / l;
    OffsetIs(l, d);
  }

  /** The cursor falls back to 0 exactly on such an end. */
  lemma CursorZero(meta: MetaInfo, n: nat, index: nat, begin: int)
    requires meta.pieceLength > 0 && n < |meta.Files()| && meta.Files()[n].size > 0
    requires 0 <= begin <= meta.pieceLength && Offset(meta.pieceLength, index) + begin == Prefix(meta.Files(), n)
    requires begin == 0 <==> n == 0 || EndsOnFirstBoundary(meta, n)
    ensures EndsOnFirstBoundary(meta, n + 1) <==> begin + meta.Files()[n].size == meta.pieceLength
  {
    var l := meta.pieceLength;
    var x := begin + meta.Files()[n].size;
    if x < l {
      Remainder(index, x, l);
    } else if x < 2 * l {
      Remainder(index + 1, x - l, l);
    }
  }

  /** The last piece's size is recorded as 0 instead of its length. */
  predicate LastSizeLost(meta: MetaInfo)
    requires meta.pieceLength > 0
  {
    match meta
    case SingleFile(_, length, l, _) => Modulo(length, l) == 0
    case MultiFile(files, _, _) => EndsOnFirstBoundary(meta, |files|)
  }

  /** Two whole pieces in one file, and a second file that ends with the first piece. */
  lemma LostLastSizes()
    ensures SingleFile("f", 32, 16, 2).WellFormed() && LastSizeLost(SingleFile("f", 32, 16, 2))
    ensures var meta := MultiFile([FileEntry("f", 10), FileEntry("g", 6)], 16, 1);
      meta.WellFormed() && LastSizeLost(meta)
  {
    var single := SingleFile("f", 32, 16, 2);
    SingleTotal(single);
    assert Offset(16, 1) == 16 && Offset(16, 2) == 32;
    var meta := MultiFile([FileEntry("f", 10), FileEntry("g", 6)], 16, 1);
    assert Prefix(meta.Files(), 0) == 0 && Prefix(meta.Files(), 1) == 10 && Prefix(meta.Files(), 2) == 16;
  }

  /** The single-file table: one segment a piece. */
  ghost predicate OnePerPiece(meta: MetaInfo, table: PieceTable, n: nat)
    requires meta.SingleFile?
  {
    && (forall p: nat :: p in table ==> p < n)
    && (forall p: nat :: p < n ==>
          p in table && table[p] == [FileInfo(meta.name, p, 0, Offset(meta.pieceLength, p), meta.pieceLength)])
  }

  lemma SinglePiece(meta: MetaInfo, p: nat, segs: seq<FileInfo>)
    requires meta.WellFormed() && meta.SingleFile? && p < meta.pieceCount
    requires segs == [FileInfo(meta.name, p, 0, Offset(meta.pieceLength, p), meta.pieceLength)]
    ensures Chain(meta, p, segs) && ChainEnd(meta, segs) == meta.PieceLen(p)
  {
    SingleTotal(meta);
    OffsetMono(meta.pieceLength, p, meta.pieceCount - 1);
  }

  lemma SingleTotal(meta: MetaInfo)
    requires meta.SingleFile?
    ensures meta.Total() == meta.length
  {
    assert Prefix(meta.Files(), 1) == Prefix(meta.Files(), 0) + meta.length;
  }

  lemma SingleLaidOut(meta: MetaInfo, table: PieceTable)
    requires meta.WellFormed() && meta.SingleFile? && OnePerPiece(meta, table, meta.pieceCount)
    ensures LaidOut(meta, table)
  {
    forall p: nat | p < meta.pieceCount
      ensures p in table && Chain(meta, p, table[p]) && ChainEnd(meta, table[p]) == meta.PieceLen(p)
    {
      SinglePiece(meta, p, table[p]);
    }
  }

  lemma SingleLast(meta: MetaInfo)
    requires meta.WellFormed() && meta.SingleFile?
    ensures Modulo(meta.length, meta.pieceLength) ==
            if LastSizeLost(meta) then 0 else meta.PieceLen(meta.pieceCount - 1)
  {
    SingleTotal(meta);
    var l := meta.pieceLength;
    assert meta.Files()[0].size == meta.length;
    var rest := meta.length - Offset(l, meta.pieceCount - 1);
    if rest < l {
      Remainder(meta.pieceCount - 1, rest, l);
    } else {
      Remainder(meta.pieceCount, 0, l);
    }
  }

  lemma LaidOutPush(meta: MetaInfo, table: PieceTable, s: FileInfo)
    requires LaidOut(meta, table)
    ensures LaidOut(meta, Push(table, meta.pieceCount, s))
  {
    hide Chain, ChainEnd, Offset, Prefix;
  }

  lemma PositiveLengths(meta: MetaInfo)
    requires meta.WellFormed()
    ensures meta.pieceLength > 0
  {
  }

  lemma NoPieces(meta: MetaInfo)
    requires meta.SingleFile?
    ensures OnePerPiece(meta, map[], 0) && Offset(meta.pieceLength, 0) == 0
  {
  }

  lemma AddPiece(meta: MetaInfo, table: PieceTable, i: nat)
    requires meta.SingleFile? && OnePerPiece(meta, table, i)
    ensures OnePerPiece(
              meta, Push(table, i, FileInfo(meta.name, i, 0, Offset(meta.pieceLength, i), meta.pieceLength)), i + 1)
    ensures Offset(meta.pieceLength, i + 1) == Offset(meta.pieceLength, i) + meta.pieceLength
  {
    assert Offset(meta.pieceLength, i + 1) == Offset(meta.pieceLength, i) + meta.pieceLength;
    hide Offset;
    var table' := Push(table, i, FileInfo(meta.name, i, 0, Offset(meta.pieceLength, i), meta.pieceLength));
    assert i !in table;
    forall p: nat | p < i
      ensures table'[p] == table[p]
    {
    }
  }

  /** Single-file mode: a segment per piece, and one more entry past the last. */
  method FillSingle(meta: MetaInfo) returns (piecesByFiles: PieceTable, lastPieceSize: nat)
    requires meta.WellFormed() && meta.SingleFile?
    ensures LaidOut(meta, piecesByFiles)
    ensures lastPieceSize == if LastSizeLost(meta) then 0 else meta.PieceLen(meta.pieceCount - 1)
  {
    hide *;
    PositiveLengths(meta);
    NoPieces(meta);
    var l := meta.pieceLength;
    var fileBeg := 0;
    var i := 0;
    piecesByFiles := map[];
    while i < meta.pieceCount
      invariant i <= meta.pieceCount && fileBeg == Offset(l, i)
      invariant OnePerPiece(meta, piecesByFiles, i)
    {
      AddPiece(meta, piecesByFiles, i);
      piecesByFiles := Push(piecesByFiles, i, FileInfo(meta.name, i, 0, fileBeg, l));
      fileBeg := fileBeg + l;
      i := i + 1;
    }
    lastPieceSize := Modulo(meta.length, l);
    SingleLast(meta);
    SingleLaidOut(meta, piecesByFiles);
    LaidOutPush(meta, piecesByFiles, FileInfo(meta.name, i, 0, fileBeg, lastPieceSize));
    piecesByFiles := Push(piecesByFiles, i, FileInfo(meta.name, i, 0, fileBeg, lastPieceSize));
  }

  /** Multi-file mode: the files laid end to end and cut at the piece boundaries. */
  method FillMulti(meta: MetaInfo) returns (piecesByFiles: PieceTable, lastPieceSize: nat)
    requires meta.WellFormed() && meta.MultiFile?
    ensures LaidOut(meta, piecesByFiles)
    ensures meta.pieceCount > 0 ==>
              lastPieceSize == if LastSizeLost(meta) then 0 else meta.PieceLen(meta.pieceCount - 1)
  {
    ProgressStart(meta);
    hide Progress, LaidOut, Distinct, Prefix, EndsOnFirstBoundary, Offset;
    piecesByFiles := map[];
    var curPieceBegin := 0;
    var curPieceIndex := 0;
    for n := 0 to |meta.files|
      invariant Progress(meta, n, piecesByFiles, curPieceIndex, curPieceBegin)
      invariant curPieceBegin == 0 <==> n == 0 || EndsOnFirstBoundary(meta, n)
    {
      ProgressCursor(meta, n, piecesByFiles, curPieceIndex, curPieceBegin);
      CursorZero(meta, n, curPieceIndex, curPieceBegin);
      piecesByFiles, curPieceIndex, curPieceBegin := FillFile(meta, n, piecesByFiles, curPieceIndex, curPieceBegin);
    }
    AllDone(meta, piecesByFiles, curPieceIndex, curPieceBegin);
    ProgressCursor(meta, |meta.files|, piecesByFiles, curPieceIndex, curPieceBegin);
    lastPieceSize := curPieceBegin;
  }

  /** The body of the loop over the files: the segments of file n, from the cursor on. */
  method FillFile(meta: MetaInfo, n: nat, table: PieceTable, index: nat, begin: int)
    returns (piecesByFiles: PieceTable, curPieceIndex: nat, curPieceBegin: int)
    requires meta.WellFormed() && meta.MultiFile? && n < |meta.files|
    requires Progress(meta, n, table, index, begin)
    ensures Progress(meta, n + 1, piecesByFiles, curPieceIndex, curPieceBegin)
    ensures curPieceBegin == 0 <==> begin + meta.files[n].size == meta.pieceLength
  {
    hide Progress, Cutting, Push, Chain, FullBefore, ChainEnd, ClosesFile, Distinct, Prefix, Offset;
    var l, path, size := meta.pieceLength, meta.files[n].path, meta.files[n].size;
    curPieceIndex, curPieceBegin := index, begin;
    var fileBeg := 0;
    piecesByFiles := Push(table, curPieceIndex, FileInfo(path, curPieceIndex, curPieceBegin, fileBeg, size));
    curPieceIndex := if curPieceBegin + size < l then curPieceIndex else curPieceIndex + 1;
    if curPieceBegin + size < l {
      FileFits(meta, n, table, index, begin, piecesByFiles);
      curPieceBegin := curPieceBegin + size;
    } else {
      ghost var first := piecesByFiles;
      fileBeg := l - curPieceBegin;
      piecesByFiles := Push(piecesByFiles, curPieceIndex, FileInfo(path, curPieceIndex, 0, fileBeg, size));
      FileCrosses(meta, n, table, index, begin, first, piecesByFiles);
      curPieceBegin := size - (l - curPieceBegin);
      while curPieceBegin > l
        invariant Cutting(meta, n, piecesByFiles, curPieceIndex, curPieceBegin, fileBeg)
        invariant curPieceBegin == 0 <==> begin + size == l
      {
        curPieceBegin := curPieceBegin - l;
        curPieceIndex := curPieceIndex + 1;
        fileBeg := fileBeg + l;
        ghost var cut := piecesByFiles;
        piecesByFiles := Push(piecesByFiles, curPieceIndex, FileInfo(path, curPieceIndex, 0, fileBeg, size));
        CutAgain(meta, n, cut, curPieceIndex - 1, curPieceBegin + l, fileBeg - l, piecesByFiles);
      }
      FileDone(meta, n, piecesByFiles, curPieceIndex, curPieceBegin, fileBeg);
    }
  }
}
