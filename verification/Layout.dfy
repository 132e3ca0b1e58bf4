/** The files of a torrent seen as one byte string, and the table that says which
    stretches of which files make up each piece. */
module Layout {

  type Path = string

  /** One file of the metainfo, with its declared length. */
  datatype FileEntry = FileEntry(path: Path, size: nat)

  /** One segment of a piece: it starts at `pieceBegin` in the piece and `fileBegin` in the
      file. `size` is the whole file's length in multi-file mode, the piece length otherwise. */
  datatype FileInfo = FileInfo(path: Path, pieceIndex: nat, pieceBegin: int, fileBegin: int, size: int)

  type PieceTable = map<nat, seq<FileInfo>>

  /** The info dictionary, as far as storage reads it. */
  datatype MetaInfo =
    | SingleFile(name: Path, length: nat, pieceLength: nat, pieceCount: nat)
    | MultiFile(files: seq<FileEntry>, pieceLength: nat, pieceCount: nat)
  {
    function Files(): seq<FileEntry> {
      match this
      case SingleFile(name, length, _, _) => [FileEntry(name, length)]
      case MultiFile(files, _, _) => files
    }

    function Total(): nat {
      Prefix(Files(), |Files()|)
    }

    /** Positive lengths, distinct paths, a total a `long long` can hold, and as many hashes
        as the total needs. */
    ghost predicate WellFormed() {
      && pieceLength > 0
      && Total() < 0x8000_0000_0000_0000
      && pieceLength < 0x8000_0000_0000_0000
      && (forall f :: 0 <= f < |Files()| ==> Files()[f].size > 0)
      && Distinct(Files())
      && Total() <= Offset(pieceLength, pieceCount)
      && (pieceCount > 0 ==> Total() > Offset(pieceLength, pieceCount - 1))
    }

    /** The length of piece p: a full window, or what is left of the last one. */
    function PieceLen(p: nat): int {
      Min(pieceLength, Total() - Offset(pieceLength, p))
    }
  }

  function Min(a: int, b: int): int {
    if a <= b then a else b
  }

  /** Where piece p of length l starts: p * l (see OffsetIs), spelled as repeated addition. */
  function Offset(l: nat, p: nat): nat {
    if p == 0 then 0 else Offset(l, p - 1) + l
  }

  lemma {:induction false} OffsetIs(l: nat, p: nat)
    ensures Offset(l, p) == p * l
  {
    if p > 0 {
      OffsetIs(l, p - 1);
    }
  }

  lemma {:induction false} OffsetMono(l: nat, p: nat, q: nat)
    requires p <= q
    ensures Offset(l, p) <= Offset(l, q)
  {
    if p < q {
      OffsetMono(l, p, q - 1);
    }
  }

  lemma {:induction false} OffsetBound(l: nat, p: nat, q: nat)
    requires Offset(l, p) < Offset(l, q) + l
    ensures p <= q
  {
    if q < p {
      OffsetMono(l, q + 1, p);
    }
  }

  lemma {:induction false} SamePiece(l: nat, p: nat, a: nat, q: nat, b: nat)
    requires Offset(l, p) + a == Offset(l, q) + b && a < l && b < l
    ensures p == q && a == b
  {
    OffsetBound(l, p, q);
    OffsetBound(l, q, p);
  }

  /** Every offset below c pieces is offset b of some piece p. */
  lemma {:induction false} PieceOf(l: nat, c: nat, g: nat) returns (p: nat, b: nat)
    requires g < Offset(l, c)
    ensures p < c && g == Offset(l, p) + b && b < l
  {
    if g >= Offset(l, c - 1) {
      p, b := c - 1, g - Offset(l, c - 1);
    } else {
      p, b := PieceOf(l, c - 1, g);
    }
  }

  ghost predicate Distinct(files: seq<FileEntry>) {
    forall i, j :: 0 <= i < j < |files| ==> files[i].path != files[j].path
  }

  /** Bytes in the first n files: the global offset of file n. */
  function Prefix(files: seq<FileEntry>, n: nat): nat
    requires n <= |files|
  {
    if n == 0 then 0 else Prefix(files, n - 1) + files[n - 1].size
  }

  /** The file, among the first n, that holds global byte g. */
  function FileAt(files: seq<FileEntry>, n: nat, g: nat): (f: nat)
    requires n <= |files| && g < Prefix(files, n)
    ensures f < n && Prefix(files, f) <= g < Prefix(files, f + 1)
  {
    if g >= Prefix(files, n - 1) then n - 1 else FileAt(files, n - 1, g)
  }

  lemma {:induction false} PrefixMono(files: seq<FileEntry>, a: nat, b: nat)
    requires a <= b <= |files|
    ensures Prefix(files, a) <= Prefix(files, b)
  {
    if a < b {
      PrefixMono(files, a, b - 1);
    }
  }

  lemma FileAtIs(files: seq<FileEntry>, n: nat, f: nat, g: nat)
    requires f < n <= |files| && Prefix(files, f) <= g < Prefix(files, f + 1)
    ensures g < Prefix(files, n) && FileAt(files, n, g) == f
  {
    PrefixMono(files, f + 1, n);
    var f' := FileAt(files, n, g);
    if f' < f {
      PrefixMono(files, f' + 1, f);
    } else if f < f' {
      PrefixMono(files, f + 1, f');
    }
  }

  /** The first file with this path, or |files| if there is none. */
  function IndexOf(files: seq<FileEntry>, path: Path): (f: nat)
    ensures f <= |files|
    ensures f < |files| ==> files[f].path == path
  {
    if files == [] then 0
    else if files[0].path == path then 0
    else 1 + IndexOf(files[1..], path)
  }

  lemma {:induction false} IndexOfIs(files: seq<FileEntry>, f: nat)
    requires Distinct(files) && f < |files|
    ensures IndexOf(files, files[f].path) == f
  {
    if f > 0 {
      assert files[0].path != files[f].path;
      IndexOfIs(files[1..], f - 1);
    }
  }

  function FileSize(files: seq<FileEntry>, path: Path): nat {
    var f := IndexOf(files, path);
    if f < |files| then files[f].size else 0
  }

  function FileBase(files: seq<FileEntry>, path: Path): nat {
    var f := IndexOf(files, path);
    if f < |files| then Prefix(files, f) else 0
  }

  /** A segment of piece p starts at one global offset, whether counted in pieces or in files. */
  ghost predicate SegmentOk(meta: MetaInfo, p: nat, s: FileInfo) {
    var files := meta.Files();
    && s.pieceIndex == p
    && IndexOf(files, s.path) < |files|
    && 0 <= s.pieceBegin <= meta.pieceLength
    && 0 <= s.fileBegin <= FileSize(files, s.path)
    && Offset(meta.pieceLength, p) + s.pieceBegin == FileBase(files, s.path) + s.fileBegin
    && s.size == (if meta.MultiFile? then FileSize(files, s.path) else meta.pieceLength)
  }

  /** The bytes of the piece that really lie in this segment: up to the end of the piece or
      of the file, whichever comes first. It may be 0. */
  function Span(meta: MetaInfo, s: FileInfo): int {
    Min(meta.pieceLength - s.pieceBegin, FileSize(meta.Files(), s.path) - s.fileBegin)
  }

  /** The segments start at offset 0 and each begins where the one before ends; every one
      but the last runs to the end of its file, every one but the first starts its file. */
  ghost predicate Chain(meta: MetaInfo, p: nat, segs: seq<FileInfo>) {
    && |segs| > 0
    && segs[0].pieceBegin == 0
    && (forall j :: 0 <= j < |segs| ==> SegmentOk(meta, p, segs[j]))
    && (forall j :: 0 < j < |segs| ==>
          && segs[j].fileBegin == 0
          && segs[j].pieceBegin == segs[j - 1].pieceBegin + Span(meta, segs[j - 1]))
    && (forall j :: 0 <= j < |segs| - 1 ==>
          segs[j].fileBegin + Span(meta, segs[j]) == FileSize(meta.Files(), segs[j].path))
  }

  function ChainEnd(meta: MetaInfo, segs: seq<FileInfo>): int
    requires |segs| > 0
  {
    segs[|segs| - 1].pieceBegin + Span(meta, segs[|segs| - 1])
  }

  /** The table is complete: every piece has a chain of segments that ends where it does. */
  ghost predicate LaidOut(meta: MetaInfo, table: PieceTable) {
    forall p: nat :: p < meta.pieceCount ==>
      p in table && Chain(meta, p, table[p]) && ChainEnd(meta, table[p]) == meta.PieceLen(p)
  }

  /** What the loops over a piece's segments rely on at segment j. */
  lemma ChainStep(meta: MetaInfo, p: nat, segs: seq<FileInfo>, j: nat)
    requires Chain(meta, p, segs) && j < |segs|
    ensures SegmentOk(meta, p, segs[j]) && IndexOf(meta.Files(), segs[j].path) < |meta.Files()|
    ensures 0 <= segs[j].pieceBegin && 0 <= segs[j].fileBegin
    ensures meta.SingleFile? ==> segs[j].pieceBegin == 0
    ensures segs[j].pieceBegin + Span(meta, segs[j]) ==
            if j + 1 < |segs| then segs[j + 1].pieceBegin else ChainEnd(meta, segs)
    ensures j + 1 < |segs| ==> segs[j + 1].fileBegin == 0
    ensures j + 1 < |segs| ==> Span(meta, segs[j]) == FileSize(meta.Files(), segs[j].path) - segs[j].fileBegin
  {
  }

  lemma PathsKnown(meta: MetaInfo, p: nat, segs: seq<FileInfo>, j: nat)
    requires Chain(meta, p, segs) && j < |segs|
    ensures exists f :: 0 <= f < |meta.Files()| && meta.Files()[f].path == segs[j].path
  {
    var f := IndexOf(meta.Files(), segs[j].path);
    assert meta.Files()[f].path == segs[j].path;
  }

  lemma LaidOutAt(meta: MetaInfo, table: PieceTable, p: nat)
    requires LaidOut(meta, table) && p < meta.pieceCount
    ensures p in table && Chain(meta, p, table[p]) && ChainEnd(meta, table[p]) == meta.PieceLen(p)
  {
    hide Chain, ChainEnd, MetaInfo.PieceLen;
  }

  /** A segment that starts a file inside the piece is not empty. */
  lemma StartedFile(meta: MetaInfo, p: nat, s: FileInfo)
    requires meta.WellFormed() && SegmentOk(meta, p, s) && s.fileBegin == 0 && s.pieceBegin < meta.pieceLength
    ensures Span(meta, s) > 0
  {
  }

  /** Piece p lies inside the total. */
  lemma PieceInside(meta: MetaInfo, p: nat)
    requires meta.WellFormed() && p < meta.pieceCount
    ensures 0 < meta.PieceLen(p) <= meta.pieceLength
    ensures Offset(meta.pieceLength, p) + meta.PieceLen(p) <= meta.Total()
  {
    OffsetMono(meta.pieceLength, p, meta.pieceCount - 1);
  }

  lemma {:induction false} ChainSorted(meta: MetaInfo, p: nat, segs: seq<FileInfo>, i: nat, j: nat)
    requires Chain(meta, p, segs) && i < j < |segs|
    ensures segs[i].pieceBegin + Span(meta, segs[i]) <= segs[j].pieceBegin && 0 <= Span(meta, segs[i])
  {
    if i + 1 < j {
      ChainSorted(meta, p, segs, i, j - 1);
      assert Span(meta, segs[j - 1]) >= 0;
    }
  }

  /** The last segment that starts at or before offset b. */
  ghost function SegmentAt(meta: MetaInfo, p: nat, segs: seq<FileInfo>, b: nat): (j: nat)
    requires Chain(meta, p, segs)
    ensures j < |segs| && segs[j].pieceBegin <= b
    ensures j + 1 < |segs| ==> b < segs[j + 1].pieceBegin
    decreases |segs|
  {
    var last := |segs| - 1;
    if segs[last].pieceBegin <= b then last else SegmentAt(meta, p, segs[..last], b)
  }

  /** Byte o of file f lies in segment s. */
  predicate Holds(meta: MetaInfo, s: FileInfo, path: Path, o: nat) {
    s.path == path && s.fileBegin <= o < s.fileBegin + Span(meta, s)
  }

  /** A byte a segment holds has the same global offset in its piece and in its file. */
  lemma HeldOffset(meta: MetaInfo, p: nat, s: FileInfo, f: nat, o: nat)
    requires Distinct(meta.Files()) && SegmentOk(meta, p, s) && f < |meta.Files()|
    requires Holds(meta, s, meta.Files()[f].path, o)
    ensures Offset(meta.pieceLength, p) + (s.pieceBegin + o - s.fileBegin) == Prefix(meta.Files(), f) + o
    ensures s.pieceBegin <= s.pieceBegin + o - s.fileBegin < meta.pieceLength
    ensures o < meta.Files()[f].size
  {
    IndexOfIs(meta.Files(), f);
  }

  /** The byte at offset b of a piece, inside segment s, is the byte of s's file that has the
      same global offset. */
  lemma SpannedByte(meta: MetaInfo, p: nat, s: FileInfo, b: nat) returns (f: nat, o: nat)
    requires meta.WellFormed() && SegmentOk(meta, p, s)
    requires s.pieceBegin <= b < s.pieceBegin + Span(meta, s)
    ensures f == IndexOf(meta.Files(), s.path) && o == s.fileBegin + b - s.pieceBegin
    ensures f < |meta.Files()| && o < meta.Files()[f].size
    ensures Offset(meta.pieceLength, p) + b == Prefix(meta.Files(), f) + o < meta.Total()
    ensures FileAt(meta.Files(), |meta.Files()|, Offset(meta.pieceLength, p) + b) == f
  {
    var files := meta.Files();
    f := IndexOf(files, s.path);
    o := s.fileBegin + b - s.pieceBegin;
    FileAtIs(files, |files|, f, Prefix(files, f) + o);
  }

  lemma OneSegment(meta: MetaInfo, p: nat, segs: seq<FileInfo>, i: nat, j: nat, b: int)
    requires Chain(meta, p, segs) && i < |segs| && j < |segs|
    requires segs[i].pieceBegin <= b < segs[i].pieceBegin + Span(meta, segs[i])
    requires segs[j].pieceBegin <= b < segs[j].pieceBegin + Span(meta, segs[j])
    ensures i == j
  {
    if i < j {
      ChainSorted(meta, p, segs, i, j);
    } else if j < i {
      ChainSorted(meta, p, segs, j, i);
    }
  }

  lemma HolderIsUnique(meta: MetaInfo, table: PieceTable, f: nat, o: nat, p: nat, i: nat, q: nat, j: nat)
    requires meta.WellFormed() && LaidOut(meta, table) && f < |meta.Files()|
    requires p < meta.pieceCount && i < |table[p]| && Holds(meta, table[p][i], meta.Files()[f].path, o)
    requires q < meta.pieceCount && j < |table[q]| && Holds(meta, table[q][j], meta.Files()[f].path, o)
    ensures p == q && i == j
  {
    var s, t := table[p][i], table[q][j];
    HeldOffset(meta, p, s, f, o);
    HeldOffset(meta, q, t, f, o);
    SamePiece(meta.pieceLength, p, s.pieceBegin + o - s.fileBegin, q, t.pieceBegin + o - t.fileBegin);
    OneSegment(meta, p, table[p], i, j, s.pieceBegin + o - s.fileBegin);
  }

  /** The segment that holds a byte is the one its piece offset falls in. */
  lemma {:induction false} FindHolder(meta: MetaInfo, p: nat, segs: seq<FileInfo>, f: nat, o: nat, b: nat)
    returns (j: nat)
    requires meta.WellFormed() && Chain(meta, p, segs) && f < |meta.Files()| && o < meta.Files()[f].size
    requires Prefix(meta.Files(), f) + o == Offset(meta.pieceLength, p) + b && b < ChainEnd(meta, segs)
    ensures j < |segs| && Holds(meta, segs[j], meta.Files()[f].path, o)
  {
    hide MetaInfo.WellFormed, Chain, ChainEnd, SegmentOk;
    j := SegmentAt(meta, p, segs, b);
    ChainStep(meta, p, segs, j);
    var h, x := SpannedByte(meta, p, segs[j], b);
    FileAtIs(meta.Files(), |meta.Files()|, f, Prefix(meta.Files(), f) + o);
  }

  /** The segments tile every file exactly once: each byte of each file lies in one segment
      of one piece, and in no other. */
  lemma EveryByteOnce(meta: MetaInfo, table: PieceTable, f: nat, o: nat) returns (p: nat, j: nat)
    requires meta.WellFormed() && LaidOut(meta, table)
    requires f < |meta.Files()| && o < meta.Files()[f].size
    ensures p < meta.pieceCount && p in table && j < |table[p]|
    ensures Holds(meta, table[p][j], meta.Files()[f].path, o)
    ensures forall q: nat, i: nat ::
              (q < meta.pieceCount && i < |table[q]| && Holds(meta, table[q][i], meta.Files()[f].path, o)) ==>
                q == p && i == j
  {
    var g := Prefix(meta.Files(), f) + o;
    PrefixMono(meta.Files(), f + 1, |meta.Files()|);
    var b;
    p, b := PieceOf(meta.pieceLength, meta.pieceCount, g);
    assert p in table;
    j := FindHolder(meta, p, table[p], f, o, b);
    forall q: nat, i: nat | q < meta.pieceCount && i < |table[q]| && Holds(meta, table[q][i], meta.Files()[f].path, o)
      ensures q == p && i == j
    {
      HolderIsUnique(meta, table, f, o, p, j, q, i);
    }
  }
}
