/** Piece storage: `TorrentFilesManager` lays pieces over files, writes whole pieces and reads
    blocks. Its disk refines one flat byte string, the concatenation of the files. */
module Storage {
  import opened Common
  import opened Pieces
  import opened Layout

  type Disk = map<Path, seq<byte>>

  /** Every file is there to be opened. */
  ghost predicate AllThere(meta: MetaInfo, disk: Disk) {
    forall f :: 0 <= f < |meta.Files()| ==> meta.Files()[f].path in disk
  }

  lemma SegmentsThere(meta: MetaInfo, p: nat, segs: seq<FileInfo>, disk: Disk)
    requires AllThere(meta, disk) && Chain(meta, p, segs)
    ensures Openable(segs, |segs|, disk)
  {
    forall j | 0 <= j < |segs|
      ensures segs[j].path in disk
    {
      PathsKnown(meta, p, segs, j);
    }
  }

  /** The files of the first n segments are there. */
  predicate Openable(segs: seq<FileInfo>, n: nat, disk: Disk)
    requires n <= |segs|
  {
    forall j :: 0 <= j < n ==> segs[j].path in disk
  }

  predicate BeginsKnown(segs: seq<FileInfo>) {
    forall j :: 0 <= j < |segs| ==> segs[j].fileBegin >= 0
  }

  function Contents(disk: Disk, path: Path): seq<byte> {
    if path in disk then disk[path] else []
  }

  /** What a one-byte read at offset k leaves in a buffer that held 0. */
  function ByteAt(file: seq<byte>, k: nat): byte {
    if k < |file| then file[k] else 0
  }

  /** A one-byte write at offset k: a gap past the old end is filled with zeros. */
  function PutByte(file: seq<byte>, k: nat, b: byte): (r: seq<byte>)
    ensures forall i: nat :: ByteAt(r, i) == if i == k then b else ByteAt(file, i)
  {
    if k < |file| then file[k := b] else file + seq(k - |file|, _ => 0) + [b]
  }

  /** Byte g of the concatenation of the files. */
  function GlobalByte(files: seq<FileEntry>, disk: Disk, g: nat): byte
    requires g < Prefix(files, |files|)
  {
    var f := FileAt(files, |files|, g);
    ByteAt(Contents(disk, files[f].path), g - Prefix(files, f))
  }

  /** The concatenation of the files, each cut at (or filled with zeros to) its declared length. */
  function FlatOf(files: seq<FileEntry>, disk: Disk): (r: seq<byte>)
    ensures |r| == Prefix(files, |files|)
  {
    seq(Prefix(files, |files|), g requires 0 <= g < Prefix(files, |files|) => GlobalByte(files, disk, g))
  }

  /** `flat` with `data` put at offset `at`. */
  function Splice(flat: seq<byte>, at: nat, data: seq<byte>): (r: seq<byte>)
    requires at + |data| <= |flat|
    ensures |r| == |flat|
    ensures forall g :: 0 <= g < |r| ==> r[g] == if at <= g < at + |data| then data[g - at] else flat[g]
  {
    flat[..at] + data + flat[at + |data|..]
  }

  /** n bytes of the flat string from offset `at`. */
  function Slice(flat: seq<byte>, at: nat, n: nat): (r: seq<byte>)
    requires at + n <= |flat|
    ensures |r| == n
  {
    flat[at..at + n]
  }

  lemma SliceGrows(flat: seq<byte>, at: nat, n: nat, m: nat)
    requires at + n + m <= |flat|
    ensures Slice(flat, at, n) + Slice(flat, at + n, m) == Slice(flat, at, n + m)
  {
  }

  /** Consecutive one-byte writes from offset `at` on. */
  function PutRange(file: seq<byte>, at: nat, data: seq<byte>): (r: seq<byte>)
    ensures forall k: nat :: ByteAt(r, k) == if at <= k < at + |data| then data[k - at] else ByteAt(file, k)
  {
    if data == [] then file
    else PutByte(PutRange(file, at, data[..|data| - 1]), at + |data| - 1, data[|data| - 1])
  }

  /** Bytes [from, to) of the flat string hold the front of `data`; the rest is as in `old`. */
  ghost predicate Written(files: seq<FileEntry>, was: Disk, disk: Disk, from: int, to: int, data: seq<byte>) {
    forall g: nat :: g < Prefix(files, |files|) ==>
      GlobalByte(files, disk, g) ==
      if from <= g < to && g - from < |data| then data[g - from] else GlobalByte(files, was, g)
  }

  lemma NothingWritten(files: seq<FileEntry>, disk: Disk, at: int, data: seq<byte>)
    ensures Written(files, disk, disk, at, at, data)
  {
  }

  lemma WrittenIsSplice(files: seq<FileEntry>, was: Disk, disk: Disk, at: nat, data: seq<byte>)
    requires at + |data| <= Prefix(files, |files|)
    requires Written(files, was, disk, at, at + |data|, data)
    ensures FlatOf(files, disk) == Splice(FlatOf(files, was), at, data)
  {
  }

  lemma SegmentPlace(meta: MetaInfo, p: nat, s: FileInfo)
    requires SegmentOk(meta, p, s)
    ensures IndexOf(meta.Files(), s.path) < |meta.Files()| && s.fileBegin >= 0 && s.pieceBegin >= 0
    ensures Offset(meta.pieceLength, p) + s.pieceBegin ==
            Prefix(meta.Files(), IndexOf(meta.Files(), s.path)) + s.fileBegin
    ensures Prefix(meta.Files(), IndexOf(meta.Files(), s.path) + 1) ==
            Prefix(meta.Files(), IndexOf(meta.Files(), s.path)) + FileSize(meta.Files(), s.path)
    ensures s.fileBegin <= FileSize(meta.Files(), s.path) == meta.Files()[IndexOf(meta.Files(), s.path)].size
    ensures meta.Files()[IndexOf(meta.Files(), s.path)].path == s.path
  {
  }

  lemma PathsDistinct(meta: MetaInfo)
    requires meta.WellFormed()
    ensures Distinct(meta.Files())
  {
  }

  /** The byte at offset b of segment s of a piece, in the flat string and in the file. */
  lemma FlatByte(meta: MetaInfo, disk: Disk, p: nat, s: FileInfo, b: nat)
    requires meta.WellFormed() && SegmentOk(meta, p, s) && b < Span(meta, s)
    ensures s.pieceBegin >= 0 && s.fileBegin >= 0
    ensures Offset(meta.pieceLength, p) + s.pieceBegin + b < |FlatOf(meta.Files(), disk)|
    ensures FlatOf(meta.Files(), disk)[Offset(meta.pieceLength, p) + s.pieceBegin + b] ==
            ByteAt(Contents(disk, s.path), s.fileBegin + b)
  {
    hide MetaInfo.WellFormed, SegmentOk, Span;
    SegmentPlace(meta, p, s);
    var f, o := SpannedByte(meta, p, s, s.pieceBegin + b);
  }

  lemma WriteRunAt(files: seq<FileEntry>, disk: Disk, from: nat, begin: nat, n: nat, data: seq<byte>,
                   f: nat, path: Path, o: nat, disk': Disk, g: nat)
    requires Distinct(files) && f < |files| && files[f].path == path && path in disk && begin + n <= |data|
    requires from + begin == Prefix(files, f) + o && o <= files[f].size && g < Prefix(files, |files|)
    requires disk' == disk[path := PutRange(disk[path], o, data[begin..begin + n])]
    ensures GlobalByte(files, disk', g) ==
            if from + begin <= g < from + begin + Min(n, files[f].size - o) then data[g - from]
            else GlobalByte(files, disk, g)
  {
    var h := FileAt(files, |files|, g);
    if h == f {
      assert GlobalByte(files, disk', g) ==
             ByteAt(PutRange(disk[path], o, data[begin..begin + n]), g - Prefix(files, f));
    } else {
      assert files[h].path != path;
      if from + begin <= g < from + begin + Min(n, files[f].size - o) {
        FileAtIs(files, |files|, f, g);
      }
    }
  }

  /** Writing `data[begin..begin + n]` at offset o of file f extends what is written up to the
      declared end of the file; what spills past it is no byte of the flat string. */
  lemma WriteRun(files: seq<FileEntry>, was: Disk, disk: Disk, from: nat, begin: nat, n: nat, data: seq<byte>,
                 f: nat, path: Path, o: nat, disk': Disk)
    requires Distinct(files) && f < |files| && files[f].path == path && path in disk && begin + n <= |data|
    requires from + begin == Prefix(files, f) + o && o <= files[f].size
    requires Written(files, was, disk, from, from + begin, data)
    requires disk' == disk[path := PutRange(disk[path], o, data[begin..begin + n])]
    ensures Written(files, was, disk', from, from + begin + Min(n, files[f].size - o), data)
  {
    forall g: nat | g < Prefix(files, |files|)
      ensures GlobalByte(files, disk', g) ==
              if from <= g < from + begin + Min(n, files[f].size - o) && g - from < |data| then data[g - from]
              else GlobalByte(files, was, g)
    {
      hide GlobalByte, PutRange, Distinct;
      WriteRunAt(files, disk, from, begin, n, data, f, path, o, disk', g);
    }
  }

  /** How many bytes of piece data `WritePieceToFile` sends to a segment. */
  function WriteLen(pieceSize: nat, s: FileInfo): int {
    Min(Wrap64(pieceSize - s.pieceBegin), s.size)
  }

  /** How many bytes `ReadPieceBlockFromFile` takes from a segment, in unsigned arithmetic. */
  function ReadLen(s: FileInfo, blockBeg: int, length: nat): (n: nat)
    ensures n <= length
    ensures n == 0 ==> length == 0
  {
    var size := if Wrap64(s.size - s.fileBegin - blockBeg) <= length
                then Wrap64(s.size - s.fileBegin - blockBeg) else length;
    if size == 0 then length else size
  }

  lemma FileEndsInside(meta: MetaInfo, p: nat, s: FileInfo)
    requires SegmentOk(meta, p, s)
    ensures FileBase(meta.Files(), s.path) + FileSize(meta.Files(), s.path) <= meta.Total()
  {
    var files := meta.Files();
    PrefixMono(files, IndexOf(files, s.path) + 1, |files|);
  }

  lemma WriteArithmetic(size: int, pieceLen: int, l: int, rest: int, begin: int, fileBegin: int, fileSize: int)
    requires pieceLen == Min(l, rest) && 0 < l < 0x8000_0000_0000_0000 && 0 < rest
    requires 0 <= begin <= l && 0 <= fileBegin <= fileSize && begin + fileSize - fileBegin <= rest
    requires size == fileSize || (size == l && begin == 0)
    ensures 0 <= begin <= pieceLen
    ensures var n := Min(Wrap64(pieceLen - begin), size);
            0 <= n <= pieceLen - begin && Min(n, fileSize - fileBegin) == Min(l - begin, fileSize - fileBegin)
  {
  }

  /** The bytes written to a segment, cut at the declared end of its file, are the segment's span. */
  lemma WriteLenExact(meta: MetaInfo, p: nat, s: FileInfo)
    requires meta.WellFormed() && SegmentOk(meta, p, s) && p < meta.pieceCount
    requires meta.SingleFile? ==> s.pieceBegin == 0
    ensures 0 <= s.pieceBegin <= meta.PieceLen(p)
    ensures 0 <= WriteLen(meta.PieceLen(p), s) <= meta.PieceLen(p) - s.pieceBegin
    ensures Min(WriteLen(meta.PieceLen(p), s), FileSize(meta.Files(), s.path) - s.fileBegin) == Span(meta, s)
  {
    FileEndsInside(meta, p, s);
    PieceInside(meta, p);
    hide MetaInfo.Files, Prefix, IndexOf, Wrap64;
    WriteArithmetic(s.size, meta.PieceLen(p), meta.pieceLength, meta.Total() - Offset(meta.pieceLength, p),
                    s.pieceBegin, s.fileBegin, FileSize(meta.Files(), s.path));
  }

  /** `size - file_begin - block_beg` with size = piece length l and file_begin = p * l wraps
      to something huge, or is 0, or is at least the length asked for. */
  lemma SingleRead(s: FileInfo, p: nat, blockBeg: nat, length: nat)
    requires 0 < length && blockBeg + length <= s.size < 0x8000_0000_0000_0000
    requires s.fileBegin == Offset(s.size, p) < 0x8000_0000_0000_0000
    ensures ReadLen(s, blockBeg, length) == length
  {
    if p > 1 {
      OffsetMono(s.size, 2, p);
    }
  }

  lemma MultiRead(s: FileInfo, blockBeg: nat, length: nat)
    requires 0 < length && 0 <= s.fileBegin && s.fileBegin + blockBeg < s.size < TWO_TO_THE_64
    ensures ReadLen(s, blockBeg, length) == Min(s.size - s.fileBegin - blockBeg, length)
  {
  }

  /** In-range reads take the rest of the file or the rest of the block, whichever is less:
      in single-file mode because the subtraction wraps (or gives 0, which stands for all). */
  lemma ReadLenExact(meta: MetaInfo, p: nat, s: FileInfo, blockBeg: nat, length: nat)
    requires meta.WellFormed() && SegmentOk(meta, p, s)
    requires 0 < length && blockBeg < Span(meta, s)
    requires meta.SingleFile? ==> s.pieceBegin == 0 && blockBeg + length <= meta.PieceLen(p)
    ensures ReadLen(s, blockBeg, length) == Min(FileSize(meta.Files(), s.path) - s.fileBegin - blockBeg, length)
  {
    if meta.SingleFile? {
      SingleBase(meta, p, s);
      SingleRead(s, p, blockBeg, length);
    } else {
      MultiBase(meta, p, s);
      MultiRead(s, blockBeg, length);
    }
  }

  lemma MultiBase(meta: MetaInfo, p: nat, s: FileInfo)
    requires meta.WellFormed() && meta.MultiFile? && SegmentOk(meta, p, s)
    ensures 0 <= s.fileBegin && s.size == FileSize(meta.Files(), s.path) < TWO_TO_THE_64
  {
    FileEndsInside(meta, p, s);
  }

  lemma SingleBase(meta: MetaInfo, p: nat, s: FileInfo)
    requires meta.WellFormed() && meta.SingleFile? && SegmentOk(meta, p, s) && s.pieceBegin == 0
    ensures 0 < s.size == meta.pieceLength < 0x8000_0000_0000_0000
    ensures s.fileBegin == Offset(s.size, p) < 0x8000_0000_0000_0000
    ensures FileSize(meta.Files(), s.path) == meta.Total()
    ensures meta.PieceLen(p) == Min(s.size, FileSize(meta.Files(), s.path) - s.fileBegin)
  {
    FileEndsInside(meta, p, s);
  }

  /** How an operation ended: an exception leaves what was done so far. */
  datatype Outcome = Done | CannotOpen(path: Path)

  /** The bytes of a piece that go to segment s. */
  function Part(data: seq<byte>, s: FileInfo): seq<byte> {
    var n := WriteLen(|data|, s);
    if 0 <= s.pieceBegin && 0 <= n && s.pieceBegin + n <= |data| then data[s.pieceBegin..s.pieceBegin + n] else []
  }

  /** The disk, spilled bytes included, once the first n segments of a piece are written. */
  function DiskWritten(segs: seq<FileInfo>, n: nat, data: seq<byte>, disk: Disk): Disk
    requires n <= |segs| && BeginsKnown(segs)
  {
    if n == 0 then disk
    else
      var was, s := DiskWritten(segs, n - 1, data, disk), segs[n - 1];
      was[s.path := PutRange(Contents(was, s.path), s.fileBegin, Part(data, s))]
  }

  /** The first segment whose file is not there, or the number of segments. */
  function FirstMissing(segs: seq<FileInfo>, disk: Disk): (n: nat)
    ensures n <= |segs| && Openable(segs, n, disk)
    ensures n < |segs| ==> segs[n].path !in disk
  {
    if segs == [] || segs[0].path !in disk then 0
    else
      var n := FirstMissing(segs[1..], disk);
      assert forall j :: 0 < j < n + 1 ==> segs[j] == segs[1..][j - 1];
      n + 1
  }

  lemma FirstMissingIs(segs: seq<FileInfo>, disk: Disk, n: nat)
    requires n <= |segs| && Openable(segs, n, disk)
    requires n < |segs| ==> segs[n].path !in disk
    ensures FirstMissing(segs, disk) == n
  {
  }

  lemma {:induction false} DiskWrittenKeys(segs: seq<FileInfo>, n: nat, data: seq<byte>, disk: Disk)
    requires n <= |segs| && BeginsKnown(segs)
    requires Openable(segs, n, disk)
    ensures DiskWritten(segs, n, data, disk).Keys == disk.Keys
  {
    hide PutRange, Part;
    if n > 0 {
      DiskWrittenKeys(segs, n - 1, data, disk);
    }
  }

  lemma PartIs(meta: MetaInfo, p: nat, s: FileInfo, data: seq<byte>)
    requires meta.WellFormed() && SegmentOk(meta, p, s) && p < meta.pieceCount && |data| == meta.PieceLen(p)
    requires meta.SingleFile? ==> s.pieceBegin == 0
    ensures 0 <= s.pieceBegin && 0 <= WriteLen(|data|, s) && s.pieceBegin + WriteLen(|data|, s) <= |data|
    ensures Part(data, s) == data[s.pieceBegin..s.pieceBegin + WriteLen(|data|, s)]
  {
    hide MetaInfo.WellFormed, SegmentOk, WriteLen, MetaInfo.PieceLen;
    WriteLenExact(meta, p, s);
  }

  /** How far into the piece segment j begins, the end of the piece for j past the last. */
  ghost function Reached(segs: seq<FileInfo>, j: nat, data: seq<byte>): int
    requires j <= |segs|
  {
    if j < |segs| then segs[j].pieceBegin else |data|
  }

  lemma {:induction false} WrittenSoFar(meta: MetaInfo, p: nat, segs: seq<FileInfo>, n: nat,
                                        data: seq<byte>, disk: Disk)
    requires meta.WellFormed() && p < meta.pieceCount
    requires Chain(meta, p, segs) && ChainEnd(meta, segs) == meta.PieceLen(p)
    requires |data| == meta.PieceLen(p) && n <= |segs| && Openable(segs, n, disk)
    ensures BeginsKnown(segs)
    ensures Written(meta.Files(), disk, DiskWritten(segs, n, data, disk), Offset(meta.pieceLength, p),
                    Offset(meta.pieceLength, p) + Reached(segs, n, data), data)
  {
    hide Written, Chain, ChainEnd, SegmentOk, Part, MetaInfo.WellFormed, MetaInfo.PieceLen, MetaInfo.Files;
    hide PutRange, Span, Offset;
    hide WriteLen;
    FileBegins(meta, p, segs);
    if n == 0 {
      NothingWritten(meta.Files(), disk, Offset(meta.pieceLength, p), data);
    } else {
      WrittenSoFar(meta, p, segs, n - 1, data, disk);
      DiskWrittenKeys(segs, n - 1, data, disk);
      ChainStep(meta, p, segs, n - 1);
      PartIs(meta, p, segs[n - 1], data);
      SegmentWritten(meta, p, segs[n - 1], data, WriteLen(|data|, segs[n - 1]), DiskWritten(segs, n - 1, data, disk),
                     disk, DiskWritten(segs, n, data, disk));
    }
  }

  /** Whatever spills past the declared end of a file, writing a piece changes the flat string in
      the piece's own window only, and there it becomes the piece. */
  lemma {:induction false} DiskWrittenIsSplice(meta: MetaInfo, p: nat, segs: seq<FileInfo>, data: seq<byte>, disk: Disk)
    requires meta.WellFormed() && p < meta.pieceCount
    requires Chain(meta, p, segs) && ChainEnd(meta, segs) == meta.PieceLen(p)
    requires |data| == meta.PieceLen(p) && Openable(segs, |segs|, disk)
    ensures BeginsKnown(segs)
    ensures Offset(meta.pieceLength, p) + |data| <= meta.Total()
    ensures DiskWritten(segs, |segs|, data, disk).Keys == disk.Keys
    ensures FlatOf(meta.Files(), DiskWritten(segs, |segs|, data, disk)) ==
            Splice(FlatOf(meta.Files(), disk), Offset(meta.pieceLength, p), data)
  {
    hide Written, Chain, ChainEnd, DiskWritten, MetaInfo.WellFormed, MetaInfo.PieceLen, FlatOf, Splice;
    PieceInside(meta, p);
    WrittenSoFar(meta, p, segs, |segs|, data, disk);
    DiskWrittenKeys(segs, |segs|, data, disk);
    WrittenIsSplice(meta.Files(), disk, DiskWritten(segs, |segs|, data, disk), Offset(meta.pieceLength, p), data);
  }

  /** `WritePieceToFile`: the segments are written one after the other, up to the first whose file
      cannot be opened. */
  method WriteSegments(meta: MetaInfo, segs: seq<FileInfo>, piece: Piece, disk: Disk) returns (r: Outcome, disk': Disk)
    requires meta.WellFormed() && piece.index < meta.pieceCount
    requires Chain(meta, piece.index, segs) && ChainEnd(meta, segs) == meta.PieceLen(piece.index)
    requires Regular(piece.blocks) && |Concat(piece.blocks)| == meta.PieceLen(piece.index)
    ensures BeginsKnown(segs)
    ensures disk' == DiskWritten(segs, FirstMissing(segs, disk), Concat(piece.blocks), disk)
    ensures disk'.Keys == disk.Keys
    ensures r.Done? <==> FirstMissing(segs, disk) == |segs|
    ensures r.CannotOpen? ==> r.path == segs[FirstMissing(segs, disk)].path
    ensures Offset(meta.pieceLength, piece.index) + |Concat(piece.blocks)| <= meta.Total()
    ensures r.Done? ==>
              FlatOf(meta.Files(), disk') ==
              Splice(FlatOf(meta.Files(), disk), Offset(meta.pieceLength, piece.index), Concat(piece.blocks))
  {
    hide Written, Regular, Chain, ChainEnd, MetaInfo.WellFormed, MetaInfo.PieceLen, FlatOf, Splice, FirstMissing;
    hide Concat, Part;
    PieceInside(meta, piece.index);
    FileBegins(meta, piece.index, segs);
    var pieceSize := Size(piece);
    disk' := disk;
    for j := 0 to |segs|
      invariant disk' == DiskWritten(segs, j, Concat(piece.blocks), disk) && disk'.Keys == disk.Keys
      invariant Openable(segs, j, disk)
    {
      ChainStep(meta, piece.index, segs, j);
      if segs[j].path !in disk' {
        FirstMissingIs(segs, disk, j);
        return CannotOpen(segs[j].path), disk';
      }
      disk' := WriteSegment(meta, segs[j], piece, pieceSize, disk');
    }
    r := Done;
    FirstMissingIs(segs, disk, |segs|);
    DiskWrittenIsSplice(meta, piece.index, segs, Concat(piece.blocks), disk);
  }

  /** One pass of the write loop: the part of the piece that goes to segment s, byte by byte. */
  method WriteSegment(meta: MetaInfo, s: FileInfo, piece: Piece, pieceSize: nat, disk: Disk) returns (disk': Disk)
    requires meta.WellFormed() && piece.index < meta.pieceCount && SegmentOk(meta, piece.index, s)
    requires (meta.SingleFile? ==> s.pieceBegin == 0) && s.fileBegin >= 0 && s.path in disk
    requires Regular(piece.blocks) && |Concat(piece.blocks)| == meta.PieceLen(piece.index) == pieceSize
    ensures disk' == disk[s.path := PutRange(disk[s.path], s.fileBegin, Part(Concat(piece.blocks), s))]
  {
    hide *;
    PartIs(meta, piece.index, s, Concat(piece.blocks));
    var n := WriteLen(pieceSize, s);
    var file := WriteBytes(piece.blocks, s.pieceBegin, n, disk[s.path], s.fileBegin);
    disk' := disk[s.path := file];
  }

  lemma SegmentWritten(meta: MetaInfo, p: nat, s: FileInfo, data: seq<byte>, n: int, disk: Disk, was: Disk, disk': Disk)
    requires meta.WellFormed() && p < meta.pieceCount && SegmentOk(meta, p, s)
    requires (meta.SingleFile? ==> s.pieceBegin == 0) && |data| == meta.PieceLen(p) && s.path in disk
    requires Written(meta.Files(), was, disk, Offset(meta.pieceLength, p),
                     Offset(meta.pieceLength, p) + s.pieceBegin, data)
    requires n == WriteLen(|data|, s) && 0 <= n && 0 <= s.fileBegin && 0 <= s.pieceBegin && s.pieceBegin + n <= |data|
    requires disk' == disk[s.path := PutRange(disk[s.path], s.fileBegin, data[s.pieceBegin..s.pieceBegin + n])]
    ensures Written(meta.Files(), was, disk', Offset(meta.pieceLength, p),
                    Offset(meta.pieceLength, p) + s.pieceBegin + Span(meta, s), data)
  {
    hide *;
    PathsDistinct(meta);
    WriteLenExact(meta, p, s);
    SegmentPlace(meta, p, s);
    WriteRun(meta.Files(), was, disk, Offset(meta.pieceLength, p), s.pieceBegin, n, data,
             IndexOf(meta.Files(), s.path), s.path, s.fileBegin, disk');
  }

  /** `seekp`, then `piece[i]` byte by byte. */
  method WriteBytes(blocks: seq<Block>, begin: nat, n: nat, file: seq<byte>, at: nat) returns (r: seq<byte>)
    requires Regular(blocks) && begin + n <= |Concat(blocks)|
    ensures r == PutRange(file, at, Concat(blocks)[begin..begin + n])
  {
    hide Regular, Indexable, At, Concat;
    ghost var data := Concat(blocks);
    r := file;
    for i := begin to begin + n
      invariant r == PutRange(file, at, data[begin..i])
    {
      AtIsConcat(blocks, i);
      assert data[begin..i + 1][..i - begin] == data[begin..i];
      r := PutByte(r, at + (i - begin), At(blocks, i));
    }
  }

  /** `std::upper_bound` by piece_begin: the first segment that starts after blockBeg. */
  method UpperBound(meta: MetaInfo, idx: nat, segs: seq<FileInfo>, blockBeg: nat) returns (k: nat)
    requires Chain(meta, idx, segs)
    ensures 0 < k <= |segs| && k - 1 == SegmentAt(meta, idx, segs, blockBeg)
    ensures segs[k - 1].pieceBegin <= blockBeg && (k < |segs| ==> blockBeg < segs[k].pieceBegin)
  {
    hide Chain;
    FileBegins(meta, idx, segs);
    k := 0;
    ghost var at := SegmentAt(meta, idx, segs, blockBeg);
    ChainStep(meta, idx, segs, at);
    while k < |segs| && blockBeg >= segs[k].pieceBegin
      invariant k <= at + 1
    {
      k := k + 1;
    }
    if k <= at {
      ChainSorted(meta, idx, segs, k, at);
    }
  }

  /** n bytes of a file from offset `at`, zeros past its end. */
  function FileSlice(file: seq<byte>, at: nat, n: nat): seq<byte> {
    seq(n, i requires 0 <= i < n => ByteAt(file, at + i))
  }

  /** The bytes the read loop ends up with when it has `got` some and goes on at segment `it`. */
  function ReadFrom(got: seq<byte>, segs: seq<FileInfo>, it: nat, beg: nat, rest: nat, disk: Disk): seq<byte>
    requires BeginsKnown(segs)
    decreases |segs| - it
  {
    if it >= |segs| || rest == 0 then got
    else
      var n := ReadLen(segs[it], beg, rest);
      var block := FileSlice(Contents(disk, segs[it].path), segs[it].fileBegin + beg, n);
      ReadFrom(got + block, segs, it + 1, 0, rest - n, disk)
  }

  /** Wherever a segment lies inside the piece, its file and `flat` hold the same bytes. */
  ghost predicate Mirrors(flat: seq<byte>, meta: MetaInfo, p: nat, s: FileInfo, disk: Disk) {
    && 0 <= s.fileBegin && 0 <= s.pieceBegin
    && forall beg: nat, n: nat :: beg + n <= Span(meta, s) ==> SameBytes(flat, meta, p, s, disk, beg, n)
  }

  ghost predicate SameBytes(flat: seq<byte>, meta: MetaInfo, p: nat, s: FileInfo, disk: Disk, beg: nat, n: nat)
    requires 0 <= s.fileBegin && 0 <= s.pieceBegin
  {
    && Offset(meta.pieceLength, p) + s.pieceBegin + beg + n <= |flat|
    && FileSlice(Contents(disk, s.path), s.fileBegin + beg, n) ==
       Slice(flat, Offset(meta.pieceLength, p) + s.pieceBegin + beg, n)
  }

  lemma FlatSame(meta: MetaInfo, p: nat, s: FileInfo, disk: Disk, beg: nat, n: nat)
    requires meta.WellFormed() && SegmentOk(meta, p, s) && beg + n <= Span(meta, s)
    ensures 0 <= s.fileBegin && 0 <= s.pieceBegin
    ensures SameBytes(FlatOf(meta.Files(), disk), meta, p, s, disk, beg, n)
  {
    hide MetaInfo.WellFormed, SegmentOk, FlatOf, FileAt;
    SegmentPlace(meta, p, s);
    FileEndsInside(meta, p, s);
    var flat := FlatOf(meta.Files(), disk);
    var at := Offset(meta.pieceLength, p) + s.pieceBegin + beg;
    assert at + n <= |flat|;
    hide Span;
    forall i | 0 <= i < n
      ensures FileSlice(Contents(disk, s.path), s.fileBegin + beg, n)[i] == Slice(flat, at, n)[i]
    {
      FlatByte(meta, disk, p, s, beg + i);
    }
  }

  lemma FlatMirrors(meta: MetaInfo, p: nat, s: FileInfo, disk: Disk)
    requires meta.WellFormed() && SegmentOk(meta, p, s)
    ensures Mirrors(FlatOf(meta.Files(), disk), meta, p, s, disk)
  {
    SegmentPlace(meta, p, s);
    hide MetaInfo.WellFormed, SegmentOk, SameBytes, FlatOf;
    forall beg: nat, n: nat | beg + n <= Span(meta, s)
      ensures SameBytes(FlatOf(meta.Files(), disk), meta, p, s, disk, beg, n)
    {
      FlatSame(meta, p, s, disk, beg, n);
    }
  }

  /** One segment of an in-range read: it is used up, and the next one is not empty, unless the
      read is complete. */
  lemma ReadOne(meta: MetaInfo, p: nat, segs: seq<FileInfo>, it: nat, beg: nat, rest: nat) returns (n: nat)
    requires meta.WellFormed() && p < meta.pieceCount
    requires Chain(meta, p, segs) && ChainEnd(meta, segs) == meta.PieceLen(p)
    requires it < |segs| && beg < Span(meta, segs[it]) && segs[it].pieceBegin + beg + rest <= meta.PieceLen(p)
    requires rest > 0
    ensures n == ReadLen(segs[it], beg, rest) <= rest && beg + n <= Span(meta, segs[it])
    ensures n < rest ==>
              && it + 1 < |segs|
              && segs[it + 1].pieceBegin == segs[it].pieceBegin + beg + n
              && 0 < Span(meta, segs[it + 1])
  {
    ChainStep(meta, p, segs, it);
    ReadLenExact(meta, p, segs[it], beg, rest);
    n := ReadLen(segs[it], beg, rest);
    if n < rest && it + 1 < |segs| {
      NextSegment(meta, p, segs, it);
    }
  }

  /** Started inside a segment and kept inside the piece, the loop collects a slice of the flat
      string: it never stops at an empty segment and never runs past the end of a file. */
  lemma {:induction false} ReadIsSlice(flat: seq<byte>, meta: MetaInfo, p: nat, segs: seq<FileInfo>, got: seq<byte>,
                                       it: nat, beg: nat, rest: nat, disk: Disk, at: nat)
    requires meta.WellFormed() && p < meta.pieceCount
    requires Chain(meta, p, segs) && ChainEnd(meta, segs) == meta.PieceLen(p)
    requires forall j :: 0 <= j < |segs| ==> Mirrors(flat, meta, p, segs[j], disk)
    requires it < |segs| && beg < Span(meta, segs[it]) && segs[it].pieceBegin + beg + rest <= meta.PieceLen(p)
    requires at + |got| == Offset(meta.pieceLength, p) + segs[it].pieceBegin + beg
    requires at + |got| + rest <= |flat| && got == Slice(flat, at, |got|)
    ensures ReadFrom(got, segs, it, beg, rest, disk) == Slice(flat, at, |got| + rest)
    decreases |segs| - it
  {
    hide Chain, ChainEnd, SegmentOk, MetaInfo.WellFormed, Span, ReadLen, FileSlice, Slice;
    if rest > 0 {
      var n := ReadOne(meta, p, segs, it, beg, rest);
      assert SameBytes(flat, meta, p, segs[it], disk, beg, n);
      SliceGrows(flat, at, |got|, n);
      if n < rest {
        ReadIsSlice(flat, meta, p, segs, Slice(flat, at, |got| + n), it + 1, 0, rest - n, disk, at);
      }
    }
  }

  lemma NextSegment(meta: MetaInfo, p: nat, segs: seq<FileInfo>, it: nat)
    requires meta.WellFormed() && Chain(meta, p, segs) && it + 1 < |segs|
    requires segs[it].pieceBegin + Span(meta, segs[it]) < meta.pieceLength
    ensures segs[it + 1].pieceBegin == segs[it].pieceBegin + Span(meta, segs[it]) && Span(meta, segs[it + 1]) > 0
  {
    ChainStep(meta, p, segs, it);
    ChainStep(meta, p, segs, it + 1);
    StartedFile(meta, p, segs[it + 1]);
  }

  /** What `ReadPieceBlockFromFile` returns for any begin and length. */
  ghost function Fetched(meta: MetaInfo, p: nat, segs: seq<FileInfo>, blockBeg: nat, length: nat, disk: Disk): seq<byte>
    requires Chain(meta, p, segs)
  {
    FileBegins(meta, p, segs);
    var it := SegmentAt(meta, p, segs, blockBeg);
    ReadFrom([], segs, it, blockBeg - segs[it].pieceBegin, length, disk)
  }

  /** A block inside the piece is exactly the asked slice of the flat string. */
  lemma FetchedIsSlice(meta: MetaInfo, p: nat, segs: seq<FileInfo>, blockBeg: nat, length: nat, disk: Disk)
    requires meta.WellFormed() && p < meta.pieceCount
    requires Chain(meta, p, segs) && ChainEnd(meta, segs) == meta.PieceLen(p)
    requires blockBeg + length <= meta.PieceLen(p)
    ensures Offset(meta.pieceLength, p) + blockBeg + length <= meta.Total()
    ensures Fetched(meta, p, segs, blockBeg, length, disk) ==
            Slice(FlatOf(meta.Files(), disk), Offset(meta.pieceLength, p) + blockBeg, length)
  {
    hide MetaInfo.WellFormed, MetaInfo.PieceLen, Chain, ChainEnd, FlatOf, Slice, ReadFrom;
    var it := SegmentAt(meta, p, segs, blockBeg);
    ReadInRange(meta, p, segs, it, blockBeg, length, disk);
  }

  /** The loop of `ReadPieceBlockFromFile`; `begin` in the result is relative to the segment the
      block starts in. */
  method ReadSegments(meta: MetaInfo, idx: nat, segs: seq<FileInfo>, blockBeg: nat, length: nat, disk: Disk)
    returns (r: Outcome, block: Block)
    requires meta.WellFormed() && idx < meta.pieceCount
    requires Chain(meta, idx, segs) && ChainEnd(meta, segs) == meta.PieceLen(idx)
    ensures Openable(segs, |segs|, disk) ==> r.Done?
    ensures r.CannotOpen? ==> r.path !in disk && exists j :: 0 <= j < |segs| && segs[j].path == r.path
    ensures r.Done? ==> block.data == Fetched(meta, idx, segs, blockBeg, length, disk)
    ensures r.Done? && blockBeg + length <= meta.PieceLen(idx) ==>
              && Offset(meta.pieceLength, idx) + blockBeg + length <= meta.Total()
              && block.data == Slice(FlatOf(meta.Files(), disk), Offset(meta.pieceLength, idx) + blockBeg, length)
    ensures r.Done? ==> block.begin == blockBeg - segs[SegmentAt(meta, idx, segs, blockBeg)].pieceBegin
  {
    hide MetaInfo.WellFormed, MetaInfo.PieceLen, Chain, ChainEnd, FlatOf, Slice, ReadFrom;
    var it := UpperBound(meta, idx, segs, blockBeg);
    it := it - 1;
    r, block := ReadLoop(meta, idx, segs, it, blockBeg - segs[it].pieceBegin, length, disk);
    if blockBeg + length <= meta.PieceLen(idx) {
      FetchedIsSlice(meta, idx, segs, blockBeg, length, disk);
    }
  }

  lemma ReadInRange(meta: MetaInfo, p: nat, segs: seq<FileInfo>, it: nat, blockBeg: nat, length: nat, disk: Disk)
    requires meta.WellFormed() && p < meta.pieceCount
    requires Chain(meta, p, segs) && ChainEnd(meta, segs) == meta.PieceLen(p)
    requires it < |segs| && segs[it].pieceBegin <= blockBeg && (it + 1 < |segs| ==> blockBeg < segs[it + 1].pieceBegin)
    requires blockBeg + length <= meta.PieceLen(p)
    ensures Offset(meta.pieceLength, p) + blockBeg + length <= meta.Total()
    ensures ReadFrom([], segs, it, blockBeg - segs[it].pieceBegin, length, disk) ==
            Slice(FlatOf(meta.Files(), disk), Offset(meta.pieceLength, p) + blockBeg, length)
  {
    hide MetaInfo.WellFormed, MetaInfo.PieceLen, Chain, ChainEnd, SegmentOk, Span, Mirrors, ReadLen, FileSlice, FlatOf;
    PieceInside(meta, p);
    if length > 0 {
      ChainStep(meta, p, segs, it);
      forall j | 0 <= j < |segs|
        ensures Mirrors(FlatOf(meta.Files(), disk), meta, p, segs[j], disk)
      {
        ChainStep(meta, p, segs, j);
        FlatMirrors(meta, p, segs[j], disk);
      }
      ReadIsSlice(FlatOf(meta.Files(), disk), meta, p, segs, [], it, blockBeg - segs[it].pieceBegin, length, disk,
                  Offset(meta.pieceLength, p) + blockBeg);
    }
  }

  lemma FileBegins(meta: MetaInfo, p: nat, segs: seq<FileInfo>)
    requires Chain(meta, p, segs)
    ensures BeginsKnown(segs)
    ensures |segs| > 0 && segs[0].pieceBegin == 0
  {
  }

  method ReadLoop(meta: MetaInfo, ghost idx: nat, segs: seq<FileInfo>, start: nat, blockBeg: nat, length: nat,
                  disk: Disk)
    returns (r: Outcome, block: Block)
    requires Chain(meta, idx, segs) && start < |segs|
    ensures BeginsKnown(segs)
    ensures Openable(segs, |segs|, disk) ==> r.Done?
    ensures r.CannotOpen? ==> r.path !in disk && exists j :: 0 <= j < |segs| && segs[j].path == r.path
    ensures r.Done? ==> block == Block(ReadFrom([], segs, start, blockBeg, length, disk), blockBeg)
  {
    hide Chain, ReadLen, FileSlice, MetaInfo.Files;
    FileBegins(meta, idx, segs);
    var it, beg, rest := start, blockBeg, length;
    block := Block([], beg);
    while it < |segs| && rest > 0
      invariant it <= |segs| && 0 <= rest && 0 <= beg && block.begin == blockBeg
      invariant ReadFrom(block.data, segs, it, beg, rest, disk) == ReadFrom([], segs, start, blockBeg, length, disk)
    {
      if segs[it].path !in disk {
        return CannotOpen(segs[it].path), block;
      }
      var size := ReadLen(segs[it], beg, rest);
      var data := ReadBytes(disk[segs[it].path], segs[it].fileBegin + beg, size);
      block := block.(data := block.data + data);
      rest := rest - size;
      beg := 0;
      it := it + 1;
    }
    r := Done;
  }

  /** `seekg`, then byte by byte. */
  method ReadBytes(file: seq<byte>, at: nat, size: nat) returns (data: seq<byte>)
    ensures data == FileSlice(file, at, size)
  {
    data := [];
    for j := 0 to size
      invariant data == FileSlice(file, at, j)
    {
      data := data + [ByteAt(file, at + j)];
    }
  }

  lemma SliceOfSplice(flat: seq<byte>, at: nat, data: seq<byte>, from: nat, n: nat)
    requires at + |data| <= |flat| && from + n <= |flat|
    ensures at <= from && from + n <= at + |data| ==>
              Slice(Splice(flat, at, data), from, n) == data[from - at..from - at + n]
    ensures from + n <= at || at + |data| <= from ==> Slice(Splice(flat, at, data), from, n) == Slice(flat, from, n)
  {
    hide Splice;
    var r := Slice(Splice(flat, at, data), from, n);
    forall i | 0 <= i < n
      ensures r[i] == if at <= from + i < at + |data| then data[from + i - at] else flat[from + i]
    {
    }
  }

  lemma {:induction false} Apart(meta: MetaInfo, p: nat, q: nat)
    requires meta.WellFormed() && p < q
    ensures Offset(meta.pieceLength, p) + meta.PieceLen(p) <= Offset(meta.pieceLength, q)
  {
    OffsetMono(meta.pieceLength, p + 1, q);
  }

  /** What one write means to every later read: blocks of the written piece return what was
      written, blocks of every other piece what they returned before. */
  lemma ReadAfterWrite(meta: MetaInfo, flat: seq<byte>, p: nat, data: seq<byte>, q: nat, b: nat, n: nat)
    requires meta.WellFormed() && |flat| == meta.Total()
    requires p < meta.pieceCount && |data| == meta.PieceLen(p)
    requires q < meta.pieceCount && b + n <= meta.PieceLen(q)
    ensures Offset(meta.pieceLength, p) + |data| <= |flat| && Offset(meta.pieceLength, q) + b + n <= |flat|
    ensures Slice(Splice(flat, Offset(meta.pieceLength, p), data), Offset(meta.pieceLength, q) + b, n) ==
            if q == p then data[b..b + n] else Slice(flat, Offset(meta.pieceLength, q) + b, n)
  {
    hide MetaInfo.WellFormed, MetaInfo.PieceLen, Splice, Slice;
    PieceInside(meta, p);
    PieceInside(meta, q);
    if q < p {
      Apart(meta, q, p);
    } else if p < q {
      Apart(meta, p, q);
    }
    SliceOfSplice(flat, Offset(meta.pieceLength, p), data, Offset(meta.pieceLength, q) + b, n);
  }
}
