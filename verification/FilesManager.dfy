/** `TorrentFilesManager`: lays out the files, writes verified pieces, reads blocks back. */
module FilesManager {
  import opened Pieces
  import opened Layout
  import opened FillFiles
  import opened Storage

  /** Opening a missing file for writing creates it at its declared length. */
  function Created(disk: Disk, path: Path, size: nat): Disk {
    if path in disk then disk else disk[path := seq(size, _ => 0)]
  }

  function CreatedAll(files: seq<FileEntry>, n: nat, disk: Disk): Disk
    requires n <= |files|
  {
    if n == 0 then disk else Created(CreatedAll(files, n - 1, disk), files[n - 1].path, files[n - 1].size)
  }

  /** Files that were there are kept, and all files are there now. */
  lemma {:induction false} CreatedKeeps(files: seq<FileEntry>, n: nat, disk: Disk)
    requires n <= |files|
    ensures forall path ::
              path in disk ==> path in CreatedAll(files, n, disk) && CreatedAll(files, n, disk)[path] == disk[path]
    ensures forall f :: 0 <= f < n ==> files[f].path in CreatedAll(files, n, disk)
  {
    if n > 0 {
      CreatedKeeps(files, n - 1, disk);
    }
  }

  /** A file that was not there is created at its length. */
  lemma {:induction false} CreatedLength(files: seq<FileEntry>, n: nat, disk: Disk, f: nat)
    requires f < n <= |files| && Distinct(files) && files[f].path !in disk
    ensures files[f].path in CreatedAll(files, n, disk)
    ensures CreatedAll(files, n, disk)[files[f].path] == seq(files[f].size, _ => 0)
  {
    if f < n - 1 {
      CreatedLength(files, n - 1, disk, f);
    } else {
      CreatedOnly(files, n - 1, disk, files[f].path);
    }
  }

  /** No other file appears. */
  lemma {:induction false} CreatedOnly(files: seq<FileEntry>, n: nat, disk: Disk, path: Path)
    requires n <= |files| && path !in disk && forall f :: 0 <= f < n ==> files[f].path != path
    ensures path !in CreatedAll(files, n, disk)
  {
    if n > 0 {
      CreatedOnly(files, n - 1, disk, path);
    }
  }

  class TorrentFilesManager {
    const meta: MetaInfo
    var pieceSize: nat
    var lastPieceSize: nat
    var piecesByFiles: PieceTable
    var disk: Disk

    /** The layout this object keeps from construction on. */
    ghost predicate Valid()
      reads this
    {
      && meta.WellFormed()
      && LaidOut(meta, piecesByFiles)
      && pieceSize == meta.pieceLength
      && (meta.pieceCount > 0 ==>
            lastPieceSize == if LastSizeLost(meta) then 0 else meta.PieceLen(meta.pieceCount - 1))
    }

    ghost predicate Present()
      reads this
    {
      AllThere(meta, disk)
    }

    /** The disk as one byte string. */
    ghost function Flat(): (r: seq<byte>)
      reads this
      ensures |r| == meta.Total()
    {
      FlatOf(meta.Files(), disk)
    }

    constructor (meta: MetaInfo, disk: Disk)
      requires meta.WellFormed()
      ensures Valid() && Present() && this.meta == meta
      ensures this.disk == CreatedAll(meta.Files(), |meta.Files()|, disk)
    {
      this.meta := meta;
      this.disk := disk;
      this.pieceSize := meta.pieceLength;
      new;
      hide CreatedAll, MetaInfo.WellFormed, LaidOut, MetaInfo.PieceLen, LastSizeLost;
      CreateFiles();
      FillFiles();
      CreatedKeeps(meta.Files(), |meta.Files()|, disk);
    }

    method CreateFiles()
      modifies this`disk
      ensures disk == CreatedAll(meta.Files(), |meta.Files()|, old(disk))
    {
      for f := 0 to |meta.Files()|
        invariant disk == CreatedAll(meta.Files(), f, old(disk))
      {
        disk := Created(disk, meta.Files()[f].path, meta.Files()[f].size);
      }
    }

    method FillFiles()
      requires meta.WellFormed()
      modifies this`pieceSize, this`lastPieceSize, this`piecesByFiles
      ensures Valid()
    {
      pieceSize := meta.pieceLength;
      if meta.SingleFile? {
        piecesByFiles, lastPieceSize := FillSingle(meta);
      } else {
        piecesByFiles, lastPieceSize := FillMulti(meta);
      }
    }

    /** The segments of piece p. */
    ghost function Segments(p: nat): (segs: seq<FileInfo>)
      requires Valid() && p < meta.pieceCount
      reads this
      ensures Chain(meta, p, segs) && ChainEnd(meta, segs) == meta.PieceLen(p)
      ensures BeginsKnown(segs)
    {
      LaidOutAt(meta, piecesByFiles, p);
      FileBegins(meta, p, piecesByFiles[p]);
      piecesByFiles[p]
    }

    /** Writes a whole piece: the flat string changes in the piece's own window only. */
    method WritePieceToFile(piece: Piece) returns (r: Outcome)
      requires Valid() && piece.index < meta.pieceCount
      requires Regular(piece.blocks) && |Concat(piece.blocks)| == meta.PieceLen(piece.index)
      modifies this`disk
      ensures Valid() && disk.Keys == old(disk.Keys)
      ensures old(Present()) ==> Present() && r.Done?
      ensures var segs := Segments(piece.index); var n := FirstMissing(segs, old(disk));
        && disk == DiskWritten(segs, n, Concat(piece.blocks), old(disk))
        && r == if n == |segs| then Done else CannotOpen(segs[n].path)
      ensures Offset(meta.pieceLength, piece.index) + |Concat(piece.blocks)| <= meta.Total()
      ensures r.Done? ==>
                Flat() == Splice(old(Flat()), Offset(meta.pieceLength, piece.index), Concat(piece.blocks))
    {
      hide MetaInfo.WellFormed, LaidOut, Chain, ChainEnd, MetaInfo.PieceLen, FlatOf, Splice, Regular, DiskWritten;
      LaidOutAt(meta, piecesByFiles, piece.index);
      var segs := piecesByFiles[piece.index];
      if AllThere(meta, disk) {
        SegmentsThere(meta, piece.index, segs, disk);
      }
      r, disk := WriteSegments(meta, segs, piece, disk);
    }

    /** Reads a block; inside the piece it is exactly the asked slice of the flat string. */
    method ReadPieceBlockFromFile(idx: nat, blockBeg: nat, length: nat) returns (r: Outcome, block: Block)
      requires Valid() && idx < meta.pieceCount
      ensures Present() ==> r.Done?
      ensures r.CannotOpen? ==> r.path !in disk
      ensures r.Done? ==> block.data == Fetched(meta, idx, Segments(idx), blockBeg, length, disk)
      ensures r.Done? && blockBeg + length <= meta.PieceLen(idx) ==>
                && Offset(meta.pieceLength, idx) + blockBeg + length <= meta.Total()
                && block.data == Slice(Flat(), Offset(meta.pieceLength, idx) + blockBeg, length)
    {
      hide MetaInfo.WellFormed, LaidOut, Chain, ChainEnd, MetaInfo.PieceLen, FlatOf, Slice, Fetched;
      LaidOutAt(meta, piecesByFiles, idx);
      if AllThere(meta, disk) {
        SegmentsThere(meta, idx, piecesByFiles[idx], disk);
      }
      r, block := ReadSegments(meta, idx, piecesByFiles[idx], blockBeg, length, disk);
    }
  }
}
