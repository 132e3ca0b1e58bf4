/** What the flat string, a write and a read are in terms of the files' own bytes. */
module DiskFiles {
  import opened Pieces
  import opened Layout
  import opened Storage

  function Zeros(n: nat): (r: seq<byte>)
    ensures |r| == n
  {
    seq(n, _ => 0)
  }

  /** The first n bytes of a file, filled up with zeros if it has fewer. */
  function Exactly(file: seq<byte>, n: nat): (r: seq<byte>)
    ensures |r| == n
  {
    if n <= |file| then file[..n] else file + Zeros(n - |file|)
  }

  /** The first n files, one behind the other, each at its declared length. */
  function EndToEnd(files: seq<FileEntry>, disk: Disk, n: nat): seq<byte>
    requires n <= |files|
  {
    if n == 0 then []
    else EndToEnd(files, disk, n - 1) + Exactly(Contents(disk, files[n - 1].path), files[n - 1].size)
  }

  lemma ExactlyByte(file: seq<byte>, n: nat, k: nat)
    requires k < n
    ensures Exactly(file, n)[k] == ByteAt(file, k)
  {
  }

  lemma {:induction false} EndToEndByte(files: seq<FileEntry>, disk: Disk, n: nat, g: nat)
    requires n <= |files| && g < Prefix(files, n)
    ensures |EndToEnd(files, disk, n)| == Prefix(files, n)
    ensures EndToEnd(files, disk, n)[g] ==
            ByteAt(Contents(disk, files[FileAt(files, n, g)].path), g - Prefix(files, FileAt(files, n, g)))
  {
    hide Exactly, ByteAt, Contents;
    EndToEndLength(files, disk, n);
    EndToEndLength(files, disk, n - 1);
    if g < Prefix(files, n - 1) {
      EndToEndByte(files, disk, n - 1, g);
    } else {
      ExactlyByte(Contents(disk, files[n - 1].path), files[n - 1].size, g - Prefix(files, n - 1));
      ExactlyLength(Contents(disk, files[n - 1].path), files[n - 1].size);
    }
  }

  lemma ExactlyLength(file: seq<byte>, n: nat)
    ensures |Exactly(file, n)| == n
  {
  }

  lemma {:induction false} EndToEndLength(files: seq<FileEntry>, disk: Disk, n: nat)
    requires n <= |files|
    ensures |EndToEnd(files, disk, n)| == Prefix(files, n)
  {
    hide Exactly, Contents;
    if n > 0 {
      EndToEndLength(files, disk, n - 1);
      ExactlyLength(Contents(disk, files[n - 1].path), files[n - 1].size);
    }
  }

  /** The flat string is the files laid end to end. */
  lemma FlatIsEndToEnd(files: seq<FileEntry>, disk: Disk)
    ensures FlatOf(files, disk) == EndToEnd(files, disk, |files|)
  {
    hide FlatOf, EndToEnd, Prefix, ByteAt, Contents, FileAt;
    FlatLength(files, disk);
    EndToEndLength(files, disk, |files|);
    forall g: nat | g < Prefix(files, |files|)
      ensures FlatOf(files, disk)[g] == EndToEnd(files, disk, |files|)[g]
    {
      FlatByteIs(files, disk, g);
      EndToEndByte(files, disk, |files|, g);
    }
  }

  lemma FlatByteIs(files: seq<FileEntry>, disk: Disk, g: nat)
    requires g < Prefix(files, |files|)
    ensures g < |FlatOf(files, disk)|
    ensures FlatOf(files, disk)[g] ==
            ByteAt(Contents(disk, files[FileAt(files, |files|, g)].path), g - Prefix(files, FileAt(files, |files|, g)))
  {
    hide ByteAt, Contents, Prefix;
  }

  lemma FlatLength(files: seq<FileEntry>, disk: Disk)
    ensures |FlatOf(files, disk)| == Prefix(files, |files|)
  {
  }

  lemma {:induction false} PutRangeLength(file: seq<byte>, at: nat, data: seq<byte>)
    requires data != []
    ensures |PutRange(file, at, data)| == if at + |data| < |file| then |file| else at + |data|
  {
    if |data| == 1 {
      assert PutRange(file, at, data[..0]) == file;
    } else {
      PutRangeLength(file, at, data[..|data| - 1]);
    }
  }

  lemma PutRangeByte(file: seq<byte>, at: nat, data: seq<byte>, k: nat)
    requires k < |PutRange(file, at, data)|
    ensures PutRange(file, at, data)[k] == if at <= k < at + |data| then data[k - at] else ByteAt(file, k)
  {
    assert PutRange(file, at, data)[k] == ByteAt(PutRange(file, at, data), k);
  }

  lemma PutRangeHead(file: seq<byte>, at: nat, data: seq<byte>)
    requires |PutRange(file, at, data)| >= at
    ensures PutRange(file, at, data)[..at] == Exactly(file, at)
  {
    hide PutRange, Exactly;
    ExactlyLength(file, at);
    forall k: nat | k < at
      ensures PutRange(file, at, data)[..at][k] == Exactly(file, at)[k]
    {
      PutRangeByte(file, at, data, k);
      ExactlyByte(file, at, k);
    }
  }

  lemma PutRangeMiddle(file: seq<byte>, at: nat, data: seq<byte>)
    requires |PutRange(file, at, data)| >= at + |data|
    ensures PutRange(file, at, data)[at..at + |data|] == data
  {
    hide PutRange;
    forall k: nat | k < |data|
      ensures PutRange(file, at, data)[at..at + |data|][k] == data[k]
    {
      PutRangeByte(file, at, data, at + k);
    }
  }

  lemma PutRangeTail(file: seq<byte>, at: nat, data: seq<byte>)
    requires at + |data| < |PutRange(file, at, data)| == |file|
    ensures PutRange(file, at, data)[at + |data|..] == file[at + |data|..]
  {
    hide PutRange;
    var end := at + |data|;
    forall k: nat | k < |file| - end
      ensures PutRange(file, at, data)[end..][k] == file[end..][k]
    {
      PutRangeByte(file, at, data, end + k);
    }
  }

  /** Writing some bytes replaces the file's bytes there; a gap before them is filled with zeros. */
  lemma PutRangeIs(file: seq<byte>, at: nat, data: seq<byte>)
    requires data != []
    ensures PutRange(file, at, data) ==
            Exactly(file, at) + data + if at + |data| < |file| then file[at + |data|..] else []
  {
    hide PutRange, Exactly;
    PutRangeLength(file, at, data);
    PutRangeHead(file, at, data);
    PutRangeMiddle(file, at, data);
    var r, end := PutRange(file, at, data), at + |data|;
    if end < |file| {
      PutRangeTail(file, at, data);
    }
    assert r == r[..at] + r[at..end] + r[end..];
  }

  /** Reading takes the file's own bytes. */
  lemma FileSliceIs(file: seq<byte>, at: nat, n: nat)
    ensures at + n <= |file| ==> FileSlice(file, at, n) == file[at..at + n]
    ensures at >= |file| ==> FileSlice(file, at, n) == Zeros(n)
  {
    var r := FileSlice(file, at, n);
    assert |r| == n && forall k: nat :: k < n ==> r[k] == ByteAt(file, at + k);
    if at + n <= |file| {
      assert r == file[at..at + n];
    } else if at >= |file| {
      assert r == Zeros(n);
    }
  }
}
