/** Whole downloads: peers choosing, assembling and losing pieces, a worker pool that checks and
    writes them, and uploads, interleaved in any order. A run is any list of steps; a step that
    is not enabled changes nothing. The disk holds files, seen as the flat byte string they refine. */
module Lifecycle {
  import opened Common
  import opened Pieces
  import opened Layout
  import opened FillFiles
  import opened Storage
  import opened BlockReads
  import opened Requests
  import opened Assembly

  type PeerId = nat

  /** The metainfo with its string of 20-byte hashes, the segments of the pieces, and the hash
      function. */
  datatype Config = Config(meta: MetaInfo, table: PieceTable, pieces: seq<byte>, sha1: seq<byte> -> seq<byte>)
  {
    ghost predicate WellFormed() {
      meta.WellFormed() && LaidOut(meta, table) && |pieces| == 20 * meta.pieceCount
    }

    function Segments(p: nat): (segs: seq<FileInfo>)
      requires WellFormed() && p < meta.pieceCount
      ensures Chain(meta, p, segs) && ChainEnd(meta, segs) == meta.PieceLen(p)
      ensures |segs| > 0 && BeginsKnown(segs)
    {
      LaidOutAt(meta, table, p);
      FileBegins(meta, p, table[p]);
      table[p]
    }

    /** The files on disk as one byte string. */
    ghost function Flat(disk: Disk): (flat: seq<byte>)
      ensures |flat| == meta.Total()
    {
      FlatOf(meta.Files(), disk)
    }

    /** The hash the metainfo promises for piece p. */
    function Hash(p: nat): seq<byte>
      requires |pieces| == 20 * meta.pieceCount && p < meta.pieceCount
    {
      pieces[20 * p..20 * p + 20]
    }
  }

  /** A write job is queued, then has checked and written its piece, then has only its request
      mark left to release (at once, if the check failed). */
  datatype Stage = Queued | Written | Finished

  datatype Job =
    | WriteJob(piece: Piece, stage: Stage)
    | ReadJob(index: nat, begin: Word32, length: Word32)

  /** A request that was answered, and the bytes that were sent. */
  datatype Upload = Upload(index: nat, begin: Word32, length: Word32, bytes: seq<byte>)

  datatype Event =
    | Selected(peer: PeerId, index: nat)
    | Unmarked(index: nat)

  datatype State = State(
    have: set<nat>,
    requested: set<nat>,
    ready: nat,
    endGame: bool,
    neighbours: map<PeerId, set<nat>>,
    active: map<PeerId, Piece>,
    jobs: map<nat, Job>,
    nextJob: nat,
    disk: Disk,
    uploads: seq<Upload>,
    log: seq<Event>)

  datatype Step =
    | Connect(peer: PeerId)
    | PeerHas(peer: PeerId, index: nat)
    | Disconnect(peer: PeerId)
    | Select(peer: PeerId, index: nat)
    | Receive(peer: PeerId, block: nat, data: seq<byte>)
    | Choke(peer: PeerId)
    | TimeOut(peer: PeerId)
    | CancelActive(peer: PeerId)
    | CheckAndWrite(job: nat)
    | SetPiece(job: nat)
    | Unbind(job: nat)
    | AskUpload(index: nat, begin: Word32, length: Word32)
    | Serve(job: nat)

  const END_GAME_STARTED_FROM: nat := 92

  /** A fresh start over whatever is on disk: no piece counts as there. */
  function Init(disk: Disk): State {
    State({}, {}, 0, false, map[], map[], map[], 0, disk, [], [])
  }

  /** Piece p as the disk holds it. */
  function OnDisk(c: Config, flat: seq<byte>, p: nat): seq<byte>
    requires c.WellFormed() && p < c.meta.pieceCount && |flat| == c.meta.Total()
  {
    PieceInside(c.meta, p);
    Slice(flat, Offset(c.meta.pieceLength, p), c.meta.PieceLen(p))
  }

  /** The length of piece p. */
  function Len(c: Config, p: nat): (n: nat)
    requires c.WellFormed() && p < c.meta.pieceCount
    ensures 0 < n == c.meta.PieceLen(p)
  {
    PieceInside(c.meta, p);
    c.meta.PieceLen(p)
  }

  /** The length of piece p was recorded as 0. */
  predicate Lost(c: Config, p: nat)
    requires c.meta.pieceLength > 0
  {
    p + 1 == c.meta.pieceCount && LastSizeLost(c.meta)
  }

  /** The length that requests go by. */
  function Recorded(c: Config, p: nat): nat
    requires c.WellFormed() && p < c.meta.pieceCount
  {
    if Lost(c, p) then 0 else Len(c, p)
  }

  ghost predicate Verified(c: Config, flat: seq<byte>, p: nat)
    requires c.WellFormed() && |flat| == c.meta.Total()
  {
    p < c.meta.pieceCount && c.sha1(OnDisk(c, flat, p)) == c.Hash(p)
  }

  ghost predicate JobOk(c: Config, s: State, job: Job)
    requires c.WellFormed()
  {
    match job
    case WriteJob(piece, stage) =>
      && piece.index < c.meta.pieceCount && !Lost(c, piece.index)
      && Assembled(piece, Len(c, piece.index))
      && (stage == Written ==> Verified(c, c.Flat(s.disk), piece.index))
    case ReadJob(index, _, _) => index in s.have
  }

  /** What was sent is part of content with the hash of the piece, from the offset asked for on,
      or nothing. */
  ghost predicate Genuine(c: Config, u: Upload)
    requires c.WellFormed()
  {
    && u.index < c.meta.pieceCount
    && (u.bytes == [] || exists content: seq<byte> :: IsPartOf(c, u, content))
  }

  predicate IsPartOf(c: Config, u: Upload, content: seq<byte>)
    requires |c.pieces| == 20 * c.meta.pieceCount && u.index < c.meta.pieceCount
  {
    && |content| == c.meta.PieceLen(u.index) && c.sha1(content) == c.pieces[20 * u.index..20 * u.index + 20]
    && u.begin + |u.bytes| <= |content| && u.bytes == content[u.begin..u.begin + |u.bytes|]
  }

  /** The request does not leave its piece, or the read is cut where the piece ends. */
  ghost predicate Proper(c: Config, p: nat, begin: Word32, length: Word32)
    requires c.WellFormed() && p < c.meta.pieceCount
  {
    StaysInside(c.meta, p, c.Segments(p), begin, length)
  }

  /** All that was asked for came: from inside the piece as much as the files of its segments have,
      or any amount, and something whenever something was asked for. */
  ghost predicate Whole(c: Config, u: Upload)
    requires c.WellFormed() && u.index < c.meta.pieceCount
  {
    && (u.length == 0 <==> u.bytes == [])
    && (u.begin + u.length <= c.meta.PieceLen(u.index) ==> |u.bytes| == u.length)
    && (u.begin < c.meta.PieceLen(u.index) ==>
          |u.bytes| == if Uncut(c.meta, u.index) then u.length
                       else Min(u.length, Reach(c.Segments(u.index)) - u.begin))
  }

  ghost predicate UploadOk(c: Config, u: Upload)
    requires c.WellFormed()
  {
    && u.index < c.meta.pieceCount
    && (Genuine(c, u) <==> Proper(c, u.index, u.begin, u.length))
    && Whole(c, u)
  }

  /** The last thing that happened to piece p's request mark was a selection. */
  predicate Pending(log: seq<Event>, p: nat) {
    if log == [] then false
    else
      var last := log[|log| - 1];
      if last.index == p then last.Selected? else Pending(log[..|log| - 1], p)
  }

  ghost predicate Inv(c: Config, s: State) {
    && c.WellFormed()
    && AllThere(c.meta, s.disk)
    && (forall p :: p in s.have ==> Verified(c, c.Flat(s.disk), p) && !Lost(c, p))
    && (forall k :: k in s.active ==>
          s.active[k].index < c.meta.pieceCount && Partial(s.active[k], Recorded(c, s.active[k].index)))
    && (forall j :: j in s.jobs ==> j < s.nextJob && JobOk(c, s, s.jobs[j]))
    && (forall i :: 0 <= i < |s.uploads| ==> UploadOk(c, s.uploads[i]))
    && (forall p :: p in s.requested <==> Pending(s.log, p))
    && |s.have| <= s.ready
    && (s.endGame <==> 0 < s.ready && s.ready * 100 >= END_GAME_STARTED_FROM * c.meta.pieceCount)
  }

  /** Piece p may be picked for peer k. */
  predicate MaySelect(c: Config, s: State, k: PeerId, p: nat) {
    && k in s.neighbours && k !in s.active
    && p < c.meta.pieceCount && p in s.neighbours[k] && p !in s.have
    && (s.endGame || p !in s.requested)
  }

  /** `TryToRequestPiece` with no active piece; outside end game the choice is marked. */
  function DoSelect(c: Config, s: State, k: PeerId, p: nat): State
    requires c.WellFormed()
  {
    if !MaySelect(c, s, k, p) then s
    else
      s.(active := s.active[k := NewPiece(p, BlockCount(Recorded(c, p)))],
         requested := if s.endGame then s.requested else s.requested + {p},
         log := if s.endGame then s.log else s.log + [Selected(k, p)])
  }

  /** `OnPieceBlock` with a block that answers an outstanding request of the active piece. */
  function DoReceive(c: Config, s: State, k: PeerId, b: nat, data: seq<byte>): State
    requires Inv(c, s)
  {
    if k !in s.active || b >= |s.active[k].blocks| || s.active[k].blocks[b] != EMPTY_BLOCK then s
    else
      if |data| != BlockLen(Recorded(c, s.active[k].index), b) then s
      else if !s.endGame && s.active[k].index !in s.requested then s
      else if s.active[k].index in s.have then s.(active := s.active - {k})
      else
        var piece := Store(s.active[k], b * MOST_REQUEST_SIZE, data);
        if piece.currentBlocksNum == piece.blockCount then
          s.(active := s.active - {k}, jobs := s.jobs[s.nextJob := WriteJob(piece, Queued)], nextJob := s.nextJob + 1)
        else s.(active := s.active[k := piece])
  }

  /** `UnmarkRequestedPiece`. */
  function Unmark(s: State, p: nat): State {
    s.(requested := s.requested - {p}, log := s.log + [Unmarked(p)])
  }

  function DoChoke(s: State, k: PeerId): State {
    if k !in s.active then s else Unmark(s, s.active[k].index).(active := s.active - {k})
  }

  function DoTimeOut(s: State, k: PeerId): State {
    if k !in s.active then s else Unmark(s, s.active[k].index)
  }

  /** `ArePieceValid`, and `WritePieceToFile` if it says yes. */
  function DoCheckAndWrite(c: Config, s: State, j: nat): State
    requires Inv(c, s)
  {
    if j !in s.jobs || !s.jobs[j].WriteJob? || s.jobs[j].stage != Queued then s
    else
      var piece := s.jobs[j].piece;
      assert JobOk(c, s, s.jobs[j]);
      var data := Concat(piece.blocks);
      if c.sha1(data) == c.Hash(piece.index) then
        var segs := c.Segments(piece.index);
        s.(disk := DiskWritten(segs, |segs|, data, s.disk), jobs := s.jobs[j := WriteJob(piece, Written)])
      else s.(jobs := s.jobs[j := WriteJob(piece, Finished)])
  }

  /** `SetPiece`: the bit is set, the counter grows, and the end game may begin. */
  function DoSetPiece(c: Config, s: State, j: nat): State {
    if j !in s.jobs || !s.jobs[j].WriteJob? || s.jobs[j].stage != Written then s
    else
      var piece := s.jobs[j].piece;
      s.(have := s.have + {piece.index},
         ready := s.ready + 1,
         endGame := s.endGame || (s.ready + 1) * 100 >= END_GAME_STARTED_FROM * c.meta.pieceCount,
         jobs := s.jobs[j := WriteJob(piece, Finished)])
  }

  function DoUnbind(s: State, j: nat): State {
    if j !in s.jobs || !s.jobs[j].WriteJob? || s.jobs[j].stage != Finished then s
    else Unmark(s, s.jobs[j].piece.index).(jobs := s.jobs - {j})
  }

  /** `OnRequest`: only pieces we have are queued for upload. */
  function DoAskUpload(s: State, p: nat, begin: Word32, length: Word32): State {
    if p !in s.have then s
    else s.(jobs := s.jobs[s.nextJob := ReadJob(p, begin, length)], nextJob := s.nextJob + 1)
  }

  /** The upload job sends whatever is read for the begin and length that were asked for. */
  ghost function DoServe(c: Config, s: State, j: nat): State
    requires Inv(c, s)
  {
    if j !in s.jobs || !s.jobs[j].ReadJob? then s
    else
      var job := s.jobs[j];
      assert JobOk(c, s, job) && Verified(c, c.Flat(s.disk), job.index);
      var bytes := Fetched(c.meta, job.index, c.Segments(job.index), job.begin, job.length, s.disk);
      s.(jobs := s.jobs - {j}, uploads := s.uploads + [Upload(job.index, job.begin, job.length, bytes)])
  }

  ghost function Do(c: Config, s: State, step: Step): State
    requires Inv(c, s)
  {
    match step
    case Connect(k) => if k in s.neighbours then s else s.(neighbours := s.neighbours[k := {}])
    case PeerHas(k, p) =>
      if k !in s.neighbours then s else s.(neighbours := s.neighbours[k := s.neighbours[k] + {p}])
    case Disconnect(k) => s.(neighbours := s.neighbours - {k}, active := s.active - {k})
    case Select(k, p) => DoSelect(c, s, k, p)
    case Receive(k, b, data) => DoReceive(c, s, k, b, data)
    case Choke(k) => DoChoke(s, k)
    case TimeOut(k) => DoTimeOut(s, k)
    case CancelActive(k) => s.(active := s.active - {k})
    case CheckAndWrite(j) => DoCheckAndWrite(c, s, j)
    case SetPiece(j) => DoSetPiece(c, s, j)
    case Unbind(j) => DoUnbind(s, j)
    case AskUpload(p, begin, length) => DoAskUpload(s, p, begin, length)
    case Serve(j) => DoServe(c, s, j)
  }

  lemma InitInv(c: Config, disk: Disk)
    requires c.WellFormed() && AllThere(c.meta, disk)
    ensures Inv(c, Init(disk))
  {
  }

  lemma SelectKeeps(c: Config, s: State, k: PeerId, p: nat)
    requires Inv(c, s)
    ensures Inv(c, DoSelect(c, s, k, p))
  {
    hide Config.WellFormed, Verified, UploadOk, Assembled, Partial, AllThere;
    var t := DoSelect(c, s, k, p);
    if t != s {
      NewIsPartial(p, Recorded(c, p));
      forall q
        ensures q in t.requested <==> Pending(t.log, q)
      {
        assert t.log != s.log ==> t.log[..|t.log| - 1] == s.log;
      }
    }
  }

  lemma UnmarkKeeps(c: Config, s: State, p: nat)
    requires Inv(c, s)
    ensures Inv(c, Unmark(s, p))
  {
    hide Config.WellFormed, Verified, UploadOk, Assembled, Partial, AllThere;
    var t := Unmark(s, p);
    forall q
      ensures q in t.requested <==> Pending(t.log, q)
    {
      assert t.log[..|t.log| - 1] == s.log;
    }
  }

  lemma ActiveOk(c: Config, s: State, k: PeerId)
    requires Inv(c, s) && k in s.active
    ensures c.WellFormed() && s.active[k].index < c.meta.pieceCount
    ensures Partial(s.active[k], Recorded(c, s.active[k].index))
  {
    hide Partial;
  }

  lemma JobIsOk(c: Config, s: State, j: nat)
    requires Inv(c, s) && j in s.jobs
    ensures JobOk(c, s, s.jobs[j]) && j < s.nextJob
  {
    hide JobOk;
  }

  lemma NoSuchJob(c: Config, s: State)
    requires Inv(c, s)
    ensures s.nextJob !in s.jobs
  {
    hide Config.WellFormed, AllThere, Partial, Pending, Assembled, Verified, UploadOk, JobOk;
  }

  lemma ActiveKeeps(c: Config, s: State, k: PeerId, piece: Piece)
    requires Inv(c, s) && piece.index < c.meta.pieceCount && Partial(piece, Recorded(c, piece.index))
    ensures Inv(c, s.(active := s.active[k := piece]))
  {
    hide Config.WellFormed, AllThere, Partial, Verified, UploadOk, Pending, Assembled;
  }

  /** A job may be added or replaced by any job that is in order. */
  lemma JobKeeps(c: Config, s: State, j: nat, job: Job, nextJob: nat)
    requires Inv(c, s) && JobOk(c, s, job) && j < nextJob && s.nextJob <= nextJob
    ensures Inv(c, s.(jobs := s.jobs[j := job], nextJob := nextJob))
  {
    hide Config.WellFormed, AllThere, Partial, Verified, UploadOk, Pending, Assembled;
  }

  lemma SlotNotLost(c: Config, piece: Piece, b: nat)
    requires c.WellFormed() && piece.index < c.meta.pieceCount && Partial(piece, Recorded(c, piece.index))
    requires b < |piece.blocks|
    ensures c.meta.pieceLength > 0 && !Lost(c, piece.index)
  {
    hide LastSizeLost, LaidOut;
  }

  lemma ReceiveKeeps(c: Config, s: State, k: PeerId, b: nat, data: seq<byte>)
    requires Inv(c, s)
    ensures Inv(c, DoReceive(c, s, k, b, data))
  {
    hide Inv, Partial, Assembled, Config.WellFormed, BlockLen, BlockCount;
    if k in s.active && DoReceive(c, s, k, b, data) != s {
      ActiveOk(c, s, k);
      FewerInv(c, s, s.(active := s.active - {k}));
      var piece := Store(s.active[k], b * MOST_REQUEST_SIZE, data);
      SlotNotLost(c, s.active[k], b);
      StoreKeepsPartial(s.active[k], Recorded(c, piece.index), b, data);
      if piece.currentBlocksNum == piece.blockCount {
        CompleteIsAssembled(piece, Len(c, piece.index));
        JobKeeps(c, s.(active := s.active - {k}), s.nextJob, WriteJob(piece, Queued), s.nextJob + 1);
      } else {
        ActiveKeeps(c, s, k, piece);
      }
    }
  }

  /** Writing a checked piece leaves every checked piece checked. */
  lemma WriteKeepsVerified(c: Config, flat: seq<byte>, p: nat, data: seq<byte>, q: nat)
    requires c.WellFormed() && |flat| == c.meta.Total()
    requires p < c.meta.pieceCount && |data| == c.meta.PieceLen(p) && c.sha1(data) == c.Hash(p)
    ensures Offset(c.meta.pieceLength, p) + |data| <= |flat|
    ensures q == p || Verified(c, flat, q) ==> Verified(c, Splice(flat, Offset(c.meta.pieceLength, p), data), q)
  {
    hide MetaInfo.WellFormed, LaidOut, MetaInfo.PieceLen, Splice, Slice;
    PieceInside(c.meta, p);
    if q < c.meta.pieceCount {
      PieceInside(c.meta, q);
      ReadAfterWrite(c.meta, flat, p, data, q, 0, c.meta.PieceLen(q));
      assert data[0..|data|] == data;
    }
  }

  lemma DiskKeeps(c: Config, s: State, disk: Disk)
    requires Inv(c, s) && AllThere(c.meta, disk)
    requires forall q: nat :: Verified(c, c.Flat(s.disk), q) ==> Verified(c, c.Flat(disk), q)
    ensures Inv(c, s.(disk := disk))
  {
    hide Config.WellFormed, Partial, Verified, UploadOk, Pending, Assembled, AllThere;
    var t := s.(disk := disk);
    forall j | j in t.jobs
      ensures j < t.nextJob && JobOk(c, t, t.jobs[j])
    {
      JobIsOk(c, s, j);
    }
  }

  /** The disk after a checked piece is written. */
  lemma WrittenDisk(c: Config, disk: Disk, p: nat, data: seq<byte>)
    requires c.WellFormed() && AllThere(c.meta, disk) && p < c.meta.pieceCount && |data| == c.meta.PieceLen(p)
    ensures Offset(c.meta.pieceLength, p) + |data| <= c.meta.Total()
    ensures var segs := c.Segments(p);
            var written := DiskWritten(segs, |segs|, data, disk);
            && AllThere(c.meta, written)
            && c.Flat(written) == Splice(c.Flat(disk), Offset(c.meta.pieceLength, p), data)
  {
    hide MetaInfo.WellFormed, LaidOut, Chain, ChainEnd, MetaInfo.PieceLen, FlatOf, Splice, DiskWritten;
    SegmentsThere(c.meta, p, c.Segments(p), disk);
    DiskWrittenIsSplice(c.meta, p, c.Segments(p), data, disk);
  }

  lemma CheckAndWriteKeeps(c: Config, s: State, j: nat)
    requires Inv(c, s)
    ensures Inv(c, DoCheckAndWrite(c, s, j))
  {
    if j in s.jobs && s.jobs[j].WriteJob? && s.jobs[j].stage == Queued {
      var piece := s.jobs[j].piece;
      JobIsOk(c, s, j);
      StateOk(c, s);
      hide Inv, Verified, Splice, Assembled, DiskWritten, AllThere, Config.WellFormed, Config.Flat;
      hide Config.Segments;
      var data := Concat(piece.blocks);
      if c.sha1(data) == c.Hash(piece.index) {
        var segs := c.Segments(piece.index);
        var disk := DiskWritten(segs, |segs|, data, s.disk);
        WrittenDisk(c, s.disk, piece.index, data);
        WriteKeepsVerified(c, c.Flat(s.disk), piece.index, data, piece.index);
        forall q: nat | Verified(c, c.Flat(s.disk), q)
          ensures Verified(c, c.Flat(disk), q)
        {
          WriteKeepsVerified(c, c.Flat(s.disk), piece.index, data, q);
        }
        DiskKeeps(c, s, disk);
        JobKeeps(c, s.(disk := disk), j, WriteJob(piece, Written), s.nextJob);
      } else {
        JobKeeps(c, s, j, WriteJob(piece, Finished), s.nextJob);
      }
    }
  }

  lemma StateOk(c: Config, s: State)
    requires Inv(c, s)
    ensures c.WellFormed() && AllThere(c.meta, s.disk)
    ensures forall p :: p in s.have ==> p < c.meta.pieceCount && Verified(c, c.Flat(s.disk), p) && !Lost(c, p)
  {
    hide Config.WellFormed, AllThere, Partial, UploadOk, Pending, Assembled;
  }

  lemma SetPieceKeeps(c: Config, s: State, j: nat)
    requires Inv(c, s)
    ensures Inv(c, DoSetPiece(c, s, j))
  {
    hide Config.WellFormed, AllThere, UploadOk, Pending, Partial, Verified, Assembled;
    if j in s.jobs {
      JobIsOk(c, s, j);
    }
  }

  lemma SubSlice(flat: seq<byte>, at: nat, n: nat, begin: nat, length: nat)
    requires at + n <= |flat| && begin + length <= n
    ensures Slice(flat, at + begin, length) == Slice(flat, at, n)[begin..begin + length]
  {
    var part, whole := Slice(flat, at + begin, length), Slice(flat, at, n);
    forall i | 0 <= i < length
      ensures part[i] == whole[begin..begin + length][i]
    {
    }
  }

  /** An answer from a checked piece is genuine exactly if the request was proper. */
  lemma AnswerIsExact(c: Config, disk: Disk, p: nat, begin: Word32, length: Word32)
    requires c.WellFormed() && p < c.meta.pieceCount && Verified(c, c.Flat(disk), p)
    ensures UploadOk(c, Upload(p, begin, length, Fetched(c.meta, p, c.Segments(p), begin, length, disk)))
  {
    hide MetaInfo.WellFormed, LaidOut, MetaInfo.PieceLen, Fetched, Slice, Config.Flat, Config.Segments, Proper;
    var u := Upload(p, begin, length, Fetched(c.meta, p, c.Segments(p), begin, length, disk));
    var content := OnDisk(c, c.Flat(disk), p);
    AnswerBytes(c, disk, u);
    AnswerWhole(c, disk, u);
    hide Whole;
    ContentLength(c, c.Flat(disk), p);
    if Proper(c, p, begin, length) && u.bytes != [] {
      assert IsPartOf(c, u, content);
    }
  }

  lemma ContentLength(c: Config, flat: seq<byte>, p: nat)
    requires c.WellFormed() && p < c.meta.pieceCount && |flat| == c.meta.Total()
    ensures |OnDisk(c, flat, p)| == c.meta.PieceLen(p)
  {
    PieceInside(c.meta, p);
  }

  lemma AnswerWhole(c: Config, disk: Disk, u: Upload)
    requires c.WellFormed() && u.index < c.meta.pieceCount
    requires u.bytes == Fetched(c.meta, u.index, c.Segments(u.index), u.begin, u.length, disk)
    ensures Whole(c, u)
  {
    hide MetaInfo.WellFormed, LaidOut, Chain, ChainEnd, MetaInfo.PieceLen, FlatOf, Slice, Fetched, Uncut, Reach;
    FetchedLength(c.meta, u.index, c.Segments(u.index), u.begin, u.length, disk);
    if u.begin + u.length <= c.meta.PieceLen(u.index) {
      FetchedIsSlice(c.meta, u.index, c.Segments(u.index), u.begin, u.length, disk);
    }
  }

  lemma AnswerBytes(c: Config, disk: Disk, u: Upload)
    requires c.WellFormed() && u.index < c.meta.pieceCount
    requires u.bytes == Fetched(c.meta, u.index, c.Segments(u.index), u.begin, u.length, disk)
    ensures Proper(c, u.index, u.begin, u.length) <==> u.bytes == [] || u.begin + |u.bytes| <= c.meta.PieceLen(u.index)
    ensures Proper(c, u.index, u.begin, u.length) && u.bytes != [] ==>
              u.bytes == OnDisk(c, c.Flat(disk), u.index)[u.begin..u.begin + |u.bytes|]
  {
    hide MetaInfo.WellFormed, LaidOut, Chain, ChainEnd, MetaInfo.PieceLen, FlatOf, Slice, Fetched, StaysInside;
    FetchedStaysInside(c.meta, u.index, c.Segments(u.index), u.begin, u.length, disk);
    if Proper(c, u.index, u.begin, u.length) && u.bytes != [] {
      PieceInside(c.meta, u.index);
      SubSlice(c.Flat(disk), Offset(c.meta.pieceLength, u.index), Len(c, u.index), u.begin, |u.bytes|);
    }
  }

  lemma ServeKeeps(c: Config, s: State, j: nat)
    requires Inv(c, s)
    ensures Inv(c, DoServe(c, s, j))
  {
    if j in s.jobs && s.jobs[j].ReadJob? {
      var job := s.jobs[j];
      JobIsOk(c, s, j);
      StateOk(c, s);
      hide Inv, Verified, Config.WellFormed, Config.Flat, Config.Segments, UploadOk;
      FewerInv(c, s, s.(jobs := s.jobs - {j}));
      AnswerIsExact(c, s.disk, job.index, job.begin, job.length);
      UploadKeeps(c, s.(jobs := s.jobs - {j}),
                  Upload(job.index, job.begin, job.length,
                         Fetched(c.meta, job.index, c.Segments(job.index), job.begin, job.length, s.disk)));
    }
  }

  lemma UploadKeeps(c: Config, s: State, u: Upload)
    requires Inv(c, s) && UploadOk(c, u)
    ensures Inv(c, s.(uploads := s.uploads + [u]))
  {
    hide Config.WellFormed, AllThere, Verified, UploadOk, Partial, Assembled, Pending;
  }

  /** Losing active pieces and jobs, or learning about neighbours, keeps the invariant. */
  lemma FewerInv(c: Config, s: State, t: State)
    requires Inv(c, s)
    requires t == s.(neighbours := t.neighbours, active := t.active, jobs := t.jobs)
    requires forall k :: k in t.active ==> k in s.active && t.active[k] == s.active[k]
    requires forall j :: j in t.jobs ==> j in s.jobs && t.jobs[j] == s.jobs[j]
    ensures Inv(c, t)
  {
    hide Config.WellFormed, AllThere, Verified, UploadOk, Partial, Assembled, Pending;
  }

  lemma AskUploadKeeps(c: Config, s: State, p: nat, begin: Word32, length: Word32)
    requires Inv(c, s)
    ensures Inv(c, DoAskUpload(s, p, begin, length))
  {
    hide Config.WellFormed, AllThere, Verified, UploadOk, Partial, Assembled, Pending;
  }

  /** Every step keeps the invariant. */
  lemma StepKeeps(c: Config, s: State, step: Step)
    requires Inv(c, s)
    ensures Inv(c, Do(c, s, step))
  {
    hide Inv, DoSelect, DoReceive, DoCheckAndWrite, DoSetPiece, DoAskUpload, DoServe, Unmark;
    match step
    case Connect(k) => FewerInv(c, s, Do(c, s, step));
    case PeerHas(k, p) => FewerInv(c, s, Do(c, s, step));
    case Disconnect(k) => FewerInv(c, s, Do(c, s, step));
    case Select(k, p) => SelectKeeps(c, s, k, p);
    case Receive(k, b, data) => ReceiveKeeps(c, s, k, b, data);
    case Choke(k) => ChokeKeeps(c, s, k);
    case TimeOut(k) => if k in s.active { UnmarkKeeps(c, s, s.active[k].index); }
    case CancelActive(k) => FewerInv(c, s, Do(c, s, step));
    case CheckAndWrite(j) => CheckAndWriteKeeps(c, s, j);
    case SetPiece(j) => SetPieceKeeps(c, s, j);
    case Unbind(j) => UnbindKeeps(c, s, j);
    case AskUpload(p, begin, length) => AskUploadKeeps(c, s, p, begin, length);
    case Serve(j) => ServeKeeps(c, s, j);
  }

  lemma ChokeKeeps(c: Config, s: State, k: PeerId)
    requires Inv(c, s)
    ensures Inv(c, DoChoke(s, k))
  {
    hide Inv;
    if k in s.active {
      UnmarkKeeps(c, s, s.active[k].index);
      FewerInv(c, Unmark(s, s.active[k].index), DoChoke(s, k));
    }
  }

  lemma UnbindKeeps(c: Config, s: State, j: nat)
    requires Inv(c, s)
    ensures Inv(c, DoUnbind(s, j))
  {
    hide Inv;
    if j in s.jobs && s.jobs[j].WriteJob? && s.jobs[j].stage == Finished {
      UnmarkKeeps(c, s, s.jobs[j].piece.index);
      FewerInv(c, Unmark(s, s.jobs[j].piece.index), DoUnbind(s, j));
    }
  }

  /** The state after a list of steps. */
  ghost function Run(c: Config, disk: Disk, steps: seq<Step>): (s: State)
    requires c.WellFormed() && AllThere(c.meta, disk)
    ensures Inv(c, s)
  {
    if steps == [] then
      InitInv(c, disk);
      Init(disk)
    else
      var s := Run(c, disk, steps[..|steps| - 1]);
      StepKeeps(c, s, steps[|steps| - 1]);
      Do(c, s, steps[|steps| - 1])
  }

  /** The hashes of the first n pieces, one behind the other. */
  function Hashes(c: Config, n: nat): seq<byte>
    requires |c.pieces| == 20 * c.meta.pieceCount && n <= c.meta.pieceCount
  {
    if n == 0 then [] else Hashes(c, n - 1) + c.Hash(n - 1)
  }

  lemma {:induction false} HashesUpTo(c: Config, n: nat)
    requires |c.pieces| == 20 * c.meta.pieceCount && n <= c.meta.pieceCount
    ensures Hashes(c, n) == c.pieces[..20 * n]
  {
    if n > 0 {
      HashesUpTo(c, n - 1);
      assert c.pieces[..20 * n] == c.pieces[..20 * (n - 1)] + c.pieces[20 * (n - 1)..20 * n];
    }
  }

  /** The hashes of the pieces, 20 bytes each, make up the metainfo's string. */
  lemma HashesAreThePieces(c: Config)
    requires |c.pieces| == 20 * c.meta.pieceCount
    ensures Hashes(c, c.meta.pieceCount) == c.pieces
    ensures forall p: nat :: p < c.meta.pieceCount ==> |c.Hash(p)| == 20
  {
    HashesUpTo(c, c.meta.pieceCount);
    assert c.pieces[..|c.pieces|] == c.pieces;
  }

  /** In every reachable state, the bytes on disk of a piece that counts as done, which are the
      full window of the piece or what is left of the last one, have the piece's own 20 bytes of
      the metainfo as their hash. */
  lemma DoneIsOnDisk(c: Config, disk: Disk, steps: seq<Step>, p: nat)
    requires c.WellFormed() && AllThere(c.meta, disk)
    requires p in Run(c, disk, steps).have
    ensures p < c.meta.pieceCount
    ensures var flat := c.Flat(Run(c, disk, steps).disk);
      var from, to := p * c.meta.pieceLength, Min((p + 1) * c.meta.pieceLength, |flat|);
      && 0 <= from < to <= |flat| && c.sha1(flat[from..to]) == c.pieces[20 * p..20 * p + 20]
  {
    var s := Run(c, disk, steps);
    StateOk(c, s);
    hide Run, Config.Flat, Config.WellFormed, AllThere, OnDisk;
    Window(c, c.Flat(s.disk), p);
  }

  lemma Window(c: Config, flat: seq<byte>, p: nat)
    requires c.WellFormed() && p < c.meta.pieceCount && |flat| == c.meta.Total()
    ensures var from, to := p * c.meta.pieceLength, Min((p + 1) * c.meta.pieceLength, |flat|);
      0 <= from < to <= |flat| && OnDisk(c, flat, p) == flat[from..to]
  {
    PieceInside(c.meta, p);
    OffsetIs(c.meta.pieceLength, p);
    MulStep(p, c.meta.pieceLength);
    hide Offset, LaidOut, MetaInfo.WellFormed, MetaInfo.Total;
  }

  /** In every run, the end game is on exactly from 92 percent of the pieces on, and the pieces counted
      are at least those that are done. */
  lemma EndGameIsOn(c: Config, disk: Disk, steps: seq<Step>)
    requires c.WellFormed() && AllThere(c.meta, disk)
    ensures var s := Run(c, disk, steps);
      (s.endGame <==> 0 < s.ready && s.ready * 100 >= 92 * c.meta.pieceCount) && |s.have| <= s.ready
  {
    EndGameOf(c, Run(c, disk, steps));
  }

  lemma EndGameOf(c: Config, s: State)
    requires Inv(c, s)
    ensures (s.endGame <==> 0 < s.ready && s.ready * 100 >= 92 * c.meta.pieceCount) && |s.have| <= s.ready
  {
    hide Config.WellFormed, AllThere, Verified, UploadOk, Partial, Assembled, Pending, JobOk;
  }

  /** In every run, a piece whose length was recorded as 0 stays undone: it has no slot for any
      block, and gets one request for no bytes, however often requesting is taken up again. */
  lemma LostIsNeverDone(c: Config, disk: Disk, steps: seq<Step>, k: nat)
    requires c.WellFormed() && AllThere(c.meta, disk) && c.meta.pieceCount > 0 && LastSizeLost(c.meta)
    ensures var last := c.meta.pieceCount - 1;
      && last !in Run(c, disk, steps).have
      && NewPiece(last, BlockCount(Recorded(c, last))).blocks == []
      && Emitted(last, Recorded(c, last), k) == [Range(last, 0, 0)]
  {
    hide Config.WellFormed, AllThere, Verified, LastSizeLost, Run;
    StateOk(c, Run(c, disk, steps));
    EmptyRequest(c.meta.pieceCount - 1, k);
  }

  /** In every run, what was sent for a request is part of content with the hash of the piece
      exactly if the request was proper. */
  lemma UploadsAreGenuine(c: Config, disk: Disk, steps: seq<Step>, i: nat)
    requires c.WellFormed() && AllThere(c.meta, disk)
    requires i < |Run(c, disk, steps).uploads|
    ensures var u := Run(c, disk, steps).uploads[i];
            u.index < c.meta.pieceCount && (Genuine(c, u) <==> Proper(c, u.index, u.begin, u.length))
  {
    UploadIsOk(c, Run(c, disk, steps), i);
    hide Run, Inv, Config.WellFormed, AllThere, Genuine, Proper, Whole;
  }

  /** In every run, a request inside its piece was answered in full: with that stretch of content
      whose hash is the piece's own 20 bytes of the metainfo. */
  lemma UploadsAreComplete(c: Config, disk: Disk, steps: seq<Step>, i: nat)
    requires c.WellFormed() && AllThere(c.meta, disk)
    requires i < |Run(c, disk, steps).uploads|
    ensures var u := Run(c, disk, steps).uploads[i];
      && u.index < c.meta.pieceCount
      && (u.begin + u.length <= c.meta.PieceLen(u.index) ==>
            |u.bytes| == u.length && (u.length > 0 ==> exists content :: HoldsStretch(c, u, content)))
  {
    var s := Run(c, disk, steps);
    var u := s.uploads[i];
    UploadIsOk(c, s, i);
    hide Run, Inv, Config.WellFormed, AllThere, IsPartOf, Uncut, HoldsStretch, Config.Segments;
    if u.begin + u.length <= c.meta.PieceLen(u.index) && u.length > 0 {
      var content :| IsPartOf(c, u, content);
      StretchOf(c, u, content);
    }
  }

  lemma UploadIsOk(c: Config, s: State, i: nat)
    requires Inv(c, s) && i < |s.uploads|
    ensures UploadOk(c, s.uploads[i])
  {
    hide Config.WellFormed, AllThere, Partial, Pending, Assembled, Verified, UploadOk;
  }

  predicate HoldsStretch(c: Config, u: Upload, content: seq<byte>)
    requires |c.pieces| == 20 * c.meta.pieceCount && u.index < c.meta.pieceCount
  {
    && c.sha1(content) == c.pieces[20 * u.index..20 * u.index + 20]
    && u.begin + u.length <= |content| == c.meta.PieceLen(u.index)
    && u.bytes == content[u.begin..u.begin + u.length]
  }

  lemma StretchOf(c: Config, u: Upload, content: seq<byte>)
    requires |c.pieces| == 20 * c.meta.pieceCount && u.index < c.meta.pieceCount
    requires IsPartOf(c, u, content) && |u.bytes| == u.length
    ensures HoldsStretch(c, u, content)
  {
  }

  /** The condition bites: if the last segment of a done piece does not end with the piece, the
      request of one byte more than the piece is answered, and with more than the piece. */
  lemma ImproperRequestIsAnswered(c: Config, s: State, p: nat)
    requires Inv(c, s) && p in s.have
    ensures c.WellFormed() && p < c.meta.pieceCount
    ensures c.meta.PieceLen(p) + 1 < TWO_TO_THE_32 && Reach(c.Segments(p)) != c.meta.PieceLen(p) ==>
      && Inv(c, DoAskUpload(s, p, 0, c.meta.PieceLen(p) + 1))
      && var t := DoServe(c, DoAskUpload(s, p, 0, c.meta.PieceLen(p) + 1), s.nextJob);
      && |t.uploads| == |s.uploads| + 1 && !Genuine(c, t.uploads[|s.uploads|])
  {
    hide Config.WellFormed, Verified, Config.Flat, Config.Segments, MetaInfo.WellFormed, MetaInfo.PieceLen, Reach, Inv;
    StateOk(c, s);
    LengthPositive(c, p);
    var n := c.meta.PieceLen(p) + 1;
    if n < TWO_TO_THE_32 && Reach(c.Segments(p)) != c.meta.PieceLen(p) {
      AskUploadKeeps(c, s, p, 0, n);
      LongAnswer(c, s.disk, p, n);
    }
  }

  lemma LengthPositive(c: Config, p: nat)
    requires c.WellFormed() && p < c.meta.pieceCount
    ensures 0 < c.meta.PieceLen(p)
  {
    PieceInside(c.meta, p);
  }

  lemma LongAnswer(c: Config, disk: Disk, p: nat, n: Word32)
    requires c.WellFormed() && p < c.meta.pieceCount && n > c.meta.PieceLen(p)
    requires Reach(c.Segments(p)) != c.meta.PieceLen(p)
    ensures !Genuine(c, Upload(p, 0, n, Fetched(c.meta, p, c.Segments(p), 0, n, disk)))
  {
    PieceInside(c.meta, p);
    hide MetaInfo.WellFormed, LaidOut, Chain, ChainEnd, MetaInfo.PieceLen, Fetched, Reach;
    FetchedStaysInside(c.meta, p, c.Segments(p), 0, n, disk);
  }

  /** The bitfield, the uploads and the log only grow, and the end game never ends. */
  lemma {:induction false} OnlyGrows(c: Config, disk: Disk, steps: seq<Step>, n: nat)
    requires c.WellFormed() && AllThere(c.meta, disk) && n <= |steps|
    ensures Run(c, disk, steps[..n]).have <= Run(c, disk, steps).have
    ensures Run(c, disk, steps[..n]).log <= Run(c, disk, steps).log
    ensures Run(c, disk, steps[..n]).uploads <= Run(c, disk, steps).uploads
    ensures Run(c, disk, steps[..n]).endGame ==> Run(c, disk, steps).endGame
  {
    if n == |steps| {
      assert steps[..n] == steps;
    } else {
      var front := steps[..|steps| - 1];
      assert front[..n] == steps[..n];
      OnlyGrows(c, disk, front, n);
      StepMoves(c, Run(c, disk, front), steps[|steps| - 1]);
    }
  }

  /** What any step may do: nothing is taken back, at most one event is logged, a selection only of a
      piece that was not marked, and a peer gets no piece but one that it has and we do not. */
  ghost predicate Moves(s: State, t: State) {
    && s.have <= t.have && s.uploads <= t.uploads && (s.endGame ==> t.endGame) && s.log <= t.log
    && |t.log| <= |s.log| + 1
    && (|t.log| > |s.log| && t.log[|s.log|].Selected? ==> t.log[|s.log|].index !in s.requested)
    && (forall k :: k in t.active ==>
          || (k in s.active && s.active[k].index == t.active[k].index)
          || (k in s.neighbours && t.active[k].index in s.neighbours[k] && t.active[k].index !in s.have))
  }

  lemma SelectMoves(c: Config, s: State, k: PeerId, p: nat)
    requires Inv(c, s)
    ensures Moves(s, DoSelect(c, s, k, p))
  {
    hide Inv, Config.WellFormed;
  }

  lemma ReceiveMoves(c: Config, s: State, k: PeerId, b: nat, data: seq<byte>)
    requires Inv(c, s)
    ensures Moves(s, DoReceive(c, s, k, b, data))
  {
    hide Inv, Config.WellFormed, BlockLen, BlockCount;
  }

  lemma CheckAndWriteMoves(c: Config, s: State, j: nat)
    requires Inv(c, s)
    ensures Moves(s, DoCheckAndWrite(c, s, j))
  {
    hide Inv, Config.WellFormed, DiskWritten, Concat, Config.Segments;
  }

  lemma ServeMoves(c: Config, s: State, j: nat)
    requires Inv(c, s)
    ensures Moves(s, DoServe(c, s, j))
  {
    hide Inv, Config.WellFormed, Fetched, Config.Segments;
  }

  lemma MarkMoves(s: State, k: PeerId, j: nat)
    ensures Moves(s, DoChoke(s, k)) && Moves(s, DoTimeOut(s, k)) && Moves(s, DoUnbind(s, j))
  {
  }

  lemma JobMoves(c: Config, s: State, j: nat, p: nat, begin: Word32, length: Word32)
    ensures Moves(s, DoSetPiece(c, s, j)) && Moves(s, DoAskUpload(s, p, begin, length))
  {
  }

  lemma StepMoves(c: Config, s: State, step: Step)
    requires Inv(c, s)
    ensures Moves(s, Do(c, s, step))
  {
    hide Inv, DoSelect, DoReceive, DoCheckAndWrite, DoServe, DoChoke, DoTimeOut, DoUnbind, DoSetPiece, DoAskUpload;
    match step
    case Select(k, p) => SelectMoves(c, s, k, p);
    case Receive(k, b, data) => ReceiveMoves(c, s, k, b, data);
    case CheckAndWrite(j) => CheckAndWriteMoves(c, s, j);
    case Serve(j) => ServeMoves(c, s, j);
    case Choke(k) => MarkMoves(s, k, 0);
    case TimeOut(k) => MarkMoves(s, k, 0);
    case Unbind(j) => MarkMoves(s, 0, j);
    case SetPiece(j) => JobMoves(c, s, j, 0, 0, 0);
    case AskUpload(p, begin, length) => JobMoves(c, s, 0, p, begin, length);
    case _ =>
  }

  /** Between two selections of a piece its mark was taken away. */
  ghost predicate Separated(log: seq<Event>) {
    forall i, j :: 0 <= i < j < |log| && log[i].Selected? && log[j].Selected? && log[i].index == log[j].index ==>
      exists m :: i < m < j && log[m] == Unmarked(log[i].index)
  }

  lemma {:induction false} NotPending(log: seq<Event>, i: nat) returns (m: nat)
    requires i < |log| && log[i].Selected? && !Pending(log, log[i].index)
    ensures i < m < |log| && log[m] == Unmarked(log[i].index)
  {
    var last := |log| - 1;
    if log[last].index == log[i].index {
      m := last;
    } else {
      m := NotPending(log[..last], i);
    }
  }

  lemma SelectSeparates(log: seq<Event>, e: Event)
    requires Separated(log) && (e.Selected? ==> !Pending(log, e.index))
    ensures Separated(log + [e])
  {
    var all := log + [e];
    forall i, j | 0 <= i < j < |all| && all[i].Selected? && all[j].Selected? && all[i].index == all[j].index
      ensures exists m :: i < m < j && all[m] == Unmarked(all[i].index)
    {
      if j == |log| {
        var m := NotPending(log, i);
        assert all[m] == Unmarked(all[i].index);
      } else {
        assert log[i].index == log[j].index;
        var m :| i < m < j && log[m] == Unmarked(log[i].index);
        assert all[m] == Unmarked(all[i].index);
      }
    }
  }

  lemma StepSeparates(c: Config, s: State, step: Step)
    requires Inv(c, s) && Separated(s.log)
    ensures Separated(Do(c, s, step).log)
  {
    hide Inv, Do, Separated, Pending;
    MarksArePending(c, s);
    StepMoves(c, s, step);
    var t := Do(c, s, step);
    if |t.log| > |s.log| {
      assert t.log == s.log + [t.log[|s.log|]];
      SelectSeparates(s.log, t.log[|s.log|]);
    } else {
      assert t.log == s.log;
    }
  }

  lemma MarksArePending(c: Config, s: State)
    requires Inv(c, s)
    ensures forall p :: p in s.requested <==> Pending(s.log, p)
  {
    hide Config.WellFormed, Verified, UploadOk, Partial, Assembled, Pending, AllThere;
  }

  /** Outside end game (only there selections are marked and logged), in every run, two
      selections of the same piece have its mark taken away between them. */
  lemma {:induction false} SelectionsAreSeparated(c: Config, disk: Disk, steps: seq<Step>)
    requires c.WellFormed() && AllThere(c.meta, disk)
    ensures Separated(Run(c, disk, steps).log)
  {
    if steps != [] {
      SelectionsAreSeparated(c, disk, steps[..|steps| - 1]);
      StepSeparates(c, Run(c, disk, steps[..|steps| - 1]), steps[|steps| - 1]);
    }
  }
}
