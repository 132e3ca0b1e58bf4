/** The handlers of a peer do to the objects what the steps of `Lifecycle` do to the machine. */
module Handlers {
  import opened Common
  import opened Pieces
  import opened Layout
  import opened FillFiles
  import opened Storage
  import opened Requests
  import opened Assembly
  import opened Peers
  import opened Lifecycle
  import opened Downloads

  /** The peer goes by the piece length and by the size that was recorded for the last piece. */
  ghost predicate SizesKnown(client: PeerClient, c: Config)
    requires c.WellFormed()
  {
    && client.pieceSize == c.meta.pieceLength
    && (c.meta.pieceCount > 0 ==>
          client.lastPieceSize == if LastSizeLost(c.meta) then 0 else c.meta.PieceLen(c.meta.pieceCount - 1))
  }

  lemma SizeIsRecorded(client: PeerClient, c: Config, p: nat)
    requires c.WellFormed() && SizesKnown(client, c)
    requires |client.master.bits| == c.meta.pieceCount && p < c.meta.pieceCount
    ensures client.SizeOf(p) == Recorded(c, p)
  {
    hide LastSizeLost, LaidOut, MetaInfo.WellFormed, MetaInfo.PieceLen;
    if p + 1 < c.meta.pieceCount {
      WholeWindow(c.meta, p);
    }
  }

  lemma WholeWindow(meta: MetaInfo, p: nat)
    requires meta.WellFormed() && p + 1 < meta.pieceCount
    ensures meta.PieceLen(p) == meta.pieceLength
  {
    OffsetMono(meta.pieceLength, p + 1, meta.pieceCount - 1);
    hide MetaInfo.Total, Distinct;
  }

  /** The objects of peer k are in the state s of the machine. */
  ghost predicate Shows(client: PeerClient, c: Config, s: State, k: PeerId)
    requires c.WellFormed()
    reads client, client.master
  {
    && client.master.bits == BitsOf(s.have, c.meta.pieceCount)
    && client.master.requested == s.requested
    && k in s.neighbours && client.neighbour == BitsOf(s.neighbours[k], c.meta.pieceCount)
    && SizesKnown(client, c)
    && ShowsActive(client.active, s, k)
  }

  predicate ShowsActive(active: Option<Active>, s: State, k: PeerId) {
    if k in s.active then active.Some? && active.value.piece == s.active[k] else active.None?
  }

  /** Choking the peer is the step `Choke`. */
  method Choked(client: PeerClient, ghost c: Config, ghost s: State, ghost k: PeerId)
    requires Inv(c, s) && Shows(client, c, s, k)
    modifies client`active, client`remoteChoked, client.master`requested
    ensures Shows(client, c, Do(c, s, Step.Choke(k)), k)
  {
    hide Inv, MetaInfo.PieceLen;
    client.OnChoked();
  }

  /** Taking back the requests of the active piece is the step `CancelActive`. */
  method Cancelled(client: PeerClient, ghost c: Config, ghost s: State, ghost k: PeerId)
    requires Inv(c, s) && Shows(client, c, s, k) && client.active.Some?
    modifies client`active, client`sent
    ensures Shows(client, c, Do(c, s, Step.CancelActive(k)), k)
  {
    hide Inv, MetaInfo.PieceLen;
    client.CancelPiece(client.active.value.piece.index);
  }

  /** What looking for a new piece leaves is the step `Select`, or no step. */
  ghost function SelectedNext(c: Config, s: State, k: PeerId, active: Option<Active>): State
    requires c.WellFormed()
  {
    if active.Some? then DoSelect(c, s, k, active.value.piece.index) else s
  }

  lemma AskedIsSelect(client: PeerClient, c: Config, s: State, k: PeerId, was: Client)
    requires c.WellFormed() && k in s.neighbours && k !in s.active && was.active.None? && was.requested == s.requested
    requires client.master.bits == BitsOf(s.have, c.meta.pieceCount)
    requires client.neighbour == BitsOf(s.neighbours[k], c.meta.pieceCount)
    requires SizesKnown(client, c)
    requires client.Asked(was, client.View(), s.endGame)
    ensures Shows(client, c, SelectedNext(c, s, k, client.active), k)
  {
    hide MetaInfo.PieceLen, Popcount, AnyEligible, Batch, BatchBytes, AsRequests, BlockCount, Config.WellFormed;
    if client.active.Some? {
      var p := client.active.value.piece.index;
      SelectionIsChoice(c, s, k, p);
      assert MaySelect(c, s, k, p);
      SizeIsRecorded(client, c, p);
      assert Recorded(c, p) == client.SizeOf(p);
    }
  }

  /** Looking for a new piece. */
  method Tried(client: PeerClient, endGame: bool, ghost c: Config, ghost s: State, ghost k: PeerId)
    requires Inv(c, s) && Shows(client, c, s, k) && client.active.None? && endGame == s.endGame
    modifies client`active, client`interested, client`sent, client.master`requested
    ensures c.WellFormed() && Shows(client, c, SelectedNext(c, s, k, client.active), k)
  {
    StateOk(c, s);
    hide Inv, PeerClient.Asked, MetaInfo.PieceLen, Config.WellFormed, SelectedNext;
    ghost var was := client.View();
    client.TryToRequestPiece(endGame);
    AskedIsSelect(client, c, s, k, was);
  }

  /** A block that answers an outstanding request of the active piece is the step `Receive`, and
      if it is the last one, the machine queues the piece that is handed to the worker, and the
      next one is looked for. */
  method Received(client: PeerClient, b: nat, data: seq<byte>, endGame: bool,
                  ghost c: Config, ghost s: State, ghost k: PeerId)
    returns (r: BlockOutcome)
    requires Inv(c, s) && Shows(client, c, s, k) && client.active.Some? && endGame == s.endGame
    requires var piece := client.active.value.piece;
      && b < |piece.blocks| && piece.blocks[b] == EMPTY_BLOCK
      && c.WellFormed() && piece.index < c.meta.pieceCount
      && b < BlockCount(Recorded(c, piece.index)) && |data| == BlockLen(Recorded(c, piece.index), b)
    modifies client`active, client`interested, client`sent, client.master`requested
    ensures var t := Do(c, s, Step.Receive(k, b, data));
      if r.Completed? then
        && s.nextJob in t.jobs && t.jobs[s.nextJob] == WriteJob(r.piece, Queued)
        && Shows(client, c, SelectedNext(c, t, k, client.active), k)
      else Shows(client, c, t, k)
  {
    hide Inv, PeerClient.Asked, MetaInfo.PieceLen, Config.WellFormed, SelectedNext, Store, BlockLen;
    hide Batch, BatchBytes, AsRequests;
    ghost var was := client.View().(active := None);
    SmallBlock(Recorded(c, client.active.value.piece.index), b);
    r := client.OnPieceBlock(client.active.value.piece.index, b * MOST_REQUEST_SIZE, data, endGame);
    if r.Completed? {
      AskedIsSelect(client, c, Do(c, s, Step.Receive(k, b, data)), k, was);
    }
  }

  lemma SmallBlock(size: nat, b: nat)
    requires b < BlockCount(size)
    ensures BlockLen(size, b) <= MOST_REQUEST_SIZE && b * MOST_REQUEST_SIZE / MOST_REQUEST_SIZE == b
  {
  }

  /** Being told in the end game that the active piece is done is the step `CancelActive`. */
  method CancelledInEndGame(client: PeerClient, endGame: bool, ghost c: Config, ghost s: State, ghost k: PeerId)
    requires Inv(c, s) && Shows(client, c, s, k) && client.active.Some?
    modifies client`active, client`interested, client`sent, client.master`requested
    ensures Shows(client, c, Do(c, s, Step.CancelActive(k)), k)
  {
    hide Inv, MetaInfo.PieceLen, AsRequests, AsCancels, Batch, BatchBytes, Cancels, BlockCount, Recorded;
    client.CancelAndTryAgain(client.active.value.piece.index, endGame);
  }

  /** Waiting in vain for a piece is the step `TimeOut`, and `CancelActive` once its requests are
      taken back. */
  method TimedOut(client: PeerClient, endGame: bool, ghost c: Config, ghost s: State, ghost k: PeerId)
    requires Inv(c, s) && Shows(client, c, s, k) && client.active.Some? && !client.remoteChoked
    modifies client`active, client`interested, client`sent, client.master`requested
    ensures Inv(c, Do(c, s, Step.TimeOut(k)))
    ensures Shows(client, c, Do(c, Do(c, s, Step.TimeOut(k)), Step.CancelActive(k)), k)
  {
    hide Inv, MetaInfo.PieceLen, AsRequests, AsCancels, Batch, BatchBytes, Cancels, BlockCount, Recorded;
    hide Config.WellFormed, Do;
    StepKeeps(c, s, Step.TimeOut(k));
    TimeOutThenCancel(c, s, k);
    client.OnWaitTimeout(endGame);
  }

  lemma TimeOutThenCancel(c: Config, s: State, k: PeerId)
    requires Inv(c, s) && k in s.active && Inv(c, Do(c, s, Step.TimeOut(k)))
    ensures Do(c, Do(c, s, Step.TimeOut(k)), Step.CancelActive(k)) ==
            Unmark(s, s.active[k].index).(active := s.active - {k})
  {
    hide Inv, Config.WellFormed;
  }

  function WorkIn(c: Config, s: State): Work {
    Work(s.disk, BitsOf(s.have, c.meta.pieceCount), s.requested, s.ready, s.endGame)
  }

  /** The worker's objects are in the state s of the machine. */
  ghost predicate ShowsWork(d: Downloader, s: State)
    reads d, d.manager, d.master
  {
    d.Valid() && d.Held() == WorkIn(d.config, s)
  }

  /** The state for peer k once job j is done: in the end game the piece is no longer its active
      one, which is the step `CancelActive`. */
  ghost function LeftTo(c: Config, s: State, j: nat, k: PeerId): State
    requires Inv(c, s) && j in s.jobs && s.jobs[j].WriteJob? && s.jobs[j].stage == Queued
  {
    var piece := s.jobs[j].piece;
    var t := JobDone(c, s, j);
    CheckedJob(c, s, j);
    if s.endGame && Passes(c, piece) && k in s.active && s.active[k].index == piece.index
    then t.(active := t.active - {k})
    else t
  }

  lemma JobLeaves(c: Config, s: State, j: nat)
    requires Inv(c, s) && j in s.jobs && s.jobs[j].WriteJob? && s.jobs[j].stage == Queued
    ensures var piece := s.jobs[j].piece;
      && c.WellFormed() && piece.index < c.meta.pieceCount && JobDone(c, s, j).active == s.active
      && var was := WorkIn(c, s).(requested := s.requested - {piece.index});
      && WorkIn(c, JobDone(c, s, j)) == if Passes(c, piece) then Counted(c, was, piece) else was
  {
    JobInThreeSteps(c, s, j);
    hide Inv, DiskWithPiece, Concat, Config.WellFormed, JobDone, WorkIn, Counted, WithPiece, Passes, Unmark;
    var piece := s.jobs[j].piece;
    WorkUnmarked(c, s, piece.index, s.jobs - {j});
    WorkUnmarked(c, WithPiece(c, s, piece), piece.index, s.jobs - {j});
    WorkWithPiece(c, s, piece);
  }

  lemma WorkUnmarked(c: Config, s: State, p: nat, jobs: map<nat, Job>)
    ensures WorkIn(c, Unmark(s, p).(jobs := jobs)) == WorkIn(c, s).(requested := s.requested - {p})
    ensures Unmark(s, p).active == s.active
  {
  }

  lemma WorkWithPiece(c: Config, s: State, piece: Piece)
    requires c.WellFormed() && piece.index < c.meta.pieceCount
    ensures var t := WithPiece(c, s, piece);
      && t.requested == s.requested && t.active == s.active && |WorkIn(c, s).bits| == c.meta.pieceCount
      && forall requested :: Counted(c, WorkIn(c, s).(requested := requested), piece) ==
                             WorkIn(c, t).(requested := requested)
  {
    hide DiskWithPiece, Concat, Config.WellFormed, BitsOf;
    BitsOfMore(s.have, piece.index, c.meta.pieceCount);
  }

  /** A worker that takes a write job does the job's three steps, and peers whose active piece it
      was let it go. */
  method Worked(d: Downloader, piece: Piece, ghost s: State, ghost j: nat)
    requires Inv(d.config, s) && ShowsWork(d, s) && d.Subscribed()
    requires j in s.jobs && s.jobs[j] == WriteJob(piece, Queued)
    modifies d`ready, d`endGame, d.manager`disk, d.master`bits, d.master`requested
    modifies d.peers`active, d.peers`interested, d.peers`sent
    ensures ShowsWork(d, JobDone(d.config, s, j)) && d.Subscribed()
    ensures forall i: nat, k: PeerId :: i < |d.peers| && ShowsActive(old(d.peers[i].active), s, k) ==>
              ShowsActive(d.peers[i].active, LeftTo(d.config, s, j, k), k)
  {
    JobIsOk(d.config, s, j);
    JobLeaves(d.config, s, j);
    hide Inv, DiskWithPiece, Concat, Assembled, Informed, Config.WellFormed, Honest, JobDone, BitsOf, Lost;
    hide ShowsActive, LeftTo, WorkIn, Counted, Passes, Downloader.Valid;
    d.DownloadPiece(piece);
    forall i: nat, k: PeerId | i < |d.peers| && ShowsActive(old(d.peers[i].active), s, k)
      ensures ShowsActive(d.peers[i].active, LeftTo(d.config, s, j, k), k)
    {
      PeerLeft(d.config, s, j, k, d.peers[i], old(d.peers[i].View()), d.peers[i].View());
    }
  }

  lemma PeerLeft(c: Config, s: State, j: nat, k: PeerId, peer: PeerClient, was: Client, now: Client)
    requires Inv(c, s) && j in s.jobs && s.jobs[j].WriteJob? && s.jobs[j].stage == Queued
    requires ShowsActive(was.active, s, k)
    requires c.WellFormed() && s.jobs[j].piece.index < c.meta.pieceCount
    requires var piece := s.jobs[j].piece;
      now.active == if Passes(c, piece) then Informed(peer, was, piece.index, s.endGame).active else was.active
    ensures ShowsActive(now.active, LeftTo(c, s, j, k), k)
  {
    JobLeaves(c, s, j);
    hide Inv, DiskWithPiece, Concat, Config.WellFormed, JobDone, AsRequests, AsCancels, Batch, BatchBytes, Cancels;
  }

  lemma BitsOfMore(pieces: set<nat>, p: nat, count: nat)
    requires p < count
    ensures |BitsOf(pieces, count)| == count
    ensures BitsOf(pieces + {p}, count) == BitsOf(pieces, count)[p := true]
  {
  }

  /** What the machine's steps `AskUpload` and `Serve` of the job it queues make of a request. */
  ghost function Answered(c: Config, s: State, p: nat, begin: Word32, length: Word32): State
    requires Inv(c, s)
  {
    AskUploadKeeps(c, s, p, begin, length);
    var t := DoAskUpload(s, p, begin, length);
    if p in s.have then DoServe(c, t, s.nextJob) else t
  }

  lemma AnsweredIs(c: Config, s: State, p: nat, begin: Word32, length: Word32)
    requires Inv(c, s)
    ensures p !in s.have ==> Answered(c, s, p, begin, length) == s
    ensures p in s.have ==>
      && c.WellFormed() && p < c.meta.pieceCount
      && var bytes := Fetched(c.meta, p, c.Segments(p), begin, length, s.disk);
      && Answered(c, s, p, begin, length) ==
         s.(nextJob := s.nextJob + 1, uploads := s.uploads + [Upload(p, begin, length, bytes)])
  {
    hide Inv, Config.WellFormed, Config.Segments, Fetched, AllThere, Verified, Lost;
    StateOk(c, s);
    if p in s.have {
      NoSuchJob(c, s);
      var job := ReadJob(p, begin, length);
      assert s.jobs[s.nextJob := job] - {s.nextJob} == s.jobs;
    }
  }

  /** The object sends the bytes that the machine's two steps record, and answers nothing exactly
      where the machine does nothing. */
  method Uploaded(d: Downloader, index: nat, begin: Word32, length: Word32, ghost s: State)
    returns (answer: Option<seq<byte>>)
    requires Inv(d.config, s) && ShowsWork(d, s)
    ensures answer.None? <==> index !in s.have
    ensures Answered(d.config, s, index, begin, length) ==
            if answer.None? then s
            else s.(nextJob := s.nextJob + 1, uploads := s.uploads + [Upload(index, begin, length, answer.value)])
  {
    hide Inv, Config.WellFormed, Config.Segments, Fetched, Genuine, Proper, Answered, AllThere, Verified, Lost;
    AnsweredIs(d.config, s, index, begin, length);
    StateOk(d.config, s);
    answer := d.OnRequest(index, begin, length);
  }
}
