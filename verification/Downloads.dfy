/** The job a worker runs for a piece that was put together: sort, check, write, set the bit. */
module Downloads {
  import opened Common
  import opened Pieces
  import opened Layout
  import opened Storage
  import opened FilesManager
  import opened Assembly
  import opened Peers
  import opened Lifecycle

  predicate BeginsSorted(blocks: seq<Block>) {
    forall i, j :: 0 <= i < j < |blocks| ==> blocks[i].begin <= blocks[j].begin
  }

  lemma AscendingIsSorted(blocks: seq<Block>)
    requires Ascending(blocks)
    ensures BeginsSorted(blocks)
  {
  }

  /** Every piece whose bit is set has the hash that was promised. */
  ghost predicate Honest(c: Config, flat: seq<byte>, bits: Bitfield)
    requires c.WellFormed() && |flat| == c.meta.Total()
  {
    forall p: nat :: p < |bits| && bits[p] ==> Verified(c, flat, p)
  }

  lemma HonestAfter(c: Config, flat: seq<byte>, bits: Bitfield, p: nat, data: seq<byte>)
    requires c.WellFormed() && |flat| == c.meta.Total() && Honest(c, flat, bits)
    requires p < c.meta.pieceCount == |bits| && |data| == Len(c, p) && c.sha1(data) == c.Hash(p)
    ensures Offset(c.meta.pieceLength, p) + |data| <= |flat|
    ensures Honest(c, Splice(flat, Offset(c.meta.pieceLength, p), data), bits[p := true])
  {
    hide Verified, Splice, Config.WellFormed;
    WriteKeepsVerified(c, flat, p, data, p);
    forall q: nat | q < |bits| && bits[p := true][q]
      ensures Verified(c, Splice(flat, Offset(c.meta.pieceLength, p), data), q)
    {
      WriteKeepsVerified(c, flat, p, data, q);
    }
  }

  /** What a worker's job works on. */
  datatype Work = Work(disk: Disk, bits: Bitfield, requested: set<nat>, ready: nat, endGame: bool)

  /** A piece is written and counted, and the end game may begin. */
  function Counted(c: Config, was: Work, piece: Piece): Work
    requires c.WellFormed() && piece.index < c.meta.pieceCount == |was.bits|
  {
    Work(DiskWithPiece(c, was.disk, piece), was.bits[piece.index := true], was.requested, was.ready + 1,
         was.endGame || (was.ready + 1) * 100 >= END_GAME_STARTED_FROM * c.meta.pieceCount)
  }

  /** The hash of the blocks is the one the metainfo promises. */
  predicate Passes(c: Config, piece: Piece)
    requires |c.pieces| == 20 * c.meta.pieceCount && piece.index < c.meta.pieceCount
  {
    c.sha1(Concat(piece.blocks)) == c.pieces[20 * piece.index..20 * piece.index + 20]
  }

  class Downloader {
    const config: Config
    const manager: TorrentFilesManager
    const master: MasterPeer
    /** The peers that subscribed to the master. */
    const peers: seq<PeerClient>
    var ready: nat
    var endGame: bool

    /** Every piece whose bit is set is on disk with the bytes its hash promises. */
    ghost predicate Valid()
      reads this, manager, master
    {
      && config.WellFormed() && manager.Valid() && manager.Present() && manager.meta == config.meta
      && manager.piecesByFiles == config.table
      && |master.bits| == config.meta.pieceCount
      && Honest(config, manager.Flat(), master.bits)
    }

    ghost function Held(): Work
      reads this, manager, master
    {
      Work(manager.disk, master.bits, master.requested, ready, endGame)
    }

    ghost predicate Subscribed()
      reads this, master, peers
    {
      && (forall i, j :: 0 <= i < j < |peers| ==> peers[i] != peers[j])
      && forall i :: 0 <= i < |peers| ==> peers[i].master == master && |peers[i].neighbour| == |master.bits|
    }

    /** Whatever is on disk, no piece counts as there. */
    constructor (config: Config, manager: TorrentFilesManager, master: MasterPeer, peers: seq<PeerClient>)
      requires config.WellFormed() && manager.Valid() && manager.Present()
      requires manager.meta == config.meta && manager.piecesByFiles == config.table
      requires master.bits == seq(config.meta.pieceCount, _ => false)
      ensures Valid() && ready == 0 && !endGame
      ensures this.config == config && this.manager == manager && this.master == master && this.peers == peers
    {
      this.config, this.manager, this.master, this.peers := config, manager, master, peers;
      ready, endGame := 0, false;
    }

    /** `ArePieceValid`: the hash runs over the blocks in order. */
    method ArePieceValid(piece: Piece) returns (ok: bool)
      requires config.WellFormed() && piece.index < config.meta.pieceCount
      ensures ok <==> config.sha1(Concat(piece.blocks)) == config.pieces[20 * piece.index..20 * piece.index + 20]
    {
      var data := [];
      for k := 0 to |piece.blocks|
        invariant data == Concat(piece.blocks[..k])
      {
        assert piece.blocks[..k + 1][..k] == piece.blocks[..k];
        data := data + piece.blocks[k].data;
      }
      assert piece.blocks[..|piece.blocks|] == piece.blocks;
      ok := config.sha1(data) == config.pieces[20 * piece.index..20 * piece.index + 20];
    }

    /** `SendHaveToAll`. */
    method Announce(index: nat)
      requires Subscribed()
      modifies peers`sent
      ensures forall i :: 0 <= i < |peers| ==> peers[i].View() == Told(peers[i], old(peers[i].View()), index)
    {
      for n := 0 to |peers|
        invariant forall i :: 0 <= i < n ==> peers[i].View() == Told(peers[i], old(peers[i].View()), index)
        invariant forall i :: n <= i < |peers| ==> peers[i].View() == old(peers[i].View())
      {
        peers[n].TellHave(index);
      }
    }

    /** `MasterPeer::CancelPiece`. */
    method CancelEverywhere(index: nat)
      requires Subscribed()
      modifies peers`active, peers`interested, peers`sent, master`requested
      ensures master.requested == old(master.requested)
      ensures forall i :: 0 <= i < |peers| ==> peers[i].View() == peers[i].Dropped(old(peers[i].View()), index)
    {
      for n := 0 to |peers|
        invariant master.requested == old(master.requested)
        invariant forall i :: 0 <= i < n ==> peers[i].View() == peers[i].Dropped(old(peers[i].View()), index)
        invariant forall i :: n <= i < |peers| ==> peers[i].View() == old(peers[i].View())
      {
        peers[n].CancelAndTryAgain(index, endGame);
      }
    }

    /** The bit is set, and interested peers hear of it; in the end game every peer with the piece
        drops it, and before, the end game may begin. */
    method SetPiece(index: nat)
      requires index < |master.bits| && config.WellFormed() && Subscribed()
      modifies this`ready, this`endGame, master`bits, master`requested
      modifies peers`active, peers`interested, peers`sent
      ensures master.bits == old(master.bits)[index := true] && master.requested == old(master.requested)
      ensures ready == old(ready) + 1
      ensures endGame == (old(endGame) || ready * 100 >= 92 * config.meta.pieceCount)
      ensures forall i :: 0 <= i < |peers| ==>
                peers[i].View() == Informed(peers[i], old(peers[i].View()), index, old(endGame))
    {
      master.bits := master.bits[index := true];
      Announce(index);
      ready := ready + 1;
      if !endGame {
        if ready * 100 >= END_GAME_STARTED_FROM * config.meta.pieceCount {
          endGame := true;
        }
      } else {
        CancelEverywhere(index);
      }
    }

    /** A piece that passed the check is written and counted. */
    method WriteAndSet(piece: Piece)
      requires Valid() && piece.index < config.meta.pieceCount && Assembled(piece, Len(config, piece.index))
      requires Subscribed() && Passes(config, piece)
      modifies this`ready, this`endGame, manager`disk, master`bits, master`requested
      modifies peers`active, peers`interested, peers`sent
      ensures Valid() && Subscribed() && Held() == Counted(config, old(Held()), piece)
      ensures Offset(config.meta.pieceLength, piece.index) + |Concat(piece.blocks)| <= |old(manager.Flat())|
      ensures manager.Flat() ==
              Splice(old(manager.Flat()), Offset(config.meta.pieceLength, piece.index), Concat(piece.blocks))
      ensures forall i :: 0 <= i < |peers| ==>
                peers[i].View() == Informed(peers[i], old(peers[i].View()), piece.index, old(endGame))
    {
      hide Verified, Splice, FlatOf, Uniform, Regular, LaidOut, MetaInfo.WellFormed, MetaInfo.PieceLen, Ascending;
      hide DiskWritten, FirstMissing, Honest, Chain, ChainEnd, AllThere, Informed;
      WindowInside(config, piece.index);
      AllWritten(config, manager.disk, piece.index);
      UniformIsRegular(piece.blocks);
      HonestAfter(config, manager.Flat(), master.bits, piece.index, Concat(piece.blocks));
      var written := manager.WritePieceToFile(piece);
      SetPiece(piece.index);
    }

    /** The whole job: a piece with the right hash is written and counted, one with a wrong hash
        leaves everything as it was, and either may be asked for again. */
    method DownloadPiece(piece: Piece)
      requires Valid() && piece.index < config.meta.pieceCount && Assembled(piece, Len(config, piece.index))
      requires Subscribed()
      modifies this`ready, this`endGame, manager`disk, master`bits, master`requested
      modifies peers`active, peers`interested, peers`sent
      ensures Valid() && Subscribed()
      ensures var was := old(Held()).(requested := old(master.requested) - {piece.index});
        Held() == if Passes(config, piece) then Counted(config, was, piece) else was
      ensures Offset(config.meta.pieceLength, piece.index) + |Concat(piece.blocks)| <= |old(manager.Flat())|
      ensures Passes(config, piece) ==>
                manager.Flat() ==
                Splice(old(manager.Flat()), Offset(config.meta.pieceLength, piece.index), Concat(piece.blocks))
      ensures forall i :: 0 <= i < |peers| ==>
                var was := old(peers[i].View());
                var now := if Passes(config, piece) then Informed(peers[i], was, piece.index, old(endGame)) else was;
                peers[i].View() == now.(requested := master.requested)
    {
      hide Verified, Splice, FlatOf, Uniform, LaidOut, MetaInfo.WellFormed, MetaInfo.PieceLen, Ascending, BeginsSorted;
      hide DiskWritten, Honest, AllThere, Informed, DiskWithPiece, Concat, Config.WellFormed;
      AscendingIsSorted(piece.blocks);
      var sorted :| multiset(sorted) == multiset(piece.blocks) && BeginsSorted(sorted);
      SortedIsSame(piece.blocks, sorted);
      var sortedPiece := piece.(blocks := sorted);
      WindowInside(config, piece.index);
      var ok := ArePieceValid(sortedPiece);
      if ok {
        WriteAndSet(sortedPiece);
      }
      master.UnmarkRequestedPiece(piece.index);
    }

    /** `OnRequest` and the upload job: a block of a done piece is read for whatever begin and
        length were asked for. What is sent is genuine exactly if the request was proper. */
    method OnRequest(index: nat, begin: Word32, length: Word32) returns (answer: Option<seq<byte>>)
      requires Valid()
      ensures answer.Some? <==> index < |master.bits| && master.bits[index]
      ensures answer.Some? ==>
                && answer.value == Fetched(config.meta, index, config.Segments(index), begin, length, manager.disk)
                && (Genuine(config, Upload(index, begin, length, answer.value)) <==>
                    Proper(config, index, begin, length))
    {
      hide Verified, FlatOf, LaidOut, MetaInfo.WellFormed, Chain, ChainEnd, Fetched, Genuine, Proper, AllThere;
      if index >= |master.bits| || !master.bits[index] {
        return None;
      }
      var r, block := manager.ReadPieceBlockFromFile(index, begin, length);
      AnswerIsExact(config, manager.disk, index, begin, length);
      return Some(block.data);
    }
  }

  /** A peer that is interested in us was sent that we have the piece. */
  function Told(peer: PeerClient, was: Client, index: nat): Client
    reads peer`remoteInterested
  {
    if peer.remoteInterested then was.(sent := was.sent + [Have(index)]) else was
  }

  /** A peer when a piece is done: told of it, and in the end game, if the piece is its active one,
      without it. */
  function Informed(peer: PeerClient, was: Client, index: nat, endGame: bool): Client
    reads peer`remoteInterested, peer.master`bits
  {
    if endGame then peer.Dropped(Told(peer, was, index), index) else Told(peer, was, index)
  }

  /** The disk once a piece is written. */
  function DiskWithPiece(c: Config, disk: Disk, piece: Piece): Disk
    requires c.WellFormed() && piece.index < c.meta.pieceCount
  {
    var segs := c.Segments(piece.index);
    DiskWritten(segs, |segs|, Concat(piece.blocks), disk)
  }

  lemma AllWritten(c: Config, disk: Disk, p: nat)
    requires c.WellFormed() && p < c.meta.pieceCount && AllThere(c.meta, disk)
    ensures FirstMissing(c.Segments(p), disk) == |c.Segments(p)|
  {
    hide Chain, ChainEnd, LaidOut, MetaInfo.WellFormed;
    SegmentsThere(c.meta, p, c.Segments(p), disk);
    FirstMissingIs(c.Segments(p), disk, |c.Segments(p)|);
  }

  lemma SortedIsSame(blocks: seq<Block>, sorted: seq<Block>)
    requires Ascending(blocks) && multiset(sorted) == multiset(blocks) && BeginsSorted(sorted)
    ensures sorted == blocks
  {
    SortChangesNothing(blocks, sorted);
  }

  lemma WindowInside(c: Config, p: nat)
    requires c.WellFormed() && p < c.meta.pieceCount
    ensures Offset(c.meta.pieceLength, p) + Len(c, p) <= c.meta.Total()
  {
    PieceInside(c.meta, p);
  }

  // ----- how the objects stand to the steps of `Lifecycle`

  lemma CheckedJob(c: Config, s: State, j: nat)
    requires Inv(c, s) && j in s.jobs && s.jobs[j].WriteJob? && s.jobs[j].stage == Queued
    ensures var piece := s.jobs[j].piece;
      && c.WellFormed() && piece.index < c.meta.pieceCount
      && DoCheckAndWrite(c, s, j) ==
         if Passes(c, piece) then
           s.(disk := DiskWithPiece(c, s.disk, piece), jobs := s.jobs[j := WriteJob(piece, Written)])
         else s.(jobs := s.jobs[j := WriteJob(piece, Finished)])
  {
    hide Inv, Verified, Concat, DiskWritten, Config.Segments, Assembled, Config.WellFormed, AllThere, Lost;
    JobIsOk(c, s, j);
    StateOk(c, s);
  }

  lemma ReleasedJob(s: State, j: nat, piece: Piece)
    requires j in s.jobs
    ensures DoUnbind(s.(jobs := s.jobs[j := WriteJob(piece, Finished)]), j) ==
            Unmark(s, piece.index).(jobs := s.jobs - {j})
  {
    assert s.jobs[j := WriteJob(piece, Finished)] - {j} == s.jobs - {j};
  }

  /** The steps `CheckAndWrite`, `SetPiece` and `Unbind` of the write job j. */
  ghost function JobDone(c: Config, s: State, j: nat): State
    requires Inv(c, s)
  {
    DoUnbind(DoSetPiece(c, DoCheckAndWrite(c, s, j), j), j)
  }

  /** The machine with the piece on disk and counted. */
  ghost function WithPiece(c: Config, s: State, piece: Piece): State
    requires c.WellFormed() && piece.index < c.meta.pieceCount
  {
    s.(disk := DiskWithPiece(c, s.disk, piece), have := s.have + {piece.index}, ready := s.ready + 1,
       endGame := s.endGame || (s.ready + 1) * 100 >= END_GAME_STARTED_FROM * c.meta.pieceCount)
  }

  /** A job step by step, whatever happens between the steps elsewhere aside, does to the machine
      what `DownloadPiece` does to the objects. */
  lemma JobInThreeSteps(c: Config, s: State, j: nat)
    requires Inv(c, s) && j in s.jobs && s.jobs[j].WriteJob? && s.jobs[j].stage == Queued
    ensures var piece := s.jobs[j].piece;
      && c.WellFormed() && piece.index < c.meta.pieceCount
      && var t := if Passes(c, piece) then WithPiece(c, s, piece) else s;
      && JobDone(c, s, j) == Unmark(t, piece.index).(jobs := s.jobs - {j})
  {
    hide Inv, Concat, DoCheckAndWrite, DoUnbind, Unmark, DiskWithPiece;
    CheckedJob(c, s, j);
    var piece := s.jobs[j].piece;
    var t := DoCheckAndWrite(c, s, j);
    if Passes(c, piece) {
      var u := WithPiece(c, s, piece);
      assert t.jobs[j := WriteJob(piece, Finished)] == s.jobs[j := WriteJob(piece, Finished)];
      assert DoSetPiece(c, t, j) == u.(jobs := u.jobs[j := WriteJob(piece, Finished)]);
      ReleasedJob(u, j, piece);
    } else {
      assert DoSetPiece(c, t, j) == t;
      ReleasedJob(s, j, piece);
    }
  }

  /** The bits that stand for a set of pieces. */
  function BitsOf(pieces: set<nat>, count: nat): Bitfield {
    seq(count, p => p in pieces)
  }

  /** The machine may select a piece for an idle peer exactly if `ChoosePiece` may pick it. */
  lemma SelectionIsChoice(c: Config, s: State, k: PeerId, p: nat)
    requires k in s.neighbours && k !in s.active
    ensures var n := c.meta.pieceCount;
      MaySelect(c, s, k, p) <==>
      Eligible(BitsOf(s.have, n), BitsOf(s.neighbours[k], n), s.requested, s.endGame, p)
  {
  }
}
