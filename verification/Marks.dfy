/** Which pieces can be asked for again: request marks over the steps of `Lifecycle`. */
module Marks {
  import opened Pieces
  import opened Storage
  import opened Requests
  import opened Lifecycle
  import opened Downloads
  import opened Completion

  /** A neighbour that is idle and has the piece. */
  predicate Idle(s: State, k: PeerId, p: nat) {
    k in s.neighbours && k !in s.active && p in s.neighbours[k]
  }

  /** When a peer chokes us, every other idle neighbour with the piece may be asked for it. */
  lemma ChokeFrees(c: Config, s: State, k: PeerId, other: PeerId)
    requires Inv(c, s) && k in s.active && s.active[k].index !in s.have && Idle(s, other, s.active[k].index)
    ensures MaySelect(c, Do(c, s, Step.Choke(k)), other, s.active[k].index)
    ensures k !in Do(c, s, Step.Choke(k)).active
  {
    hide Inv, Config.WellFormed;
    ActiveOk(c, s, k);
  }

  /** When a piece does not come in time as well, and the peer that was asked keeps its blocks. */
  lemma TimeOutFrees(c: Config, s: State, k: PeerId, other: PeerId)
    requires Inv(c, s) && k in s.active && s.active[k].index !in s.have && Idle(s, other, s.active[k].index)
    ensures MaySelect(c, Do(c, s, TimeOut(k)), other, s.active[k].index)
    ensures Do(c, s, TimeOut(k)).active == s.active
  {
    hide Inv, Config.WellFormed;
    ActiveOk(c, s, k);
  }

  /** When a piece turns out to have a wrong hash, every idle neighbour may be asked for it again. */
  lemma WrongHashFrees(c: Config, s: State, j: nat, other: PeerId)
    requires Inv(c, s) && j in s.jobs && s.jobs[j].WriteJob? && s.jobs[j].stage == Queued
    requires s.jobs[j].piece.index !in s.have && Idle(s, other, s.jobs[j].piece.index)
    ensures c.WellFormed() && s.jobs[j].piece.index < c.meta.pieceCount
    ensures !Passes(c, s.jobs[j].piece) ==> MaySelect(c, JobDone(c, s, j), other, s.jobs[j].piece.index)
  {
    JobInThreeSteps(c, s, j);
    hide Inv, JobDone, Passes, Config.WellFormed;
  }

  /** Piece p is marked, and no peer and no worker has it. */
  ghost predicate Orphan(s: State, p: nat) {
    && p in s.requested && p !in s.have
    && (forall k :: k in s.active ==> s.active[k].index != p)
    && (forall j :: j in s.jobs && s.jobs[j].WriteJob? ==> s.jobs[j].piece.index != p)
  }

  /** A connection that is lost while the piece is downloaded leaves it so. */
  lemma DisconnectOrphans(c: Config, s: State, k: PeerId)
    requires Inv(c, s) && k in s.active
    requires var p := s.active[k].index;
      && p in s.requested && p !in s.have
      && (forall other :: other in s.active && other != k ==> s.active[other].index != p)
      && (forall j :: j in s.jobs && s.jobs[j].WriteJob? ==> s.jobs[j].piece.index != p)
    ensures Orphan(Do(c, s, Step.Disconnect(k)), s.active[k].index)
  {
    hide Inv;
  }

  lemma ReceiveKeepsOrphan(c: Config, s: State, k: PeerId, b: nat, data: seq<byte>, p: nat)
    requires Inv(c, s) && Orphan(s, p)
    ensures Orphan(DoReceive(c, s, k, b, data), p)
  {
    hide Inv, BlockLen, Config.WellFormed, BlockCount;
  }

  lemma CheckKeepsOrphan(c: Config, s: State, j: nat, p: nat)
    requires Inv(c, s) && Orphan(s, p)
    ensures Orphan(DoCheckAndWrite(c, s, j), p)
  {
    hide Inv, Concat, DiskWritten, Config.Segments, Config.WellFormed;
  }

  lemma ServeKeepsOrphan(c: Config, s: State, j: nat, p: nat)
    requires Inv(c, s) && Orphan(s, p)
    ensures Orphan(DoServe(c, s, j), p)
  {
    hide Inv, Fetched, Config.Segments, Config.WellFormed;
  }

  /** No step but those of the end game changes that. */
  lemma StepKeepsOrphan(c: Config, s: State, step: Step, p: nat)
    requires Inv(c, s) && Orphan(s, p)
    ensures Do(c, s, step).endGame || Orphan(Do(c, s, step), p)
  {
    hide Inv, DoReceive, DoCheckAndWrite, DoServe;
    match step
    case Receive(k, b, data) => ReceiveKeepsOrphan(c, s, k, b, data, p);
    case CheckAndWrite(j) => CheckKeepsOrphan(c, s, j, p);
    case Serve(j) => ServeKeepsOrphan(c, s, j, p);
    case _ =>
  }

  /** Whatever happens from then on, until the end game begins such a piece is not asked for and not
      done. */
  lemma {:induction false} OrphansStay(c: Config, disk: Disk, steps: seq<Step>, n: nat, p: nat)
    requires c.WellFormed() && AllThere(c.meta, disk) && n <= |steps|
    requires Orphan(Run(c, disk, steps[..n]), p) && !Run(c, disk, steps).endGame
    ensures Orphan(Run(c, disk, steps), p)
    ensures forall k :: !MaySelect(c, Run(c, disk, steps), k, p)
  {
    hide Orphan, Do, Config.WellFormed, AllThere, Inv;
    if n == |steps| {
      assert steps[..n] == steps;
    } else {
      var front := steps[..|steps| - 1];
      assert front[..n] == steps[..n];
      StepMoves(c, Run(c, disk, front), steps[|steps| - 1]);
      OrphansStay(c, disk, front, n, p);
      StepKeepsOrphan(c, Run(c, disk, front), steps[|steps| - 1], p);
    }
    OrphanIsMarked(Run(c, disk, steps), p);
  }

  lemma OrphanIsMarked(s: State, p: nat)
    requires Orphan(s, p)
    ensures p in s.requested
  {
  }

  /** One lost connection is enough, for any piece that can be fetched. */
  lemma PieceOrphaned(c: Config, disk: Disk, p: nat) returns (t: State)
    requires c.WellFormed() && AllThere(c.meta, disk) && p < c.meta.pieceCount && !Lost(c, p)
    ensures Reachable(c, disk, t) && Orphan(t, p) && !t.endGame
  {
    hide Config.WellFormed, AllThere, Inv, Reachable, PieceWith, Lost;
    ReachStart(c, disk);
    InitInv(c, disk);
    ReachStep(c, disk, Init(disk), Step.Connect(0));
    var connected := Do(c, Init(disk), Step.Connect(0));
    var full := seq(Len(c, p), _ => 0 as byte);
    var s := Chosen(c, disk, connected, 0, p, full);
    var asked := Downloading(s, 0, p, full, 0);
    ReachedInv(c, disk, asked);
    SomeBlocks(|full|);
    PieceWithFacts(p, full, 0);
    DisconnectOrphans(c, asked, 0);
    ReachStep(c, disk, asked, Step.Disconnect(0));
    t := Do(c, asked, Step.Disconnect(0));
  }
}
