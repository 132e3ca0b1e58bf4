/** A download that succeeds: from any disk, some run fetches every piece that can be fetched. */
module Completion {
  import opened Pieces
  import opened Layout
  import opened FillFiles
  import opened Storage
  import opened Requests
  import opened Assembly
  import opened Lifecycle
  import opened Downloads

  /** Some run leads to s. */
  ghost predicate Reachable(c: Config, disk: Disk, s: State)
    requires c.WellFormed() && AllThere(c.meta, disk)
  {
    exists steps :: Run(c, disk, steps) == s
  }

  lemma ReachedInv(c: Config, disk: Disk, s: State)
    requires c.WellFormed() && AllThere(c.meta, disk) && Reachable(c, disk, s)
    ensures Inv(c, s)
  {
  }

  lemma ReachStart(c: Config, disk: Disk)
    requires c.WellFormed() && AllThere(c.meta, disk)
    ensures Reachable(c, disk, Init(disk))
  {
    assert Run(c, disk, []) == Init(disk);
  }

  lemma ReachStep(c: Config, disk: Disk, s: State, step: Step)
    requires c.WellFormed() && AllThere(c.meta, disk) && Reachable(c, disk, s) && Inv(c, s)
    ensures Reachable(c, disk, Do(c, s, step))
  {
    hide Inv, Do, Config.WellFormed, AllThere;
    var steps :| Run(c, disk, steps) == s;
    assert (steps + [step])[..|steps|] == steps;
    assert Run(c, disk, steps + [step]) == Do(c, s, step);
  }

  /** The blocks in order, n of them. */
  function InOrder(n: nat): (r: seq<nat>)
    ensures |r| == n && forall i :: 0 <= i < n ==> r[i] == i
  {
    seq(n, i => i)
  }

  /** The piece after its first n blocks. */
  function PieceWith(p: nat, full: seq<byte>, n: nat): (piece: Piece)
    requires n <= BlockCount(|full|)
    ensures |piece.blocks| == BlockCount(|full|)
  {
    Deliver(NewPiece(p, BlockCount(|full|)), full, InOrder(n))
  }

  lemma PieceWithFacts(p: nat, full: seq<byte>, n: nat)
    requires full != [] && n <= BlockCount(|full|)
    ensures var piece := PieceWith(p, full, n);
      && piece.index == p && piece.currentBlocksNum == n && piece.blockCount == BlockCount(|full|)
      && (n < BlockCount(|full|) ==>
            && piece.blocks[n] == EMPTY_BLOCK
            && PieceWith(p, full, n + 1) == Store(piece, n * MOST_REQUEST_SIZE, BlockBytes(full, n)))
      && (n == BlockCount(|full|) ==> Concat(piece.blocks) == full)
  {
    hide Deliver, Uniform, Ascending, Concat;
    var count := BlockCount(|full|);
    var order := InOrder(count);
    assert order[..n] == InOrder(n);
    AnyOrder(p, full, order, n);
    Delivered(p, full, InOrder(n));
    Slots(PieceWith(p, full, n), full, Elements(InOrder(n)));
    if n < count {
      assert InOrder(n + 1)[..n] == InOrder(n);
      NextBlock(p, full, n);
    }
  }

  lemma NextBlock(p: nat, full: seq<byte>, n: nat)
    requires full != [] && n < BlockCount(|full|)
    requires Assembly.Holds(PieceWith(p, full, n), full, Elements(InOrder(n)))
    ensures PieceWith(p, full, n).blocks[n] == EMPTY_BLOCK
    ensures PieceWith(p, full, n + 1) == Store(PieceWith(p, full, n), n * MOST_REQUEST_SIZE, BlockBytes(full, n))
  {
    assert n !in Elements(InOrder(n));
    assert InOrder(n + 1)[..n] == InOrder(n);
  }

  /** Peer k downloads piece p and has n blocks of it; nothing else is going on. */
  ghost function Downloading(s: State, k: PeerId, p: nat, full: seq<byte>, n: nat): State
    requires n <= BlockCount(|full|)
  {
    s.(active := s.active[k := PieceWith(p, full, n)])
  }

  /** The piece p whose content is `full` can be asked for, and its blocks will be taken. */
  ghost predicate Expecting(c: Config, s: State, p: nat, full: seq<byte>)
    requires c.WellFormed()
  {
    && p < c.meta.pieceCount && p !in s.have && (s.endGame || p in s.requested) && !Lost(c, p)
    && |full| == Len(c, p)
  }

  /** One block more, and the whole piece with the last one. */
  lemma NextReceived(c: Config, s: State, k: PeerId, p: nat, full: seq<byte>, n: nat)
    requires c.WellFormed() && Expecting(c, s, p, full) && n < BlockCount(|full|)
    requires Inv(c, Downloading(s, k, p, full, n))
    ensures DoReceive(c, Downloading(s, k, p, full, n), k, n, BlockBytes(full, n)) ==
            if n + 1 == BlockCount(|full|) then
              s.(active := s.active - {k}, nextJob := s.nextJob + 1,
                 jobs := s.jobs[s.nextJob := WriteJob(PieceWith(p, full, n + 1), Queued)])
            else Downloading(s, k, p, full, n + 1)
  {
    hide Inv, Config.WellFormed, PieceWith, BlockCount, Store;
    PieceWithFacts(p, full, n);
    PieceWithFacts(p, full, n + 1);
    var t := Downloading(s, k, p, full, n);
    assert t.active - {k} == s.active - {k};
    assert t.active[k := PieceWith(p, full, n + 1)] == s.active[k := PieceWith(p, full, n + 1)];
  }

  /** All blocks that are missing arrive, in order. */
  lemma {:induction false} AllReceived(c: Config, disk: Disk, s: State, k: PeerId, p: nat, full: seq<byte>, n: nat)
    requires c.WellFormed() && AllThere(c.meta, disk) && Expecting(c, s, p, full) && n < BlockCount(|full|)
    requires Reachable(c, disk, Downloading(s, k, p, full, n))
    ensures Reachable(c, disk,
                      s.(active := s.active - {k}, nextJob := s.nextJob + 1,
                         jobs := s.jobs[s.nextJob := WriteJob(PieceWith(p, full, BlockCount(|full|)), Queued)]))
    decreases BlockCount(|full|) - n
  {
    hide Inv, Config.WellFormed, AllThere, PieceWith, BlockCount, Reachable, DoReceive;
    var t := Downloading(s, k, p, full, n);
    ReachedInv(c, disk, t);
    ReachStep(c, disk, t, Receive(k, n, BlockBytes(full, n)));
    NextReceived(c, s, k, p, full, n);
    if n + 1 < BlockCount(|full|) {
      AllReceived(c, disk, s, k, p, full, n + 1);
    }
  }

  /** Peer k says that it has piece p, and is asked for it. */
  lemma Chosen(c: Config, disk: Disk, s: State, k: PeerId, p: nat, full: seq<byte>) returns (t: State)
    requires c.WellFormed() && AllThere(c.meta, disk) && Reachable(c, disk, s)
    requires k in s.neighbours && k !in s.active && p < c.meta.pieceCount && !Lost(c, p)
    requires p !in s.have && p !in s.requested && |full| == Len(c, p)
    ensures Reachable(c, disk, Downloading(t, k, p, full, 0)) && Expecting(c, t, p, full)
    ensures t == s.(neighbours := t.neighbours, requested := t.requested, log := t.log)
    ensures k in t.neighbours && t.requested - {p} == s.requested
  {
    hide Inv, Config.WellFormed, AllThere, BlockCount, Reachable, Deliver, NewPiece;
    ReachedInv(c, disk, s);
    ReachStep(c, disk, s, PeerHas(k, p));
    var s' := Do(c, s, PeerHas(k, p));
    ReachedInv(c, disk, s');
    ReachStep(c, disk, s', Select(k, p));
    t := DoSelect(c, s', k, p).(active := s.active);
    NothingDelivered(p, full);
  }

  lemma NothingDelivered(p: nat, full: seq<byte>)
    ensures PieceWith(p, full, 0) == NewPiece(p, BlockCount(|full|))
  {
  }

  /** A queued piece with the right content is checked, written and counted. */
  lemma Finished(c: Config, disk: Disk, s: State, j: nat, piece: Piece) returns (t: State)
    requires c.WellFormed() && AllThere(c.meta, disk) && Reachable(c, disk, s)
    requires j in s.jobs && s.jobs[j] == WriteJob(piece, Queued)
    requires piece.index < c.meta.pieceCount && Passes(c, piece)
    ensures Reachable(c, disk, t)
    ensures t == Unmark(WithPiece(c, s, piece), piece.index).(jobs := s.jobs - {j})
  {
    hide Inv, Config.WellFormed, AllThere, Reachable, DoCheckAndWrite, DoSetPiece, DoUnbind, Concat, WithPiece, Unmark;
    hide Passes;
    ReachedInv(c, disk, s);
    ReachStep(c, disk, s, CheckAndWrite(j));
    var s1 := DoCheckAndWrite(c, s, j);
    ReachedInv(c, disk, s1);
    ReachStep(c, disk, s1, Step.SetPiece(j));
    var s2 := DoSetPiece(c, s1, j);
    ReachedInv(c, disk, s2);
    ReachStep(c, disk, s2, Unbind(j));
    t := DoUnbind(s2, j);
    JobInThreeSteps(c, s, j);
  }

  /** What a piece more changes. */
  ghost predicate OneMore(c: Config, s: State, t: State, k: PeerId, p: nat, full: seq<byte>)
    requires c.WellFormed() && p < c.meta.pieceCount && |full| == Len(c, p)
  {
    && t.have == s.have + {p} && t.requested == s.requested && t.active == s.active && t.jobs == s.jobs
    && k in t.neighbours && AllThere(c.meta, t.disk)
    && Offset(c.meta.pieceLength, p) + |full| <= c.meta.Total()
    && c.Flat(t.disk) == Splice(c.Flat(s.disk), Offset(c.meta.pieceLength, p), full)
  }

  /** A piece that nobody is asked for can be fetched from any peer that is idle. */
  lemma PieceFetched(c: Config, disk: Disk, s: State, k: PeerId, p: nat, full: seq<byte>) returns (t: State)
    requires c.WellFormed() && AllThere(c.meta, disk) && Reachable(c, disk, s)
    requires k in s.neighbours && k !in s.active && p < c.meta.pieceCount && !Lost(c, p)
    requires p !in s.have && p !in s.requested && |full| == Len(c, p) && c.sha1(full) == c.Hash(p)
    ensures Reachable(c, disk, t) && OneMore(c, s, t, k, p, full)
  {
    hide Inv, Config.WellFormed, AllThere, Reachable, Concat, PieceWith, BlockCount, Expecting, OneMore;
    hide WithPiece, Unmark;
    ReachedInv(c, disk, s);
    StateOk(c, s);
    NoSuchJob(c, s);
    var s1 := Chosen(c, disk, s, k, p, full);
    SomeBlocks(|full|);
    AllReceived(c, disk, s1, k, p, full, 0);
    var piece := PieceWith(p, full, BlockCount(|full|));
    PieceWithFacts(p, full, BlockCount(|full|));
    var s2 := s1.(active := s1.active - {k}, nextJob := s1.nextJob + 1,
                  jobs := s1.jobs[s1.nextJob := WriteJob(piece, Queued)]);
    t := Finished(c, disk, s2, s1.nextJob, piece);
    OneMoreIs(c, s, s1, k, p, full, piece);
  }

  lemma OneMoreIs(c: Config, s: State, s1: State, k: PeerId, p: nat, full: seq<byte>, piece: Piece)
    requires c.WellFormed() && p < c.meta.pieceCount && |full| == Len(c, p) && AllThere(c.meta, s.disk)
    requires s1 == s.(neighbours := s1.neighbours, requested := s1.requested, log := s1.log)
    requires k in s1.neighbours && k !in s.active && s1.requested - {p} == s.requested && s.nextJob !in s.jobs
    requires piece.index == p && Concat(piece.blocks) == full
    ensures var s2 := s1.(active := s1.active - {k}, nextJob := s1.nextJob + 1,
                          jobs := s1.jobs[s1.nextJob := WriteJob(piece, Queued)]);
      OneMore(c, s, Unmark(WithPiece(c, s2, piece), p).(jobs := s2.jobs - {s1.nextJob}), k, p, full)
  {
    hide Config.WellFormed, AllThere, Concat, Splice, DiskWritten, Config.Segments, Config.Flat;
    assert s.active - {k} == s.active;
    assert s.jobs[s.nextJob := WriteJob(piece, Queued)] - {s.nextJob} == s.jobs;
    WrittenDisk(c, s.disk, p, full);
  }

  lemma SomeBlocks(n: nat)
    requires n > 0
    ensures BlockCount(n) > 0
  {
  }

  /** Content in which every piece has the hash that the metainfo promises. */
  ghost predicate Promised(c: Config, content: seq<byte>)
    requires c.WellFormed()
  {
    |content| == c.meta.Total() && forall p: nat :: p < c.meta.pieceCount ==> Verified(c, content, p)
  }

  /** The first n pieces that can be fetched are on disk with the bytes of the content. */
  ghost predicate SamePieces(c: Config, content: seq<byte>, flat: seq<byte>, n: nat)
    requires c.WellFormed() && |content| == |flat| == c.meta.Total()
  {
    forall p: nat :: p < n && p < c.meta.pieceCount && !Lost(c, p) ==> OnDisk(c, flat, p) == OnDisk(c, content, p)
  }

  function Fetchable(c: Config, n: nat): set<nat>
    requires c.meta.pieceLength > 0
  {
    set p: nat | p < n && !Lost(c, p)
  }

  lemma SpliceKeepsSame(c: Config, content: seq<byte>, flat: seq<byte>, p: nat)
    requires c.WellFormed() && p < c.meta.pieceCount && |content| == |flat| == c.meta.Total()
    requires SamePieces(c, content, flat, p)
    ensures var data := OnDisk(c, content, p);
      && |data| == Len(c, p) && Offset(c.meta.pieceLength, p) + |data| <= |flat|
      && SamePieces(c, content, Splice(flat, Offset(c.meta.pieceLength, p), data), p + 1)
  {
    hide Splice, Slice, MetaInfo.WellFormed, MetaInfo.PieceLen, LaidOut, Lost, Config.WellFormed;
    PositivePieces(c);
    var data := OnDisk(c, content, p);
    ContentLength(c, content, p);
    SpliceOnDisk(c, flat, p, data, p);
    var after := Splice(flat, Offset(c.meta.pieceLength, p), data);
    forall q: nat | q < p + 1 && q < c.meta.pieceCount && !Lost(c, q)
      ensures OnDisk(c, after, q) == OnDisk(c, content, q)
    {
      SpliceOnDisk(c, flat, p, data, q);
    }
  }

  lemma SpliceOnDisk(c: Config, flat: seq<byte>, p: nat, data: seq<byte>, q: nat)
    requires c.WellFormed() && |flat| == c.meta.Total()
    requires p < c.meta.pieceCount && |data| == Len(c, p) && q < c.meta.pieceCount
    ensures Offset(c.meta.pieceLength, p) + |data| <= |flat|
    ensures OnDisk(c, Splice(flat, Offset(c.meta.pieceLength, p), data), q) ==
            if q == p then data else OnDisk(c, flat, q)
  {
    hide MetaInfo.WellFormed, LaidOut, MetaInfo.PieceLen, Splice, Slice;
    PieceInside(c.meta, p);
    PieceInside(c.meta, q);
    ReadAfterWrite(c.meta, flat, p, data, q, 0, c.meta.PieceLen(q));
    assert data[0..|data|] == data;
  }

  /** One piece after the other, all from one peer. */
  lemma {:induction false} FirstFetched(c: Config, disk: Disk, content: seq<byte>, n: nat) returns (t: State)
    requires c.WellFormed() && AllThere(c.meta, disk) && Promised(c, content) && n <= c.meta.pieceCount
    ensures Reachable(c, disk, t) && t.have == Fetchable(c, n) && t.requested == {} && t.active == map[]
    ensures 0 in t.neighbours && SamePieces(c, content, c.Flat(t.disk), n)
  {
    hide Config.WellFormed, AllThere, Reachable, Inv, Verified, OnDisk, Lost, Splice, Config.Flat;
    PositivePieces(c);
    if n == 0 {
      ReachStart(c, disk);
      InitInv(c, disk);
      ReachStep(c, disk, Init(disk), Connect(0));
      t := Do(c, Init(disk), Connect(0));
    } else {
      var p := n - 1;
      var s := FirstFetched(c, disk, content, p);
      if Lost(c, p) {
        t := s;
        assert Fetchable(c, n) == Fetchable(c, p);
      } else {
        var full := OnDisk(c, content, p);
        SpliceKeepsSame(c, content, c.Flat(s.disk), p);
        PromisedHash(c, content, p);
        t := PieceFetched(c, disk, s, 0, p, full);
        assert Fetchable(c, n) == Fetchable(c, p) + {p};
      }
    }
  }

  lemma PositivePieces(c: Config)
    requires c.WellFormed()
    ensures c.meta.pieceLength > 0
  {
  }

  lemma PromisedHash(c: Config, content: seq<byte>, p: nat)
    requires c.WellFormed() && Promised(c, content) && p < c.meta.pieceCount
    ensures c.sha1(OnDisk(c, content, p)) == c.Hash(p)
  {
    assert Verified(c, content, p);
  }

  /** All pieces the same, and none lost: all bytes the same. */
  lemma SameContent(c: Config, content: seq<byte>, flat: seq<byte>)
    requires c.WellFormed() && |content| == |flat| == c.meta.Total()
    requires SamePieces(c, content, flat, c.meta.pieceCount) && !LastSizeLost(c.meta)
    ensures flat == content
  {
    forall g: nat | g < |flat|
      ensures flat[g] == content[g]
    {
      var p, b := PieceOf(c.meta.pieceLength, c.meta.pieceCount, g);
      assert !Lost(c, p);
      assert OnDisk(c, flat, p)[b] == OnDisk(c, content, p)[b];
    }
  }

  /** Whatever the disk holds at first, there is a run after which every piece is done whose length
      was not recorded as 0, with the promised content on disk; if none was lost, the files together
      are that content. */
  lemma CanComplete(c: Config, disk: Disk, content: seq<byte>) returns (steps: seq<Step>)
    requires c.WellFormed() && AllThere(c.meta, disk) && Promised(c, content)
    ensures var s := Run(c, disk, steps);
      && s.have == Fetchable(c, c.meta.pieceCount)
      && SamePieces(c, content, c.Flat(s.disk), c.meta.pieceCount)
      && (!LastSizeLost(c.meta) ==> c.Flat(s.disk) == content)
  {
    hide Config.WellFormed, AllThere, Inv, Verified, OnDisk, LastSizeLost, Config.Flat, SamePieces, Fetchable, Promised;
    PositivePieces(c);
    var s := FirstFetched(c, disk, content, c.meta.pieceCount);
    steps :| Run(c, disk, steps) == s;
    if !LastSizeLost(c.meta) {
      SameLengths(c, content, c.Flat(s.disk));
      SameContent(c, content, c.Flat(s.disk));
    }
  }

  lemma SameLengths(c: Config, content: seq<byte>, flat: seq<byte>)
    requires c.WellFormed() && Promised(c, content) && |flat| == c.meta.Total()
    ensures |content| == |flat|
  {
  }
}
