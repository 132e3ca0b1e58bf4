/** Choosing pieces and requesting them: `MasterPeer`, `OptimalStrategy::ChoosePiece` and the
    piece-handling part of `PeerClient`. */
module Peers {
  import opened Common
  import opened Pieces
  import opened Requests
  import opened Assembly

  type Bitfield = seq<bool>

  /** `Bitfield::Popcount`. */
  function Popcount(bits: Bitfield): (n: nat)
    ensures n <= |bits|
    ensures n == 0 <==> forall i :: 0 <= i < |bits| ==> !bits[i]
    ensures n == |bits| <==> forall i :: 0 <= i < |bits| ==> bits[i]
  {
    if bits == [] then 0
    else
      var last := |bits| - 1;
      assert forall i :: 0 <= i < last ==> bits[..last][i] == bits[i];
      Popcount(bits[..last]) + if bits[last] then 1 else 0
  }

  /** `GetMismatchedBitfield`: what the neighbour has and we do not. */
  function Mismatched(main: Bitfield, secondary: Bitfield): Bitfield
    requires |main| == |secondary|
  {
    seq(|main|, i requires 0 <= i < |main| => !main[i] && secondary[i])
  }

  /** A piece that may be picked: missing here, held by the neighbour, and not asked for
      already (outside end game). */
  predicate Eligible(bits: Bitfield, neighbour: Bitfield, requested: set<nat>, endGame: bool, p: nat) {
    p < |bits| && p < |neighbour| && !bits[p] && neighbour[p] && (endGame || p !in requested)
  }

  ghost predicate AnyEligible(bits: Bitfield, neighbour: Bitfield, requested: set<nat>, endGame: bool) {
    exists p: nat :: Eligible(bits, neighbour, requested, endGame, p)
  }

  /** Our own peer: the pieces we have and the pieces some peer was asked for. */
  class MasterPeer {
    var bits: Bitfield
    var requested: set<nat>

    constructor (pieces: nat)
      ensures bits == seq(pieces, _ => false) && requested == {}
    {
      bits := seq(pieces, _ => false);
      requested := {};
    }

    method MarkRequestedPiece(p: nat)
      modifies this`requested
      ensures requested == old(requested) + {p}
    {
      requested := requested + {p};
    }

    method UnmarkRequestedPiece(p: nat)
      modifies this`requested
      ensures requested == old(requested) - {p}
    {
      requested := requested - {p};
    }

    /** `OptimalStrategy::ChoosePiece`: any eligible piece, none exactly when there is none; the
        pick is marked unless the end game is on. */
    method ChoosePiece(neighbour: Bitfield, endGame: bool) returns (r: Option<nat>)
      requires |neighbour| == |bits|
      modifies this`requested
      ensures r.Some? <==> AnyEligible(bits, neighbour, old(requested), endGame)
      ensures r.Some? ==> Eligible(bits, neighbour, old(requested), endGame, r.value)
      ensures requested == old(requested) + if r.Some? && !endGame then {r.value} else {}
    {
      var available := Mismatched(bits, neighbour);
      if Popcount(available) == 0 {
        forall p: nat
          ensures !Eligible(bits, neighbour, requested, endGame, p)
        {
          assert p < |bits| ==> !available[p];
        }
        return None;
      }
      var ids: seq<nat> := [];
      for i := 0 to |available|
        invariant forall k :: 0 <= k < |ids| ==> Eligible(bits, neighbour, requested, endGame, ids[k])
        invariant forall p: nat :: p < i && Eligible(bits, neighbour, requested, endGame, p) ==> p in ids
      {
        if available[i] && (endGame || i !in requested) {
          ids := ids + [i];
        }
      }
      if ids == [] {
        return None;
      }
      var pick: nat :| pick < |ids|;
      var chosen := ids[pick];
      assert Eligible(bits, neighbour, old(requested), endGame, chosen);
      if !endGame {
        MarkRequestedPiece(chosen);
      }
      return Some(chosen);
    }
  }

  /** `active_piece_`: the piece being downloaded and how far requests were sent. */
  datatype Active = Active(piece: Piece, begin: nat)

  datatype Message = Interested | NotInterested | Have(index: nat) | Request(range: Range) | Cancel(range: Range)

  function AsRequests(ranges: seq<Range>): (r: seq<Message>)
    ensures |r| == |ranges| && forall i :: 0 <= i < |r| ==> r[i].Request? && r[i].range == ranges[i]
  {
    seq(|ranges|, i requires 0 <= i < |ranges| => Request(ranges[i]))
  }

  function AsCancels(ranges: seq<Range>): (r: seq<Message>)
    ensures |r| == |ranges| && forall i :: 0 <= i < |r| ==> r[i].Cancel? && r[i].range == ranges[i]
  {
    seq(|ranges|, i requires 0 <= i < |ranges| => Cancel(ranges[i]))
  }

  lemma MessagesMore(a: seq<Range>, b: seq<Range>)
    ensures AsRequests(Wire(a + b)) == AsRequests(Wire(a)) + AsRequests(Wire(b))
  {
  }

  /** The fields that requesting changes. */
  datatype Client = Client(requested: set<nat>, interested: bool, active: Option<Active>, sent: seq<Message>)

  /** How a received block was handled. */
  datatype BlockOutcome = Disconnected | Ignored | Cancelled | Stored | Completed(piece: Piece)

  class PeerClient {
    const master: MasterPeer
    const pieceSize: nat
    const lastPieceSize: nat
    var neighbour: Bitfield
    var active: Option<Active>
    var interested: bool
    var remoteChoked: bool
    var remoteInterested: bool
    /** The messages handed to the socket so far. */
    var sent: seq<Message>

    constructor (master: MasterPeer, pieceSize: nat, lastPieceSize: nat)
      ensures this.master == master && this.pieceSize == pieceSize && this.lastPieceSize == lastPieceSize
      ensures neighbour == seq(|master.bits|, _ => false) && active == None
      ensures !interested && remoteChoked && !remoteInterested && sent == []
    {
      this.master := master;
      this.pieceSize := pieceSize;
      this.lastPieceSize := lastPieceSize;
      this.neighbour := seq(|master.bits|, _ => false);
      this.active := None;
      this.interested := false;
      this.remoteChoked := true;
      this.remoteInterested := false;
      this.sent := [];
    }

    function SizeOf(p: nat): nat
      reads master`bits
    {
      if p == |master.bits| - 1 then lastPieceSize else pieceSize
    }

    /** What the handlers change. */
    ghost function View(): Client
      reads this, master
    {
      Client(master.requested, interested, active, sent)
    }

    /** Going on with the active piece. */
    function Resumed(was: Client): Client
      requires was.active.Some?
      reads master`bits
    {
      var a := was.active.value;
      var size := SizeOf(a.piece.index);
      if size == a.begin then was
      else
        was.(active := Some(a.(begin := a.begin + BatchBytes(size))),
             sent := was.sent + AsRequests(Wire(Batch(a.piece.index, a.begin, size))))
    }

    /** Looking for a new piece: what is announced, chosen, marked, remembered and requested. */
    ghost predicate Asked(was: Client, now: Client, endGame: bool)
      reads this, master
    {
      if Popcount(master.bits) == |master.bits| then
        now == was.(interested := false, sent := was.sent + [NotInterested])
      else if remoteChoked then
        now == was
      else
        var hello := was.(interested := true, sent := was.sent + if was.interested then [] else [Interested]);
        if !AnyEligible(master.bits, neighbour, was.requested, endGame) then
          now == hello
        else
          && now.active.Some?
          && var p := now.active.value.piece.index;
          && Eligible(master.bits, neighbour, was.requested, endGame, p)
          && now == hello.(active := Some(Active(NewPiece(p, BlockCount(SizeOf(p))), BatchBytes(SizeOf(p)))),
                           sent := hello.sent + AsRequests(Wire(Batch(p, 0, SizeOf(p)))),
                           requested := was.requested + if endGame then {} else {p})
    }

    /** From `before` on, all that a first call and k more for the active piece send was sent, and
        no more. */
    ghost predicate Outstanding(now: Client, before: seq<Message>, k: nat)
      reads master`bits
    {
      && now.active.Some?
      && var p := now.active.value.piece.index;
      && now.active.value.begin == Cursor(SizeOf(p), k)
      && now.sent == before + AsRequests(Wire(Emitted(p, SizeOf(p), k)))
    }

    /** Going on sends exactly what the next call adds. */
    lemma ResumedSends(was: Client, before: seq<Message>, k: nat)
      requires Outstanding(was, before, k)
      ensures Outstanding(Resumed(was), before, k + 1)
      ensures Resumed(was).active.value.piece == was.active.value.piece
    {
      var p, begin := was.active.value.piece.index, was.active.value.begin;
      var size := SizeOf(p);
      hide Batch, BatchBytes, AsRequests, Wire, SizeOf;
      EmittedNext(p, size, k);
      if size != begin {
        MessagesMore(Emitted(p, size, k), Batch(p, begin, size));
        Regroup(before, AsRequests(Wire(Emitted(p, size, k))), AsRequests(Wire(Batch(p, begin, size))));
      }
    }

    /** A new piece is asked for from its first byte on. */
    lemma AskedSends(was: Client, endGame: bool)
      requires was.active.None? && Asked(was, View(), endGame) && View().active.Some?
      ensures Outstanding(View(), was.sent + if was.interested then [] else [Interested], 0)
    {
      hide Batch, AsRequests, Wire, Popcount, AnyEligible, Eligible, BlockCount;
      EmittedFirst(View().active.value.piece.index, SizeOf(View().active.value.piece.index));
    }

    /** Starts a piece, or goes on with the active one. */
    method TryToRequestPiece(endGame: bool)
      requires |neighbour| == |master.bits|
      modifies this`active, this`interested, this`sent, master`requested
      ensures if old(active).Some? then View() == Resumed(old(View()))
              else Asked(old(View()), View(), endGame)
      ensures old(active).None? && active.Some? ==>
                Outstanding(View(), old(sent) + if old(interested) then [] else [Interested], 0)
      ensures forall before: seq<Message>, k: nat ::
                Outstanding(old(View()), before, k) ==> Outstanding(View(), before, k + 1)
    {
      hide Popcount, BlockCount, Batch, BatchBytes, AsRequests, AnyEligible, Cursor, Emitted, Wire;
      ghost var was := View();
      var size: nat;
      if active.None? {
        if Popcount(master.bits) == |master.bits| {
          interested := false;
          sent := sent + [NotInterested];
          return;
        }
        if remoteChoked {
          return;
        }
        if !interested {
          interested := true;
          sent := sent + [Interested];
        }
        var chosen := master.ChoosePiece(neighbour, endGame);
        if chosen.None? {
          return;
        }
        size := SizeOf(chosen.value);
        active := Some(Active(NewPiece(chosen.value, BlockCount(size)), 0));
      } else {
        size := SizeOf(active.value.piece.index);
        if size == active.value.begin {
          Sends(was, endGame);
          return;
        }
      }
      var ranges, begin := SendBatch(active.value.piece.index, active.value.begin, size);
      sent := sent + AsRequests(ranges);
      active := Some(active.value.(begin := begin));
      Sends(was, endGame);
    }

    lemma Sends(was: Client, endGame: bool)
      requires if was.active.Some? then View() == Resumed(was) else Asked(was, View(), endGame)
      ensures was.active.None? && active.Some? ==>
                Outstanding(View(), was.sent + if was.interested then [] else [Interested], 0)
      ensures forall before: seq<Message>, k: nat ::
                Outstanding(was, before, k) ==> Outstanding(View(), before, k + 1)
    {
      hide Asked, Resumed, Outstanding;
      if was.active.None? {
        NotOutstanding(was);
        if active.Some? {
          AskedSends(was, endGame);
        }
      } else {
        forall before: seq<Message>, k: nat | Outstanding(was, before, k)
          ensures Outstanding(View(), before, k + 1)
        {
          ResumedSends(was, before, k);
        }
      }
    }

    lemma NotOutstanding(was: Client)
      requires was.active.None?
      ensures forall before: seq<Message>, k: nat :: !Outstanding(was, before, k)
    {
    }

    /** Takes back the requests of piece `id` if it is the active one. */
    method CancelPiece(id: nat)
      modifies this`active, this`sent
      ensures if old(active).Some? && old(active).value.piece.index == id then
                active == None && sent == old(sent) + AsCancels(Wire(Cancels(id, SizeOf(id))))
              else
                active == old(active) && sent == old(sent)
    {
      if active.Some? && active.value.piece.index == id {
        var ranges := SendCancels(id, SizeOf(id));
        sent := sent + AsCancels(ranges);
        active := None;
      }
    }

    /** The active piece `id` is dropped after it was gone on with. */
    function Dropped(was: Client, id: nat): Client
      reads master`bits
    {
      if was.active.Some? && was.active.value.piece.index == id then
        Resumed(was).(active := None, sent := Resumed(was).sent + AsCancels(Wire(Cancels(id, SizeOf(id)))))
      else was
    }

    /** What `MasterPeer::CancelPiece` posts to a peer. `cancel_piece` only posts its part, so the
        attempt to request again comes first and still finds the piece active. */
    method CancelAndTryAgain(id: nat, endGame: bool)
      requires |neighbour| == |master.bits|
      modifies this`active, this`interested, this`sent, master`requested
      ensures View() == Dropped(old(View()), id)
    {
      hide AsRequests, AsCancels, Batch, BatchBytes, Cancels, Asked;
      if active.Some? && active.value.piece.index == id {
        TryToRequestPiece(endGame);
        CancelPiece(id);
      }
    }

    /** The piece did not come in time: its mark is released before anything else, and of the posted
        parts, going on with it comes before dropping it. */
    method OnWaitTimeout(endGame: bool)
      requires |neighbour| == |master.bits|
      modifies this`active, this`interested, this`sent, master`requested
      ensures old(active).None? ==> View() == old(View())
      ensures old(active).Some? ==>
                var p := old(active).value.piece.index;
                var freed := old(View()).(requested := old(master.requested) - {p});
                View() == if remoteChoked then Resumed(freed) else Dropped(freed, p)
    {
      hide AsRequests, AsCancels, Batch, BatchBytes, Cancels, Asked, Outstanding;
      if active.Some? {
        var p := active.value.piece.index;
        master.UnmarkRequestedPiece(p);
        TryToRequestPiece(endGame);
        if !remoteChoked {
          CancelPiece(p);
        }
      }
    }

    /** `SendHaveToAll` tells a peer that is interested in us of a new piece. */
    method TellHave(p: nat)
      modifies this`sent
      ensures sent == old(sent) + if remoteInterested then [Have(p)] else []
    {
      if remoteInterested {
        sent := sent + [Have(p)];
      }
    }

    /** The remote peer choked us: its piece is up for grabs again. */
    method OnChoked()
      modifies this`active, this`remoteChoked, master`requested
      ensures remoteChoked && active == None
      ensures master.requested ==
              old(master.requested) - if old(active).Some? then {old(active).value.piece.index} else {}
    {
      remoteChoked := true;
      if active.Some? {
        master.UnmarkRequestedPiece(active.value.piece.index);
        active := None;
      }
    }

    /** Posted when a piece is complete: it is dropped, and the next one is looked for. */
    method ClearAndTryRequest(endGame: bool)
      requires |neighbour| == |master.bits|
      modifies this`active, this`interested, this`sent, master`requested
      ensures Asked(old(View()).(active := None), View(), endGame)
    {
      active := None;
      TryToRequestPiece(endGame);
    }

    /** A block of the active piece arrived (or one that is not wanted). */
    method OnPieceBlock(index: nat, begin: nat, data: seq<byte>, endGame: bool) returns (r: BlockOutcome)
      requires |neighbour| == |master.bits|
      requires index < |master.bits| && |data| <= MOST_REQUEST_SIZE && (endGame || index in master.requested) &&
               !master.bits[index] ==>
                 active.Some? && begin / MOST_REQUEST_SIZE < |active.value.piece.blocks|
      modifies this`active, this`interested, this`sent, master`requested
      ensures r.Disconnected? <==> index >= |master.bits|
      ensures r.Ignored? <==>
              index < |master.bits| && (|data| > MOST_REQUEST_SIZE || (!endGame && index !in old(master.requested)))
      ensures r.Disconnected? || r.Ignored? ==> View() == old(View())
      ensures r.Cancelled? <==> !r.Disconnected? && !r.Ignored? && master.bits[index]
      ensures r.Cancelled? ==>
                View() == if old(active).Some? && old(active).value.piece.index == index then
                            old(View()).(active := None,
                                         sent := old(sent) + AsCancels(Wire(Cancels(index, SizeOf(index)))))
                          else old(View())
      ensures r.Stored? || r.Completed? ==>
                && old(active).Some? && begin / MOST_REQUEST_SIZE < |old(active).value.piece.blocks|
                && var piece := Store(old(active).value.piece, begin, data);
                && (r.Completed? <==> piece.currentBlocksNum == piece.blockCount)
                && (r.Completed? ==> r.piece == piece && Asked(old(View()).(active := None), View(), endGame))
                && (r.Stored? ==>
                      var stored := old(View()).(active := Some(old(active).value.(piece := piece)));
                      View() ==
                      if piece.currentBlocksNum % REQUEST_MAX_QUEUE_SIZE == 0 then Resumed(stored) else stored)
    {
      hide Resumed, Asked, Store;
      if index >= |master.bits| {
        return Disconnected;
      }
      if |data| > MOST_REQUEST_SIZE || (!endGame && index !in master.requested) {
        return Ignored;
      }
      if master.bits[index] {
        CancelPiece(index);
        return Cancelled;
      }
      var piece := Store(active.value.piece, begin, data);
      active := Some(active.value.(piece := piece));
      if piece.currentBlocksNum == piece.blockCount {
        ClearAndTryRequest(endGame);
        return Completed(piece);
      } else if piece.currentBlocksNum % REQUEST_MAX_QUEUE_SIZE == 0 {
        TryToRequestPiece(endGame);
      }
      return Stored;
    }
  }

  /** A peer whose piece is cancelled in the end game asks for another one in no case; it asks once
      more for blocks of the cancelled piece exactly if that has more than 150 blocks and its
      batches did not end with it. */
  lemma DroppedAsksAgain(client: PeerClient, was: Client, k: nat)
    requires was.active.Some?
    requires was.active.value.begin == Cursor(client.SizeOf(was.active.value.piece.index), k)
    ensures var p := was.active.value.piece.index;
      var size := client.SizeOf(p);
      var now := client.Dropped(was, p);
      && now.active == None && now.requested == was.requested
      && (now.sent == was.sent + AsCancels(Wire(Cancels(p, size))) <==>
          size <= BATCH || (size % BATCH == 0 && size <= (k + 1) * BATCH))
  {
    var a := was.active.value;
    var p := a.piece.index;
    var size := client.SizeOf(p);
    CursorMeets(size, k);
    if a.begin != size {
      BatchNotEmpty(p, a.begin, size);
      hide Batch, Cancels, Cursor;
      assert |client.Dropped(was, p).sent| > |was.sent| + |AsCancels(Wire(Cancels(p, size)))|;
    }
  }

  /** Dropping a piece takes back every byte of it in exactly one message. */
  lemma EveryByteCancelled(p: nat, size: nat, x: nat) returns (b: nat)
    requires x < size <= TWO_TO_THE_32 && p < TWO_TO_THE_32
    ensures var messages := AsCancels(Wire(Cancels(p, size)));
      && b < |messages|
      && forall k :: 0 <= k < |messages| ==>
           && messages[k].Cancel? && messages[k].range.index == p
           && messages[k].range.begin + messages[k].range.length <= size
           && (messages[k].range.begin <= x < messages[k].range.begin + messages[k].range.length <==> k == b)
  {
    RequestsFit(p, size);
    b := TilingOnce(p, 0, size, x);
    TilingBlocks(p, 0, size);
    hide Tiling, AsCancels, Wire;
    var messages := AsCancels(Tiling(p, 0, size));
    MessagesOf(Tiling(p, 0, size));
  }

  lemma MessagesOf(ranges: seq<Range>)
    ensures |AsCancels(ranges)| == |ranges|
    ensures forall i :: 0 <= i < |ranges| ==> AsCancels(ranges)[i] == Cancel(ranges[i])
  {
  }

  /** A peer that has choked us is asked for nothing. */
  lemma ChokedAsksNothing(client: PeerClient, was: Client, endGame: bool)
    requires client.remoteChoked && client.Asked(was, client.View(), endGame)
    ensures client.View().requested == was.requested && client.View().active == was.active
    ensures forall m :: m in client.View().sent && m.Request? ==> m in was.sent
  {
    hide Popcount, AnyEligible, Eligible, BlockCount, Batch, AsRequests;
  }
}
