/** What a neighbour knows of our interest, over all that a peer sends it. */
module Interest {
  import opened Common
  import opened Requests
  import opened Peers

  /** What the messages so far say: the last word on interest counts, and at first there is none. */
  function Told(sent: seq<Message>): bool {
    if sent == [] then false
    else
      var last := sent[|sent| - 1];
      if last.Interested? then true else if last.NotInterested? then false else Told(sent[..|sent| - 1])
  }

  /** Every request was sent while the neighbour took us for interested. */
  ghost predicate AskedWhenInterested(sent: seq<Message>) {
    forall i :: 0 <= i < |sent| && sent[i].Request? ==> Told(sent[..i])
  }

  /** The flag is what the neighbour was told, and it is set while a piece is active. */
  ghost predicate Known(v: Client) {
    v.interested == Told(v.sent) && (v.active.Some? ==> v.interested) && AskedWhenInterested(v.sent)
  }

  lemma OneMore(sent: seq<Message>, m: Message)
    requires AskedWhenInterested(sent) && (m.Request? ==> Told(sent))
    ensures AskedWhenInterested(sent + [m])
    ensures Told(sent + [m]) == (m.Interested? || (!m.NotInterested? && Told(sent)))
  {
    var all := sent + [m];
    assert all[..|sent|] == sent;
    forall i | 0 <= i < |all| && all[i].Request?
      ensures Told(all[..i])
    {
      assert i < |sent| ==> all[..i] == sent[..i];
    }
  }

  /** Messages that are not about interest, requests only if we are interested. */
  lemma {:induction false} More(sent: seq<Message>, more: seq<Message>)
    requires AskedWhenInterested(sent)
    requires forall i :: 0 <= i < |more| ==> !more[i].Interested? && !more[i].NotInterested?
    requires forall i :: 0 <= i < |more| && more[i].Request? ==> Told(sent)
    ensures AskedWhenInterested(sent + more) && Told(sent + more) == Told(sent)
  {
    hide AskedWhenInterested, Told;
    if more == [] {
      assert sent + more == sent;
    } else {
      var front, last := more[..|more| - 1], more[|more| - 1];
      More(sent, front);
      OneMore(sent + front, last);
      assert sent + more == (sent + front) + [last];
    }
  }

  lemma ResumedKeepsKnown(client: PeerClient, was: Client)
    requires Known(was) && was.active.Some?
    ensures Known(client.Resumed(was))
  {
    var a := was.active.value;
    var size := client.SizeOf(a.piece.index);
    hide AskedWhenInterested, Told, Batch, BatchBytes, Wire, PeerClient.SizeOf;
    More(was.sent, AsRequests(Wire(Batch(a.piece.index, a.begin, size))));
  }

  lemma DroppedKeepsKnown(client: PeerClient, was: Client, id: nat)
    requires Known(was)
    ensures Known(client.Dropped(was, id))
  {
    if was.active.Some? && was.active.value.piece.index == id {
      ResumedKeepsKnown(client, was);
      hide Known, Told, AskedWhenInterested, PeerClient.Resumed, Wire, Cancels, PeerClient.SizeOf;
      CancelsKeepKnown(client.Resumed(was), Wire(Cancels(id, client.SizeOf(id))));
    }
  }

  lemma CancelsKeepKnown(was: Client, ranges: seq<Range>)
    requires Known(was)
    ensures Known(was.(active := None, sent := was.sent + AsCancels(ranges)))
  {
    hide AskedWhenInterested, Told;
    More(was.sent, AsCancels(ranges));
  }

  /** However a peer looks for a piece, the neighbour was told of our interest before it is asked; it
      is told that there is none exactly if all pieces are done. */
  lemma AskedKeepsKnown(client: PeerClient, was: Client, endGame: bool)
    requires Known(was) && was.active.None? && client.Asked(was, client.View(), endGame)
    ensures Known(client.View())
    ensures client.View().sent == was.sent + [NotInterested] <==>
            forall p :: 0 <= p < |client.master.bits| ==> client.master.bits[p]
  {
    var now := client.View();
    hide AnyEligible, Eligible, Batch, BatchBytes, BlockCount, Wire;
    if Popcount(client.master.bits) == |client.master.bits| {
      hide AskedWhenInterested, Told;
      OneMore(was.sent, NotInterested);
    } else {
      var hello := if was.interested then [] else [Interested];
      assert was.sent + [] == was.sent;
      OneMore(was.sent, Interested);
      hide AskedWhenInterested, Told;
      if now.active.Some? {
        var p := now.active.value.piece.index;
        var asks := AsRequests(Wire(Batch(p, 0, client.SizeOf(p))));
        More(was.sent + hello, asks);
        NotTheSame(was.sent, hello, asks);
      } else {
        NotTheSame(was.sent, hello, []);
      }
    }
  }

  lemma NotTheSame(sent: seq<Message>, hello: seq<Message>, asks: seq<Message>)
    requires forall m :: m in hello || m in asks ==> !m.NotInterested?
    ensures sent + hello + asks != sent + [NotInterested]
    ensures sent + hello != sent + [NotInterested]
  {
    assert (sent + [NotInterested])[|sent|] == NotInterested;
    if hello + asks != [] {
      assert (sent + hello + asks)[|sent|] == (hello + asks)[0];
    }
    if hello != [] {
      assert (sent + hello)[|sent|] == hello[0];
    }
  }
}
