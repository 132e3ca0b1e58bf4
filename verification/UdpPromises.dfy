/** What the UDP tracker client promises: which events give an answer, and which an exception. */
module UdpPromises {
  import opened Common
  import opened Pieces
  import opened UdpTracker

  /** An accepted announce reply with peers, when one is waited for. */
  predicate Yields(s: State, e: Event, transaction: nat, peers: seq<Peer>) {
    && s.phase.AwaitAnnounce? && e.Reply? && AnnounceAccepted(e.data, transaction)
    && peers == ReplyPeers(e.data, e.beyond) && peers != []
  }

  /** The name was not resolved, an accepted announce reply had no peers, or something failed at the
      last endpoint with no attempt left: a failed send of a connect forfeits those left, and after an
      announce all of them must be used up. */
  predicate GivesUp(s: State, e: Event, transaction: nat) {
    match s.phase
    case Resolving => e.ResolveFailed?
    case ConnectSent => e.SendFailed? && s.endpoints == 1
    case AwaitConnect => e.ReadFailed? && s.endpoints == 1 && s.connectAttempts == 0
    case ConnectDelay => e.DelayOver? && s.endpoints == 1 && s.connectAttempts == 0
    case AnnounceSent => e.SendFailed? && s.endpoints == 1 && s.connectAttempts == s.announceAttempts == 0
    case AwaitAnnounce =>
      || (e.ReadFailed? && s.endpoints == 1 && s.connectAttempts == s.announceAttempts == 0)
      || (e.Reply? && AnnounceAccepted(e.data, transaction) && ReplyPeers(e.data, e.beyond) == [])
    case AnnounceDelay => e.DelayOver? && s.endpoints == 1 && s.connectAttempts == s.announceAttempts == 0
    case Stopped => false
  }

  /** The event sets the promise to o, which nobody has set before. */
  predicate Causes(s: State, e: Event, transaction: nat, o: Outcome) {
    && !s.isSet
    && match o
       case Response(peers) => Yields(s, e, transaction, peers)
       case Exception => GivesUp(s, e, transaction)
  }

  lemma FailedSends(s: State)
    requires Inv(s) && s.phase in {ConnectSent, AwaitConnect, ConnectDelay, AnnounceSent, AwaitAnnounce, AnnounceDelay}
    ensures TryConnect(s).promises ==
            s.promises + if !s.isSet && s.endpoints == 1 && s.connectAttempts == 0 then [Exception] else []
    ensures s.phase.ConnectSent? ==>
            TryConnect(s.(connectAttempts := 0)).promises ==
            s.promises + if !s.isSet && s.endpoints == 1 then [Exception] else []
    ensures TryAnnounce(s).promises ==
            s.promises +
            if !s.isSet && s.endpoints == 1 && s.connectAttempts == s.announceAttempts == 0 then [Exception] else []
  {
    hide PromiseOk;
  }

  lemma ResolvedPromises(s: State, e: Event, transaction: nat)
    requires Inv(s) && s.phase.Resolving?
    ensures e.Resolved? ==> Handle(s, e, transaction).promises == s.promises
    ensures e.ResolveFailed? ==>
              Handle(s, e, transaction).promises == s.promises + if s.isSet then [] else [Exception]
  {
  }

  lemma ReplyPromises(s: State, data: seq<byte>, beyond: seq<Peer>, transaction: nat)
    requires Inv(s) && (s.phase.AwaitConnect? || s.phase.AwaitAnnounce?)
    ensures Handle(s, Reply(data, beyond), transaction).promises ==
            s.promises +
            if s.isSet || s.phase.AwaitConnect? || !AnnounceAccepted(data, transaction) then []
            else if ReplyPeers(data, beyond) == [] then [Exception]
            else [Response(ReplyPeers(data, beyond))]
  {
    hide ConnectAccepted, AnnounceAccepted, ReplyPeers, TryConnect;
  }

  /** What one event adds to what the promise was set to. */
  lemma HandlePromises(s: State, e: Event, transaction: nat, o: Outcome)
    requires Inv(s)
    ensures o in Handle(s, e, transaction).promises <==> o in s.promises || Causes(s, e, transaction, o)
  {
    hide ConnectAccepted, AnnounceAccepted, ReplyPeers, TryConnect, TryAnnounce, Inv;
    if !Expected(s, e) {
    } else if e.Resolved? || e.ResolveFailed? {
      hide Handle;
      ResolvedPromises(s, e, transaction);
    } else if e.Reply? {
      hide Handle;
      ReplyPromises(s, e.data, e.beyond, transaction);
    } else if e.SendFailed? || e.ReadFailed? || e.DelayOver? {
      FailedSends(s);
    }
  }

  lemma {:induction false} OutcomeFrom(s: State, events: seq<Event>, transaction: nat, o: Outcome)
    requires Inv(s)
    ensures o in After(s, events, transaction).promises <==>
            o in s.promises || exists k :: CausedAt(s, events, transaction, k, o)
    decreases |events|
  {
    hide Inv, Causes, Handle;
    if events != [] {
      var next := Handle(s, events[0], transaction);
      HandleKeeps(s, events[0], transaction);
      HandlePromises(s, events[0], transaction, o);
      OutcomeFrom(next, events[1..], transaction, o);
      CausedLater(s, events, transaction, o);
    }
  }

  /** Event k of the run from s on set the promise to o. */
  predicate CausedAt(s: State, events: seq<Event>, transaction: nat, k: nat, o: Outcome) {
    k < |events| && Causes(After(s, events[..k], transaction), events[k], transaction, o)
  }

  lemma CausedLater(s: State, events: seq<Event>, transaction: nat, o: Outcome)
    requires events != []
    ensures (exists k: nat :: CausedAt(s, events, transaction, k, o)) <==>
            Causes(s, events[0], transaction, o) ||
            exists k: nat :: CausedAt(Handle(s, events[0], transaction), events[1..], transaction, k, o)
  {
    hide Causes, Handle;
    var rest := Handle(s, events[0], transaction);
    assert events[..0] == [];
    assert CausedAt(s, events, transaction, 0, o) <==> Causes(s, events[0], transaction, o);
    hide CausedAt;
    if k: nat :| CausedAt(s, events, transaction, k, o) {
      if k > 0 {
        CausedNext(s, events, transaction, k - 1, o);
      }
    }
    if k: nat :| CausedAt(rest, events[1..], transaction, k, o) {
      CausedNext(s, events, transaction, k, o);
    }
  }

  lemma CausedNext(s: State, events: seq<Event>, transaction: nat, k: nat, o: Outcome)
    requires events != []
    ensures CausedAt(s, events, transaction, k + 1, o) <==>
            CausedAt(Handle(s, events[0], transaction), events[1..], transaction, k, o)
  {
    hide Causes, Handle;
    if k + 1 < |events| {
      assert events[..k + 1][0] == events[0] && events[..k + 1][1..] == events[1..][..k];
    }
  }

  /** In every run: the promise holds these peers exactly if at some event it was still unset and an
      accepted announce reply with them arrived, and it holds an exception exactly if at some event it
      was still unset and the requester gave up. */
  lemma PromiseMeans(events: seq<Event>, transaction: nat, o: Outcome)
    ensures o in Run(events, transaction).promises <==> exists k: nat :: CausedAt(Start(), events, transaction, k, o)
  {
    StartKeeps();
    OutcomeFrom(Start(), events, transaction, o);
  }

  /** A reply counts only if it is long enough and has the transaction and the action that are waited
      for; any other is as if none had come until the delay is over. */
  lemma OtherReplies(s: State, data: seq<byte>, beyond: seq<Peer>, transaction: nat)
    requires Inv(s) && (s.phase.AwaitConnect? || s.phase.AwaitAnnounce?)
    ensures s.phase.AwaitConnect? ==>
              (Handle(s, Reply(data, beyond), transaction) == s.(phase := ConnectDelay) <==>
               |data| < 16 || U32(data, 4) != transaction || U32(data, 0) != 0)
    ensures s.phase.AwaitAnnounce? ==>
              (Handle(s, Reply(data, beyond), transaction) == s.(phase := AnnounceDelay) <==>
               |data| < 20 || U32(data, 4) != transaction || U32(data, 0) != 1)
  {
    hide U32, ReplyPeers, TryConnect;
  }

  /** Once stopped, nothing is sent any more and no promise is set. */
  lemma {:induction false} StoppedStays(s: State, events: seq<Event>, transaction: nat)
    requires s.phase.Stopped? && s.isSet
    ensures var t := After(s, events, transaction);
      && t.phase.Stopped? && t.promises == s.promises
      && t.connectSends == s.connectSends && t.announceSends == s.announceSends
    decreases |events|
  {
    if events != [] {
      var next := Handle(s, events[0], transaction);
      assert next.phase.Stopped? && next.isSet && next.promises == s.promises;
      StoppedStays(next, events[1..], transaction);
    }
  }

  /** Whoever disconnects during a delay stops the machine, and at any time keeps it from setting the
      promise later. */
  lemma DisconnectSilences(s: State, events: seq<Event>, transaction: nat)
    requires Inv(s)
    ensures var t := After(Handle(s, Disconnected, transaction), events, transaction);
      && t.promises == s.promises
      && (s.phase in {ConnectDelay, AnnounceDelay} ==>
            t.phase.Stopped? && t.connectSends == s.connectSends && t.announceSends == s.announceSends)
  {
    var next := Handle(s, Disconnected, transaction);
    HandleKeeps(s, Disconnected, transaction);
    SetStays(next, events, transaction);
    if s.phase in {ConnectDelay, AnnounceDelay} {
      StoppedStays(next, events, transaction);
    }
  }

  lemma {:induction false} SetStays(s: State, events: seq<Event>, transaction: nat)
    requires Inv(s) && s.isSet
    ensures After(s, events, transaction).promises == s.promises
    decreases |events|
  {
    if events != [] {
      SetStaysOnce(s, events[0], transaction);
      HandleKeeps(s, events[0], transaction);
      hide Inv, Handle;
      SetStays(Handle(s, events[0], transaction), events[1..], transaction);
    }
  }

  lemma SetStaysOnce(s: State, e: Event, transaction: nat)
    requires s.isSet
    ensures Handle(s, e, transaction).isSet && Handle(s, e, transaction).promises == s.promises
  {
    hide ReplyPeers, ConnectAccepted, AnnounceAccepted;
  }

  /** A connect accepted, an announce sent and answered. */
  function Answered(reply: seq<byte>, beyond: seq<Peer>, transaction: nat): seq<Event>
    requires transaction < TWO_TO_THE_32
  {
    [Resolved(1), Sent(16), Reply(ConnectReply(transaction), []), Sent(98), Reply(reply, beyond)]
  }

  /** Whatever the header besides its transaction and its action, and whatever lies behind the
      buffer: 1 to 246 peers, none with a leading 0, are what the run ends with. */
  lemma PeersArrive(header: seq<byte>, peers: seq<Peer>, beyond: seq<Peer>, transaction: nat)
    requires |header| == 20 && transaction < TWO_TO_THE_32
    requires U32(header, 0) == 1 && U32(header, 4) == transaction
    requires 0 < |peers| <= MOST_PEERS && NoneStartsWithZero(peers)
    ensures var s := Run(Answered(header + Compact(peers), beyond, transaction), transaction);
      s.phase.Stopped? && s.promises == [Response(peers)]
  {
    var reply := header + Compact(peers);
    ReplyScan(header, peers);
    CutOfLong(peers, peers[0], []);
    assert ReplyPeers(reply, beyond) == peers;
    AcceptedHeader(header, Compact(peers), transaction);
    hide ReplyPeers, AnnounceAccepted, ConnectReply, NoneStartsWithZero, U32;
    RunOfAnswer(reply, beyond, transaction);
  }

  lemma AcceptedHeader(header: seq<byte>, rest: seq<byte>, transaction: nat)
    requires |header| == 20 && U32(header, 0) == 1 && U32(header, 4) == transaction
    ensures AnnounceAccepted(header + rest, transaction)
  {
    var data := header + rest;
    assert forall i :: 0 <= i < 20 ==> data[i] == header[i];
  }

  lemma RunOfAnswer(reply: seq<byte>, beyond: seq<Peer>, transaction: nat)
    requires transaction < TWO_TO_THE_32 && AnnounceAccepted(reply, transaction) && ReplyPeers(reply, beyond) != []
    ensures var s := Run(Answered(reply, beyond, transaction), transaction);
      s.phase.Stopped? && s.promises == [Response(ReplyPeers(reply, beyond))]
  {
    hide After, ReplyPeers, AnnounceAccepted, ConnectAccepted;
    var e1, e2, e3, e4 := Resolved(1), Sent(16), Reply(ConnectReply(transaction), []), Sent(98);
    var e5 := Reply(reply, beyond);
    var s1 := Handle(Start(), e1, transaction);
    var s2 := Handle(s1, e2, transaction);
    var s3 := Handle(s2, e3, transaction);
    var s4 := Handle(s3, e4, transaction);
    var s5 := Handle(s4, e5, transaction);
    assert Answered(reply, beyond, transaction) == [e1] + ([e2] + ([e3] + ([e4] + ([e5] + []))));
    Next(Start(), e1, [e2] + ([e3] + ([e4] + ([e5] + []))), transaction);
    Next(s1, e2, [e3] + ([e4] + ([e5] + [])), transaction);
    Next(s2, e3, [e4] + ([e5] + []), transaction);
    Next(s3, e4, [e5] + [], transaction);
    Next(s4, e5, [], transaction);
    NoEvents(s5, transaction);
  }

  /** A send that is cut short forfeits the attempts that are left. */
  lemma ShortSendsGiveUp(transaction: nat)
    requires transaction < TWO_TO_THE_32
    ensures var s := Run([Resolved(1), Sent(15), DelayOver], transaction);
      s.phase.Stopped? && s.promises == [Exception] && s.connectSends == 1
    ensures var accepted := Reply(ConnectReply(transaction), []);
      var s := Run([Resolved(1), Sent(16), accepted, Sent(97), DelayOver], transaction);
      s.phase.Stopped? && s.promises == [Exception] && s.connectSends == s.announceSends == 1
  {
    hide After, ConnectAccepted, AnnounceAccepted, ReplyPeers;
    var e1, e2, e3, e4, e5 := Resolved(1), Sent(16), Reply(ConnectReply(transaction), []), Sent(97), DelayOver;
    var s1 := Handle(Start(), e1, transaction);
    var t2 := Handle(s1, Sent(15), transaction);
    assert [e1, Sent(15), e5] == [e1] + ([Sent(15)] + ([e5] + []));
    Next(Start(), e1, [Sent(15)] + ([e5] + []), transaction);
    Next(s1, Sent(15), [e5] + [], transaction);
    Next(t2, e5, [], transaction);
    NoEvents(Handle(t2, e5, transaction), transaction);
    var s2 := Handle(s1, e2, transaction);
    var s3 := Handle(s2, e3, transaction);
    var s4 := Handle(s3, e4, transaction);
    assert [e1, e2, e3, e4, e5] == [e1] + ([e2] + ([e3] + ([e4] + ([e5] + []))));
    Next(Start(), e1, [e2] + ([e3] + ([e4] + ([e5] + []))), transaction);
    Next(s1, e2, [e3] + ([e4] + ([e5] + [])), transaction);
    Next(s2, e3, [e4] + ([e5] + []), transaction);
    Next(s3, e4, [e5] + [], transaction);
    Next(s4, e5, [], transaction);
    NoEvents(Handle(s4, e5, transaction), transaction);
  }

  lemma NoEvents(s: State, transaction: nat)
    ensures After(s, [], transaction) == s
  {
  }
}
