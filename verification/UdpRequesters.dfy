/** `udpRequester` as an object whose handlers do what the machine says. */
module UdpRequesters {
  import opened Common
  import opened Pieces
  import opened UdpTracker
  import opened UdpPromises

  class UdpRequester {
    var phase: Phase
    var given: nat
    var endpoints: nat
    var connectAttempts: nat
    var announceAttempts: nat
    var isSet: bool
    var promises: seq<Outcome>
    var silenced: bool
    var connectSends: nat
    var announceSends: nat

    ghost function View(): State
      reads this
    {
      State(phase, given, endpoints, connectAttempts, announceAttempts, isSet, promises, silenced,
            connectSends, announceSends)
    }

    constructor ()
      ensures View() == Start()
    {
      phase, given, endpoints := Resolving, 0, 0;
      connectAttempts, announceAttempts := MAX_CONNECT_ATTEMPTS, MAX_ANNOUNCE_ATTEMPTS;
      isSet, promises, silenced := false, [], false;
      connectSends, announceSends := 0, 0;
    }

    /** `if (!connect_attempts_--)`: the counter wraps below zero before it is reset. */
    method DoTryConnect()
      requires endpoints > 0 && connectAttempts < TWO_TO_THE_64
      modifies this
      ensures View() == TryConnect(old(View()))
      decreases endpoints, 1
    {
      var before := connectAttempts;
      connectAttempts := (connectAttempts - 1) % TWO_TO_THE_64;
      if before == 0 {
        connectAttempts := MAX_CONNECT_ATTEMPTS;
        UpdateEndpoint();
      } else {
        phase := ConnectSent;
        connectSends := connectSends + 1;
      }
    }

    /** The next endpoint, or the end. */
    method UpdateEndpoint()
      requires endpoints > 0 && connectAttempts == MAX_CONNECT_ATTEMPTS
      modifies this
      ensures View() ==
              if old(endpoints) == 1 then SetException(old(View()).(endpoints := 0))
              else TryConnect(old(View()).(endpoints := old(endpoints) - 1))
      decreases endpoints, 0
    {
      endpoints := endpoints - 1;
      if endpoints == 0 {
        FailPromise();
      } else {
        DoTryConnect();
      }
    }

    method DoTryAnnounce()
      requires endpoints > 0 && connectAttempts < TWO_TO_THE_64 && announceAttempts < TWO_TO_THE_64
      modifies this
      ensures View() == TryAnnounce(old(View()))
    {
      var before := announceAttempts;
      announceAttempts := (announceAttempts - 1) % TWO_TO_THE_64;
      if before == 0 {
        announceAttempts := MAX_ANNOUNCE_ATTEMPTS;
        DoTryConnect();
      } else {
        phase := AnnounceSent;
        announceSends := announceSends + 1;
      }
    }

    /** `SetException`. */
    method FailPromise()
      modifies this
      ensures View() == SetException(old(View()))
    {
      phase := Stopped;
      if !isSet {
        promises := promises + [Exception];
        isSet := true;
      }
    }

    /** `SetResponse`. */
    method KeepPromise(peers: seq<Peer>)
      modifies this
      ensures View() == SetResponse(old(View()), peers)
    {
      phase := Stopped;
      if isSet {
        return;
      }
      if peers == [] {
        FailPromise();
        return;
      }
      promises := promises + [Response(peers)];
      isSet := true;
    }

    /** `Disconnect` called by somebody else. */
    method Disconnect()
      modifies this
      ensures View() == Handle(old(View()), Disconnected, 0)
    {
      silenced := silenced || !isSet;
      isSet := true;
      if phase == ConnectDelay || phase == AnnounceDelay {
        phase := Stopped;
      }
    }

    /** The scan for compact peers; None means that it ran past the end. */
    static method ScanPeers(data: seq<byte>) returns (peers: Option<seq<Peer>>)
      ensures peers == Peers(data, 20)
    {
      var found: seq<Peer> := [];
      var i: nat := 20;
      assert Peers(data, i).Some? ==> found + Peers(data, i).value == Peers(data, i).value;
      while i < |data| && data[i] != 0
        invariant Peers(data, 20) == Prepend(found, Peers(data, i))
        decreases |data| - i
      {
        if i + 6 > |data| {
          return None;
        }
        var p := Peer(data[i], data[i + 1], data[i + 2], data[i + 3], data[i + 4], data[i + 5]);
        if Peers(data, i + 6).Some? {
          assert found + ([p] + Peers(data, i + 6).value) == (found + [p]) + Peers(data, i + 6).value;
        }
        found := found + [p];
        i := i + 6;
      }
      if i >= |data| {
        return None;
      }
      assert found + [] == found;
      peers := Some(found);
    }

    static function Prepend(found: seq<Peer>, rest: Option<seq<Peer>>): Option<seq<Peer>> {
      if rest.None? then None else Some(found + rest.value)
    }

    /** What an event makes the requester do. */
    method OnEvent(e: Event, transaction: nat)
      requires Inv(View())
      modifies this
      ensures View() == Handle(old(View()), e, transaction) && Inv(View())
      ensures forall o :: o in promises <==> o in old(promises) || Causes(old(View()), e, transaction, o)
    {
      HandleKeeps(View(), e, transaction);
      forall o
        ensures o in Handle(View(), e, transaction).promises <==> o in promises || Causes(View(), e, transaction, o)
      {
        HandlePromises(View(), e, transaction, o);
      }
      if !Expected(State(phase, given, endpoints, connectAttempts, announceAttempts, isSet, promises, silenced,
                         connectSends, announceSends), e) {
        return;
      }
      hide TryConnect, TryAnnounce, SetResponse, SetException, Measure, Peers, U32, Received, Causes;
      match e
      case Resolved(n) =>
        given, endpoints := n, n;
        DoTryConnect();
      case ResolveFailed => FailPromise();
      case Sent(bytes) =>
        if phase == ConnectSent {
          if bytes < 16 {
            connectAttempts, phase := 0, ConnectDelay;
          } else {
            phase := AwaitConnect;
          }
        } else if bytes != ANNOUNCE_LENGTH {
          announceAttempts, connectAttempts, phase := 0, 0, AnnounceDelay;
        } else {
          phase := AwaitAnnounce;
        }
      case SendFailed =>
        if phase == ConnectSent {
          connectAttempts := 0;
          DoTryConnect();
        } else {
          DoTryAnnounce();
        }
      case Reply(data, beyond) =>
        if phase == AwaitConnect {
          if |data| >= 16 && U32(data, 4) == transaction && U32(data, 0) == 0 {
            DoTryAnnounce();
          } else {
            phase := ConnectDelay;
          }
        } else if |data| >= 20 && U32(data, 4) == transaction && U32(data, 0) == 1 {
          var scanned := ScanPeers(Received(data) + [0]);
          KeepPromise(if scanned.Some? then scanned.value else beyond);
        } else {
          phase := AnnounceDelay;
        }
      case ReadFailed =>
        if phase == AwaitConnect { DoTryConnect(); } else { DoTryAnnounce(); }
      case DelayOver =>
        if phase == ConnectDelay { DoTryConnect(); } else { DoTryAnnounce(); }
      case Disconnected => Disconnect();
    }
  }
}
