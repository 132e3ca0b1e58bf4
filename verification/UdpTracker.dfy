/** The UDP tracker client (BEP 15) as the retry machine it is: every resolved endpoint is tried
    with at most 4 connect requests, every accepted connect with at most 3 announces. The
    outside world picks the events: replies of any content, short sends, errors, timeouts. */
module UdpTracker {
  import opened Common
  import opened Pieces

  const MAX_CONNECT_ATTEMPTS: nat := 4
  const MAX_ANNOUNCE_ATTEMPTS: nat := 3
  const ANNOUNCE_LENGTH: nat := 98

  /** What a read of an announce reply takes at most, and how many whole peers that holds. */
  const MTU: nat := 1500
  const MOST_PEERS: nat := 246

  datatype Peer = Peer(ip0: byte, ip1: byte, ip2: byte, ip3: byte, port0: byte, port1: byte)

  /** What the requester waits for. `Stopped` means that nothing is pending any more. */
  datatype Phase =
    | Resolving
    | ConnectSent | AwaitConnect | ConnectDelay
    | AnnounceSent | AwaitAnnounce | AnnounceDelay
    | Stopped

  datatype Outcome = Response(peers: seq<Peer>) | Exception

  /** `endpoints` are left, the current one included, of the `given` ones that were resolved;
      `promises` lists what the promise was set to, `silenced` that somebody else disconnected
      before it was set. */
  datatype State = State(
    phase: Phase,
    given: nat,
    endpoints: nat,
    connectAttempts: nat,
    announceAttempts: nat,
    isSet: bool,
    promises: seq<Outcome>,
    silenced: bool,
    connectSends: nat,
    announceSends: nat)

  /** `beyond` stands for the peers a scan finds that runs past the end of what was read. */
  datatype Event =
    | Resolved(endpoints: nat)
    | ResolveFailed
    | Sent(bytes: nat)
    | SendFailed
    | Reply(data: seq<byte>, beyond: seq<Peer>)
    | ReadFailed
    | DelayOver
    | Disconnected

  function Start(): State {
    State(Resolving, 0, 0, MAX_CONNECT_ATTEMPTS, MAX_ANNOUNCE_ATTEMPTS, false, [], false, 0, 0)
  }

  /** `operator>>` of a big-endian 32-bit number. */
  function U32(data: seq<byte>, at: nat): nat
    requires at + 4 <= |data|
  {
    ((data[at] as nat * 256 + data[at + 1] as nat) * 256 + data[at + 2] as nat) * 256 + data[at + 3] as nat
  }

  /** The compact peers from offset i on, up to the first record that starts with a zero byte;
      nothing if that runs past the end. */
  function Peers(data: seq<byte>, i: nat): Option<seq<Peer>>
    decreases |data| - i
  {
    if i >= |data| then None
    else if data[i] == 0 then Some([])
    else if i + 6 > |data| then None
    else
      var rest := Peers(data, i + 6);
      if rest.None? then None
      else
        Some([Peer(data[i], data[i + 1], data[i + 2], data[i + 3], data[i + 4], data[i + 5])] + rest.value)
  }

  function SetException(s: State): State {
    if s.isSet then s.(phase := Stopped)
    else s.(phase := Stopped, isSet := true, promises := s.promises + [Exception])
  }

  function SetResponse(s: State, peers: seq<Peer>): State {
    if s.isSet then s.(phase := Stopped)
    else if peers == [] then SetException(s)
    else s.(phase := Stopped, isSet := true, promises := s.promises + [Response(peers)])
  }

  /** `do_try_connect`, and `update_endpoint` when the attempts are used up. */
  function TryConnect(s: State): State {
    if s.connectAttempts > 0 then
      s.(phase := ConnectSent, connectAttempts := s.connectAttempts - 1, connectSends := s.connectSends + 1)
    else if s.endpoints <= 1 then SetException(s.(endpoints := 0, connectAttempts := MAX_CONNECT_ATTEMPTS))
    else
      s.(phase := ConnectSent, endpoints := s.endpoints - 1, connectAttempts := MAX_CONNECT_ATTEMPTS - 1,
         connectSends := s.connectSends + 1)
  }

  /** `do_try_announce`. */
  function TryAnnounce(s: State): State {
    if s.announceAttempts > 0 then
      s.(phase := AnnounceSent, announceAttempts := s.announceAttempts - 1, announceSends := s.announceSends + 1)
    else TryConnect(s.(announceAttempts := MAX_ANNOUNCE_ATTEMPTS))
  }

  predicate ConnectAccepted(data: seq<byte>, transaction: nat) {
    |data| >= 16 && U32(data, 4) == transaction && U32(data, 0) == 0
  }

  predicate AnnounceAccepted(data: seq<byte>, transaction: nat) {
    |data| >= 20 && U32(data, 4) == transaction && U32(data, 0) == 1
  }

  /** What is read of a datagram. */
  function Received(data: seq<byte>): seq<byte> {
    if |data| > MTU then data[..MTU] else data
  }

  /** The peers in what was read of an announce reply, which gets a terminating zero byte first;
      None if the scan runs past the end. */
  function Scanned(data: seq<byte>): Option<seq<Peer>> {
    Peers(Received(data) + [0], 20)
  }

  function ReplyPeers(data: seq<byte>, beyond: seq<Peer>): seq<Peer> {
    var peers := Scanned(data);
    if peers.Some? then peers.value else beyond
  }

  /** The event is one the requester is waiting for. */
  predicate Expected(s: State, e: Event) {
    match e
    case Resolved(n) => s.phase.Resolving? && n > 0
    case ResolveFailed => s.phase.Resolving?
    case Sent(_) => s.phase.ConnectSent? || s.phase.AnnounceSent?
    case SendFailed => s.phase.ConnectSent? || s.phase.AnnounceSent?
    case Reply(_, _) => s.phase.AwaitConnect? || s.phase.AwaitAnnounce?
    case ReadFailed => s.phase.AwaitConnect? || s.phase.AwaitAnnounce?
    case DelayOver => s.phase.ConnectDelay? || s.phase.AnnounceDelay?
    case Disconnected => true
  }

  /** One event. Disconnecting cancels a delay for good; a pending send or read still ends, with
      an error, and the machine goes on from there. */
  function Handle(s: State, e: Event, transaction: nat): State {
    if !Expected(s, e) then s
    else
      match e
      case Resolved(n) => TryConnect(s.(given := n, endpoints := n))
      case ResolveFailed => SetException(s)
      case Sent(bytes) =>
        if s.phase.ConnectSent? then
          if bytes < 16 then s.(phase := ConnectDelay, connectAttempts := 0) else s.(phase := AwaitConnect)
        else
          if bytes != ANNOUNCE_LENGTH then s.(phase := AnnounceDelay, announceAttempts := 0, connectAttempts := 0)
          else s.(phase := AwaitAnnounce)
      case SendFailed =>
        if s.phase.ConnectSent? then TryConnect(s.(connectAttempts := 0)) else TryAnnounce(s)
      case Reply(data, beyond) =>
        if s.phase.AwaitConnect? then
          if ConnectAccepted(data, transaction) then TryAnnounce(s) else s.(phase := ConnectDelay)
        else
          if AnnounceAccepted(data, transaction) then SetResponse(s, ReplyPeers(data, beyond))
          else s.(phase := AnnounceDelay)
      case ReadFailed => if s.phase.AwaitConnect? then TryConnect(s) else TryAnnounce(s)
      case DelayOver => if s.phase.ConnectDelay? then TryConnect(s) else TryAnnounce(s)
      case Disconnected =>
        s.(phase := if s.phase in {ConnectDelay, AnnounceDelay} then Stopped else s.phase,
           isSet := true, silenced := s.silenced || !s.isSet)
  }

  /** Announces that may follow before the next connect. */
  function AnnouncesLeft(s: State): nat {
    if s.phase in {ConnectSent, AwaitConnect} then MAX_ANNOUNCE_ATTEMPTS
    else if s.phase in {AnnounceSent, AwaitAnnounce, AnnounceDelay} then s.announceAttempts
    else 0
  }

  /** What was sent and what the attempts left still allow stay within 4 connects and 12
      announces an endpoint. */
  ghost predicate Budget(s: State, announcesLeft: nat) {
    && s.endpoints > 0
    && s.connectSends + 4 * (s.endpoints - 1) + s.connectAttempts <= 4 * s.given
    && s.announceSends + 12 * (s.endpoints - 1) + 3 * s.connectAttempts + announcesLeft <= 12 * s.given
  }

  /** The promise is set at most once, and that is when the flag is set, unless it was set by
      somebody else first. */
  ghost predicate PromiseOk(s: State) {
    && |s.promises| <= 1
    && (s.silenced ==> s.promises == [])
    && (s.isSet <==> s.promises != [] || s.silenced)
  }

  ghost predicate Inv(s: State) {
    && PromiseOk(s)
    && s.connectAttempts <= MAX_CONNECT_ATTEMPTS && s.announceAttempts <= MAX_ANNOUNCE_ATTEMPTS
    && match s.phase
       case Resolving =>
         && s.announceAttempts == MAX_ANNOUNCE_ATTEMPTS
         && s == Start().(isSet := s.isSet, promises := s.promises, silenced := s.silenced)
       case Stopped => s.isSet && s.connectSends <= 4 * s.given && s.announceSends <= 12 * s.given
       case _ =>
         && Budget(s, AnnouncesLeft(s))
         && (s.phase in {ConnectSent, AwaitConnect, ConnectDelay} ==> s.announceAttempts == MAX_ANNOUNCE_ATTEMPTS)
  }

  /** How many more events the machine can take before it stops: the number counts (endpoints,
      connect attempts, announce attempts, phase) down in this order. */
  function Measure(s: State): int {
    if s.phase.Stopped? then 0
    else
      48 * (s.endpoints - 1) + 12 * s.connectAttempts +
      match s.phase
      case ConnectSent => 11
      case AwaitConnect => 10
      case ConnectDelay => 1
      case AnnounceSent => 3 * s.announceAttempts + 3
      case AwaitAnnounce => 3 * s.announceAttempts + 2
      case AnnounceDelay => 3 * s.announceAttempts + 1
      case _ => 0
  }

  lemma TryConnectKeeps(s: State)
    requires PromiseOk(s) && Budget(s, 0) && s.connectAttempts <= MAX_CONNECT_ATTEMPTS
    requires s.announceAttempts == MAX_ANNOUNCE_ATTEMPTS
    ensures Inv(TryConnect(s))
    ensures 0 <= Measure(TryConnect(s)) <= 48 * (s.endpoints - 1) + 12 * s.connectAttempts
    ensures !TryConnect(s).phase.Resolving? && TryConnect(s).given == s.given
  {
    if s.connectAttempts > 0 {
      assert TryConnect(s).phase.ConnectSent?;
    } else if s.endpoints > 1 {
      assert TryConnect(s).phase.ConnectSent?;
    } else {
      assert TryConnect(s).phase.Stopped?;
    }
  }

  lemma TryAnnounceKeeps(s: State)
    requires PromiseOk(s) && Budget(s, s.announceAttempts)
    requires s.connectAttempts <= MAX_CONNECT_ATTEMPTS && s.announceAttempts <= MAX_ANNOUNCE_ATTEMPTS
    ensures Inv(TryAnnounce(s))
    ensures 0 <= Measure(TryAnnounce(s)) <= 48 * (s.endpoints - 1) + 12 * s.connectAttempts + 3 * s.announceAttempts
    ensures !TryAnnounce(s).phase.Resolving? && TryAnnounce(s).given == s.given
  {
    if s.announceAttempts == 0 {
      TryConnectKeeps(s.(announceAttempts := MAX_ANNOUNCE_ATTEMPTS));
    }
  }

  /** t is a good state after an event of s: in order, nearer to the end, and started once. */
  ghost predicate Advances(s: State, t: State, strictly: bool) {
    && Inv(t)
    && (!s.phase.Resolving? ==> !t.phase.Resolving? && t.given == s.given && 0 <= Measure(t) <= Measure(s))
    && (!s.phase.Resolving? && strictly ==> Measure(t) < Measure(s))
    && (s.phase.Resolving? && !t.phase.Resolving? ==> 0 <= Measure(t) <= 48 * t.given)
    && (s.phase.Resolving? && t.phase.Resolving? ==> !strictly)
  }

  lemma NothingAdvances(s: State)
    requires Inv(s)
    ensures Advances(s, s, false)
  {
  }

  lemma ResolvedAdvances(s: State, e: Event, transaction: nat)
    requires Inv(s) && (e.Resolved? || e.ResolveFailed?) && Expected(s, e)
    ensures Advances(s, Handle(s, e, transaction), true)
  {
    if e.Resolved? {
      TryConnectKeeps(s.(given := e.endpoints, endpoints := e.endpoints));
    }
  }

  lemma SentAdvances(s: State, bytes: nat, transaction: nat)
    requires Inv(s) && Expected(s, Sent(bytes))
    ensures Advances(s, Handle(s, Sent(bytes), transaction), true)
  {
    hide TryConnect, TryAnnounce, SetResponse, SetException, ConnectAccepted, AnnounceAccepted, ReplyPeers;
  }

  lemma FailureAdvances(s: State, e: Event, transaction: nat)
    requires Inv(s) && (e.SendFailed? || e.ReadFailed? || e.DelayOver?) && Expected(s, e)
    ensures Advances(s, Handle(s, e, transaction), true)
  {
    hide TryConnect, TryAnnounce;
    if s.phase.ConnectSent? {
      TryConnectKeeps(s.(connectAttempts := 0));
    } else if s.phase in {AwaitConnect, ConnectDelay} {
      TryConnectKeeps(s);
    } else {
      TryAnnounceKeeps(s);
    }
  }

  lemma ReplyAdvances(s: State, data: seq<byte>, beyond: seq<Peer>, transaction: nat)
    requires Inv(s) && Expected(s, Reply(data, beyond))
    ensures Advances(s, Handle(s, Reply(data, beyond), transaction), true)
  {
    hide ConnectAccepted, AnnounceAccepted, ReplyPeers, TryAnnounce, TryConnect;
    if s.phase.AwaitConnect? {
      TryAnnounceKeeps(s);
    }
  }

  lemma DisconnectAdvances(s: State, transaction: nat)
    requires Inv(s)
    ensures Advances(s, Handle(s, Disconnected, transaction), false)
  {
    hide TryConnect, TryAnnounce, SetResponse, SetException, ConnectAccepted, AnnounceAccepted, ReplyPeers;
  }

  /** Every event the machine waits for keeps the invariant and counts the measure down. */
  lemma HandleKeeps(s: State, e: Event, transaction: nat)
    requires Inv(s)
    ensures Advances(s, Handle(s, e, transaction), Expected(s, e) && !e.Disconnected?)
  {
    if !Expected(s, e) {
      NothingAdvances(s);
    } else {
      hide Inv, Handle, Advances, Expected;
      match e
      case Resolved(_) => ResolvedAdvances(s, e, transaction);
      case ResolveFailed => ResolvedAdvances(s, e, transaction);
      case Sent(bytes) => SentAdvances(s, bytes, transaction);
      case SendFailed => FailureAdvances(s, e, transaction);
      case Reply(data, beyond) => ReplyAdvances(s, data, beyond, transaction);
      case ReadFailed => FailureAdvances(s, e, transaction);
      case DelayOver => FailureAdvances(s, e, transaction);
      case Disconnected => DisconnectAdvances(s, transaction);
    }
  }

  /** The state after the events, from s on. */
  function After(s: State, events: seq<Event>, transaction: nat): State
    decreases |events|
  {
    if events == [] then s else After(Handle(s, events[0], transaction), events[1..], transaction)
  }

  /** The state after one `Connect` and the events. */
  function Run(events: seq<Event>, transaction: nat): State {
    After(Start(), events, transaction)
  }

  /** How many of the events the machine was waiting for, external disconnects not counted. */
  function Progress(s: State, events: seq<Event>, transaction: nat): nat
    decreases |events|
  {
    if events == [] then 0
    else
      (if Expected(s, events[0]) && !events[0].Disconnected? then 1 else 0) +
      Progress(Handle(s, events[0], transaction), events[1..], transaction)
  }

  lemma {:induction false} AfterKeeps(s: State, events: seq<Event>, transaction: nat)
    requires Inv(s)
    ensures var t := After(s, events, transaction);
            && Inv(t)
            && (!s.phase.Resolving? ==>
                  t.given == s.given && 0 <= Measure(t) && Progress(s, events, transaction) + Measure(t) <= Measure(s))
            && (s.phase.Resolving? ==> Progress(s, events, transaction) <= 48 * t.given + 1)
    decreases |events|
  {
    hide Inv, Handle, Measure, Expected;
    if events != [] {
      HandleKeeps(s, events[0], transaction);
      AfterKeeps(Handle(s, events[0], transaction), events[1..], transaction);
    } else if !s.phase.Resolving? {
      HandleKeeps(s, Disconnected, transaction);
    }
  }

  lemma StartKeeps()
    ensures Inv(Start()) && Start().phase.Resolving?
  {
  }

  /** Whatever the replies, errors, short sends and delays: at most 4 connects and 12 announces
      are sent for each of the resolved endpoints, and after at most 48 events an endpoint (and
      one) nothing is pending any more. */
  lemma SendsAreBounded(events: seq<Event>, transaction: nat)
    ensures var s := Run(events, transaction);
            && s.connectSends <= 4 * s.given && s.announceSends <= 12 * s.given
            && Progress(Start(), events, transaction) <= 48 * s.given + 1
  {
    StartKeeps();
    AfterKeeps(Start(), events, transaction);
  }

  /** Until it stops, the machine waits for something. */
  lemma NeverStuck(s: State)
    ensures s.phase.Stopped? <==> forall e :: Expected(s, e) ==> e.Disconnected?
  {
    if !s.phase.Stopped? {
      assert Expected(s, ResolveFailed) || Expected(s, SendFailed) || Expected(s, ReadFailed) || Expected(s, DelayOver);
    }
  }

  lemma {:induction false} SilencedByDisconnect(s: State, events: seq<Event>, transaction: nat)
    requires !s.silenced && After(s, events, transaction).silenced
    ensures Disconnected in events
    decreases |events|
  {
    if events != [] && events[0] != Disconnected {
      assert !Handle(s, events[0], transaction).silenced;
      SilencedByDisconnect(Handle(s, events[0], transaction), events[1..], transaction);
    }
  }

  /** The promise is never set twice; once the machine has stopped it was set exactly once,
      unless and only unless somebody disconnected it before. */
  lemma PromiseSetOnce(events: seq<Event>, transaction: nat)
    ensures var s := Run(events, transaction);
            && |s.promises| <= 1
            && (s.phase.Stopped? ==> (|s.promises| == 1 <==> !s.silenced))
            && (Disconnected !in events ==> !s.silenced)
  {
    StartKeeps();
    AfterKeeps(Start(), events, transaction);
    if Run(events, transaction).silenced {
      SilencedByDisconnect(Start(), events, transaction);
    }
  }

  /** Four bytes, most significant first. */
  function BigEndian(x: nat): (r: seq<byte>)
    requires x < TWO_TO_THE_32
    ensures |r| == 4 && U32(r, 0) == x
  {
    var a := x / 256;
    var b := a / 256;
    var c := b / 256;
    assert x == a * 256 + x % 256 && a == b * 256 + a % 256 && b == c * 256 + b % 256 && c < 256;
    [c as byte, (b % 256) as byte, (a % 256) as byte, (x % 256) as byte]
  }

  lemma U32Inside(front: seq<byte>, word: seq<byte>, back: seq<byte>)
    requires |word| == 4
    ensures U32(front + word + back, |front|) == U32(word, 0)
  {
    var data := front + word + back;
    var i := |front|;
    assert data[i] == word[0] && data[i + 1] == word[1] && data[i + 2] == word[2] && data[i + 3] == word[3];
  }

  function ConnectReply(transaction: nat): (r: seq<byte>)
    requires transaction < TWO_TO_THE_32
    ensures ConnectAccepted(r, transaction)
  {
    var back := [0, 0, 0, 0, 0, 0, 0, 0];
    U32Inside([0, 0, 0, 0], BigEndian(transaction), back);
    [0, 0, 0, 0] + BigEndian(transaction) + back
  }

  lemma Next(s: State, e: Event, rest: seq<Event>, transaction: nat)
    ensures After(s, [e] + rest, transaction) == After(Handle(s, e, transaction), rest, transaction)
  {
    assert ([e] + rest)[1..] == rest;
  }

  /** One connect that is accepted and three announces that are not answered. */
  function WorstRound(rest: seq<Event>, transaction: nat): seq<Event>
    requires transaction < TWO_TO_THE_32
  {
    [Sent(16)] + ([Reply(ConnectReply(transaction), [])] + Unanswered(Unanswered(Unanswered(rest))))
  }

  function Unanswered(rest: seq<Event>): seq<Event> {
    [Sent(ANNOUNCE_LENGTH)] + ([ReadFailed] + rest)
  }

  lemma UnansweredEffect(s: State, rest: seq<Event>, transaction: nat)
    requires s.phase.AnnounceSent?
    ensures After(s, Unanswered(rest), transaction) == After(TryAnnounce(s), rest, transaction)
  {
    Next(s, Sent(ANNOUNCE_LENGTH), [ReadFailed] + rest, transaction);
    Next(s.(phase := AwaitAnnounce), ReadFailed, rest, transaction);
  }

  lemma {:induction false} RoundEffect(s: State, rest: seq<Event>, transaction: nat)
    requires transaction < TWO_TO_THE_32
    requires s.phase.ConnectSent? && s.announceAttempts == MAX_ANNOUNCE_ATTEMPTS
    ensures After(s, WorstRound(rest, transaction), transaction) ==
            After(TryConnect(s.(announceSends := s.announceSends + 3)), rest, transaction)
  {
    var two := Unanswered(Unanswered(rest));
    var waiting := s.(phase := AwaitConnect);
    assert Handle(s, Sent(16), transaction) == waiting;
    assert Handle(waiting, Reply(ConnectReply(transaction), []), transaction) == TryAnnounce(waiting);
    var t := TryAnnounce(waiting);
    var t' := TryAnnounce(t);
    var t'' := TryAnnounce(t');
    assert t.phase == t'.phase == t''.phase == AnnounceSent;
    assert TryAnnounce(t'') == TryConnect(s.(announceSends := s.announceSends + 3));
    hide After, ConnectReply, ConnectAccepted, Handle, TryAnnounce, TryConnect, Unanswered;
    Next(s, Sent(16), [Reply(ConnectReply(transaction), [])] + Unanswered(two), transaction);
    Next(waiting, Reply(ConnectReply(transaction), []), Unanswered(two), transaction);
    UnansweredEffect(t, two, transaction);
    UnansweredEffect(t', Unanswered(rest), transaction);
    UnansweredEffect(t'', rest, transaction);
  }

  function Rounds(n: nat, transaction: nat): seq<Event>
    requires transaction < TWO_TO_THE_32
  {
    if n == 0 then [] else WorstRound(Rounds(n - 1, transaction), transaction)
  }

  /** n accepted connects, no announce answered. */
  lemma {:induction false} RoundsEffect(s: State, n: nat, transaction: nat)
    requires transaction < TWO_TO_THE_32
    requires s.phase.ConnectSent? && s.announceAttempts == MAX_ANNOUNCE_ATTEMPTS && s.endpoints > 0
    requires n == 4 * (s.endpoints - 1) + s.connectAttempts + 1 && s.connectAttempts < 4
    ensures var t := After(s, Rounds(n, transaction), transaction);
            t.phase.Stopped? && t.given == s.given &&
            t.connectSends == s.connectSends + n - 1 && t.announceSends == s.announceSends + 3 * n
    decreases n
  {
    var t := TryConnect(s.(announceSends := s.announceSends + 3));
    RoundEffect(s, Rounds(n - 1, transaction), transaction);
    if n > 1 {
      RoundsEffect(t, n - 1, transaction);
    } else {
      assert t.phase.Stopped?;
    }
  }

  /** The bounds are exact: for every number of endpoints some run sends that much. */
  lemma BoundsAreReached(endpoints: nat, transaction: nat) returns (events: seq<Event>)
    requires endpoints > 0 && transaction < TWO_TO_THE_32
    ensures var s := Run(events, transaction);
            && s.phase.Stopped? && s.given == endpoints
            && s.connectSends == 4 * endpoints && s.announceSends == 12 * endpoints
  {
    events := [Resolved(endpoints)] + Rounds(4 * endpoints, transaction);
    Next(Start(), Resolved(endpoints), Rounds(4 * endpoints, transaction), transaction);
    RoundsEffect(Handle(Start(), Resolved(endpoints), transaction), 4 * endpoints, transaction);
  }

  /** Compact peers as BEP 15 has them in an announce reply. */
  function Compact(peers: seq<Peer>): seq<byte> {
    if peers == [] then []
    else
      Record(peers[0]) + Compact(peers[1..])
  }

  /** The peers before the first whose address starts with 0. */
  function Cut(peers: seq<Peer>): (r: seq<Peer>)
    ensures r <= peers
    ensures r == peers <==> forall i :: 0 <= i < |peers| ==> peers[i].ip0 != 0
  {
    if peers == [] || peers[0].ip0 == 0 then [] else [peers[0]] + Cut(peers[1..])
  }

  /** What a scan finds that comes to `rest` after the peers. */
  function Joined(peers: seq<Peer>, rest: Option<seq<Peer>>): Option<seq<Peer>> {
    if Cut(peers) != peers then Some(Cut(peers))
    else if rest.None? then None
    else Some(peers + rest.value)
  }

  function Record(p: Peer): (r: seq<byte>)
    ensures |r| == 6
  {
    [p.ip0, p.ip1, p.ip2, p.ip3, p.port0, p.port1]
  }

  lemma ScanRecord(front: seq<byte>, p: Peer, back: seq<byte>)
    ensures var data := front + Record(p) + back;
      Peers(data, |front|) == Joined([p], Peers(data, |front| + 6))
  {
    var data := front + Record(p) + back;
    forall i | 0 <= i < 6
      ensures data[|front| + i] == Record(p)[i]
    {
    }
    assert Cut([p]) == if p.ip0 == 0 then [] else [p];
  }

  lemma {:induction false} ScanCompact(front: seq<byte>, peers: seq<Peer>, back: seq<byte>)
    ensures var data := front + Compact(peers) + back;
      Peers(data, |front|) == Joined(peers, Peers(data, |front| + 6 * |peers|))
    decreases |peers|
  {
    hide Peers, Record;
    var data := front + Compact(peers) + back;
    if peers == [] {
      var rest := Peers(data, |front|);
      assert rest.Some? ==> [] + rest.value == rest.value;
    } else {
      var p := peers[0];
      assert data == front + Record(p) + (Compact(peers[1..]) + back);
      assert data == (front + Record(p)) + Compact(peers[1..]) + back;
      ScanRecord(front, p, Compact(peers[1..]) + back);
      ScanCompact(front + Record(p), peers[1..], back);
      JoinedTwice(p, peers[1..], Peers(data, |front| + 6 * |peers|));
    }
  }

  lemma JoinedTwice(p: Peer, peers: seq<Peer>, rest: Option<seq<Peer>>)
    ensures Joined([p], Joined(peers, rest)) == Joined([p] + peers, rest)
  {
    assert ([p] + peers)[1..] == peers;
    assert Cut([p]) == if p.ip0 == 0 then [] else [p];
    assert rest.Some? ==> ([p] + peers) + rest.value == [p] + (peers + rest.value);
  }

  lemma {:induction false} CompactOfSum(a: seq<Peer>, b: seq<Peer>)
    ensures Compact(a + b) == Compact(a) + Compact(b)
    ensures |Compact(a)| == 6 * |a|
  {
    if a == [] {
      assert a + b == b;
    } else {
      assert (a + b)[0] == a[0] && (a + b)[1..] == a[1..] + b;
      CompactOfSum(a[1..], b);
    }
  }

  lemma {:induction false} CutOfSum(a: seq<Peer>, b: seq<Peer>)
    ensures Cut(a + b) == if Cut(a) == a then a + Cut(b) else Cut(a)
  {
    if a == [] {
      assert a + b == b;
    } else {
      assert (a + b)[0] == a[0] && (a + b)[1..] == a[1..] + b && a == [a[0]] + a[1..];
      CutOfSum(a[1..], b);
    }
  }

  ghost predicate NoneStartsWithZero(peers: seq<Peer>) {
    forall i :: 0 <= i < |peers| ==> peers[i].ip0 != 0
  }

  lemma ScanShortReply(header: seq<byte>, peers: seq<Peer>)
    requires |header| == 20 && |peers| <= MOST_PEERS
    ensures Scanned(header + Compact(peers)) == Some(Cut(peers))
  {
    CompactOfSum(peers, []);
    ScanCompact(header, peers, [0]);
    assert peers + [] == peers;
  }

  /** The 247th record is cut after its fourth byte. */
  lemma ReadOfLongReply(header: seq<byte>, head: seq<Peer>, p: Peer, tail: seq<Peer>)
    requires |header| == 20 && |head| == MOST_PEERS
    ensures Received(header + Compact(head + ([p] + tail))) + [0] ==
            header + Compact(head) + [p.ip0, p.ip1, p.ip2, p.ip3, 0]
  {
    hide Compact;
    var (front, r) := (header + Compact(head), Record(p) + Compact(tail));
    CompactOfSum(head, [p] + tail);
    CompactOfOne(p, tail);
    Regroup(header, Compact(head), r);
    assert |front| == 1496 && (front + r)[..MTU] == front + r[..4];
    assert r[..4] == [p.ip0, p.ip1, p.ip2, p.ip3];
    assert [p.ip0, p.ip1, p.ip2, p.ip3] + [0] == [p.ip0, p.ip1, p.ip2, p.ip3, 0];
    Regroup(front, [p.ip0, p.ip1, p.ip2, p.ip3], [0]);
  }

  lemma CompactOfOne(p: Peer, tail: seq<Peer>)
    ensures Compact([p] + tail) == Record(p) + Compact(tail)
  {
    assert ([p] + tail)[1..] == tail;
  }

  lemma ScanLongReply(header: seq<byte>, peers: seq<Peer>)
    requires |header| == 20 && |peers| > MOST_PEERS
    ensures Scanned(header + Compact(peers)) ==
            if NoneStartsWithZero(peers[..MOST_PEERS + 1]) then None else Some(Cut(peers))
  {
    hide Compact, Received, Cut, Peers, NoneStartsWithZero;
    var (head, p, tail) := (peers[..MOST_PEERS], peers[MOST_PEERS], peers[MOST_PEERS + 1..]);
    var rest := [p.ip0, p.ip1, p.ip2, p.ip3, 0];
    assert peers == head + ([p] + tail) && peers[..MOST_PEERS + 1] == head + [p];
    CompactOfSum(head, []);
    ReadOfLongReply(header, head, p, tail);
    ScanCompact(header, head, rest);
    ScanOfPart(header + Compact(head), rest);
    CutOfLong(head, p, tail);
    assert head + [] == head;
  }

  lemma CutOfLong(head: seq<Peer>, p: Peer, tail: seq<Peer>)
    ensures Cut(head) == head <==> NoneStartsWithZero(head)
    ensures NoneStartsWithZero(head + [p]) <==> NoneStartsWithZero(head) && p.ip0 != 0
    ensures Cut(head) != head ==> Cut(head + ([p] + tail)) == Cut(head)
    ensures Cut(head) == head && p.ip0 == 0 ==> Cut(head + ([p] + tail)) == head
  {
    CutOfSum(head, [p] + tail);
    if p.ip0 == 0 {
      assert Cut([p] + tail) == [] && head + [] == head;
    }
    assert forall i :: 0 <= i < |head| ==> (head + [p])[i] == head[i];
    assert (head + [p])[|head|] == p;
  }

  lemma ScanOfPart(front: seq<byte>, rest: seq<byte>)
    requires |rest| == 5
    ensures Peers(front + rest, |front|) == if rest[0] == 0 then Some([]) else None
  {
  }

  /** What the peers of a well-formed announce reply are read as: those before the first address
      that starts with 0, unless none of the first 247 does. Then the scan runs past the end. */
  lemma ReplyScan(header: seq<byte>, peers: seq<Peer>)
    requires |header| == 20
    ensures var scanned := Scanned(header + Compact(peers));
      && (scanned == None <==> |peers| > MOST_PEERS && NoneStartsWithZero(peers[..MOST_PEERS + 1]))
      && (scanned.Some? ==> scanned.value == Cut(peers))
  {
    if |peers| <= MOST_PEERS {
      ScanShortReply(header, peers);
    } else {
      ScanLongReply(header, peers);
    }
  }

  /** Whatever lies behind the buffer, a well-formed announce reply gives back its peers: exactly
      if there are at most 246 of them and no address starts with 0. */
  lemma ReplyRoundTrip(header: seq<byte>, peers: seq<Peer>)
    requires |header| == 20
    ensures (forall beyond :: ReplyPeers(header + Compact(peers), beyond) == peers) <==>
            |peers| <= MOST_PEERS && NoneStartsWithZero(peers)
  {
    var reply := header + Compact(peers);
    ReplyScan(header, peers);
    if |peers| > MOST_PEERS {
      assert ReplyPeers(reply, []) != peers || Cut(peers) == peers;
    } else if !NoneStartsWithZero(peers) {
      assert ReplyPeers(reply, []) == Cut(peers);
    }
  }

  /** 247 equal peers are too many: what the scan finds is what lies behind the buffer. */
  lemma TooManyPeers(header: seq<byte>, beyond: seq<Peer>) returns (peers: seq<Peer>)
    requires |header| == 20
    ensures |peers| == 247 && NoneStartsWithZero(peers)
    ensures ReplyPeers(header + Compact(peers), beyond) == beyond
  {
    peers := seq(247, _ => Peer(10, 0, 0, 1, 26, 225));
    ReplyScan(header, peers);
  }
}
