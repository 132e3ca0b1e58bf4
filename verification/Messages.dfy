/** Peer messages (BEP 3, section "peer messages"): byte order, framing, and the reading loop. */
module Messages {
  import opened Common
  import opened Pieces

  // ----- numbers in network byte order

  function Pow256(n: nat): nat {
    if n == 0 then 1 else 256 * Pow256(n - 1)
  }

  /** The last n bytes of a number, most significant first. */
  function Big(v: nat, n: nat): (r: seq<byte>)
    ensures |r| == n
  {
    if n == 0 then [] else Big(v / 256, n - 1) + [(v % 256) as byte]
  }

  function Value(bytes: seq<byte>): nat {
    if bytes == [] then 0 else 256 * Value(bytes[..|bytes| - 1]) + bytes[|bytes| - 1] as nat
  }

  lemma {:induction false} ValueOfBig(v: nat, n: nat)
    requires v < Pow256(n)
    ensures Value(Big(v, n)) == v
  {
    if n > 0 {
      ValueOfBig(v / 256, n - 1);
      var low := [(v % 256) as byte];
      assert (Big(v / 256, n - 1) + low)[..n - 1] == Big(v / 256, n - 1);
    }
  }

  // ----- messages

  const HEADER_LENGTH: nat := 4

  datatype Message =
    | Choke
    | Unchoke
    | Interested
    | NotInterested
    | Have(index: nat)
    | Bitfield(bytes: seq<byte>)
    | Request(index: nat, begin: nat, length: nat)
    | PieceBlock(index: nat, begin: nat, data: seq<byte>)
    | Cancel(index: nat, begin: nat, length: nat)
    | Port(port: nat)

  predicate Fits(m: Message) {
    match m
    case Have(index) => index < TWO_TO_THE_32
    case Bitfield(bytes) => |bytes| + 1 < TWO_TO_THE_32
    case Request(index, begin, length) => index < TWO_TO_THE_32 && begin < TWO_TO_THE_32 && length < TWO_TO_THE_32
    case PieceBlock(index, begin, data) =>
      index < TWO_TO_THE_32 && begin < TWO_TO_THE_32 && |data| + 9 < TWO_TO_THE_32
    case Cancel(index, begin, length) => index < TWO_TO_THE_32 && begin < TWO_TO_THE_32 && length < TWO_TO_THE_32
    case _ => true
  }

  /** What the `send_` functions put after the header; a port goes out as a `size_t`. */
  function Body(m: Message): (r: seq<byte>)
    ensures r != []
  {
    match m
    case Choke => [0]
    case Unchoke => [1]
    case Interested => [2]
    case NotInterested => [3]
    case Have(index) => [4] + Big(index, 4)
    case Bitfield(bytes) => [5] + bytes
    case Request(index, begin, length) => [6] + (Big(index, 4) + (Big(begin, 4) + Big(length, 4)))
    case PieceBlock(index, begin, data) => [7] + (Big(index, 4) + (Big(begin, 4) + data))
    case Cancel(index, begin, length) => [8] + (Big(index, 4) + (Big(begin, 4) + Big(length, 4)))
    case Port(port) => [9] + Big(port, 8)
  }

  datatype Sent = KeepAlive | Sent(message: Message)

  function Frame(sent: Sent): seq<byte> {
    match sent
    case KeepAlive => Big(0, HEADER_LENGTH)
    case Sent(m) => Big(|Body(m)|, HEADER_LENGTH) + Body(m)
  }

  function Stream(messages: seq<Sent>): seq<byte> {
    if messages == [] then [] else Frame(messages[0]) + Stream(messages[1..])
  }

  // ----- reading

  /** What `handle_response` makes of a body. */
  datatype Response = Understood(message: Message) | Unknown | Refused

  function Decode(body: seq<byte>): Response
    requires body != []
  {
    var kind, size := body[0], |body|;
    if kind <= 3 then
      if size != 1 then Refused
      else
        Understood(if kind == 0 then Choke else if kind == 1 then Unchoke
                   else if kind == 2 then Interested else NotInterested)
    else if kind == 4 then
      if size != 5 then Refused else Understood(Have(Value(body[1..5])))
    else if kind == 5 then Understood(Bitfield(body[1..]))
    else if kind == 6 then
      if size != 13 then Refused
      else Understood(Request(Value(body[1..5]), Value(body[5..9]), Value(body[9..13])))
    else if kind == 7 then
      if size < 9 then Refused else Understood(PieceBlock(Value(body[1..5]), Value(body[5..9]), body[9..]))
    else if kind == 8 then
      if size != 13 then Refused
      else Understood(Cancel(Value(body[1..5]), Value(body[5..9]), Value(body[9..13])))
    else if kind == 9 then
      if size != 3 then Refused else Understood(Port(Value(body[1..3])))
    else Unknown
  }

  /** After a keep-alive nothing is read any more; a refused body ends the connection. */
  datatype Ending = Waiting | Silent | Disconnected

  datatype Reading = Reading(received: seq<Response>, ending: Ending)

  function Prepend(r: Response, reading: Reading): Reading {
    reading.(received := [r] + reading.received)
  }

  function Read(x: seq<byte>): Reading {
    if |x| < HEADER_LENGTH then Reading([], Waiting)
    else
      var size := Value(x[..HEADER_LENGTH]);
      if size == 0 then Reading([], Silent)
      else if |x| - HEADER_LENGTH < size then Reading([], Waiting)
      else
        var response := Decode(x[HEADER_LENGTH..][..size]);
        if response.Refused? then Reading([], Disconnected)
        else Prepend(response, Read(x[HEADER_LENGTH..][size..]))
  }

  // ----- what was sent is what is read

  lemma FourBytes(v: nat)
    requires v < TWO_TO_THE_32
    ensures Value(Big(v, 4)) == v
  {
    assert Pow256(2) == 256 * Pow256(1) == 65536;
    assert Pow256(4) == 256 * Pow256(3) == 256 * 256 * Pow256(2);
    ValueOfBig(v, 4);
  }

  lemma Fields(kind: byte, a: seq<byte>, b: seq<byte>, c: seq<byte>)
    requires |a| == 4 && |b| == 4
    ensures var body := [kind] + (a + (b + c));
      body[0] == kind && |body| == 9 + |c| && body[1..5] == a && body[5..9] == b && body[9..] == c
      && (|c| == 4 ==> body[9..13] == c)
  {
  }

  /** Every message but one is understood as it was sent: a port is not, whatever its number. */
  lemma DecodeBody(m: Message)
    requires Fits(m)
    ensures Decode(Body(m)) == if m.Port? then Refused else Understood(m)
  {
    hide Value;
    match m
    case Have(index) =>
      FourBytes(index);
      assert Body(m)[1..5] == Big(index, 4);
    case Bitfield(bytes) =>
      assert Body(m)[1..] == bytes;
    case Request(index, begin, length) =>
      Fields(6, Big(index, 4), Big(begin, 4), Big(length, 4));
      FourBytes(index);
      FourBytes(begin);
      FourBytes(length);
    case PieceBlock(index, begin, data) =>
      Fields(7, Big(index, 4), Big(begin, 4), data);
      FourBytes(index);
      FourBytes(begin);
    case Cancel(index, begin, length) =>
      Fields(8, Big(index, 4), Big(begin, 4), Big(length, 4));
      FourBytes(index);
      FourBytes(begin);
      FourBytes(length);
    case _ =>
  }

  predicate Sendable(messages: seq<Sent>) {
    forall i :: 0 <= i < |messages| && messages[i].Sent? ==> Fits(messages[i].message)
  }

  /** What the other side makes of a sequence of messages. */
  function Expected(messages: seq<Sent>): Reading {
    if messages == [] then Reading([], Waiting)
    else if messages[0].KeepAlive? then Reading([], Silent)
    else if messages[0].message.Port? then Reading([], Disconnected)
    else Prepend(Understood(messages[0].message), Expected(messages[1..]))
  }

  lemma BodyFits(m: Message)
    requires Fits(m)
    ensures |Body(m)| < TWO_TO_THE_32
  {
  }

  lemma FrameSplits(head: seq<byte>, body: seq<byte>, rest: seq<byte>)
    requires |head| == HEADER_LENGTH
    ensures var x := head + body + rest;
      && |x| == HEADER_LENGTH + |body| + |rest| && x[..HEADER_LENGTH] == head
      && x[HEADER_LENGTH..][..|body|] == body && x[HEADER_LENGTH..][|body|..] == rest
  {
    var x := head + body + rest;
    assert x[HEADER_LENGTH..] == body + rest;
  }

  /** Whatever a frame holds: it ends the connection if it is refused, and otherwise, understood or
      not, reading goes on behind it. */
  lemma AnyFrameIsRead(body: seq<byte>, rest: seq<byte>)
    requires 0 < |body| < TWO_TO_THE_32
    ensures Read(Big(|body|, HEADER_LENGTH) + body + rest) ==
            if Decode(body).Refused? then Reading([], Disconnected) else Prepend(Decode(body), Read(rest))
  {
    hide Value, Decode;
    FourBytes(|body|);
    FrameSplits(Big(|body|, HEADER_LENGTH), body, rest);
  }

  /** Concatenated frames are read one by one, up to the first keep-alive or port. */
  lemma {:induction false} StreamIsRead(messages: seq<Sent>)
    requires Sendable(messages)
    ensures Read(Stream(messages)) == Expected(messages)
  {
    hide Body, Fits, Value, Decode;
    if messages != [] {
      var rest := Stream(messages[1..]);
      if messages[0].KeepAlive? {
        FrameSplits(Big(0, HEADER_LENGTH), [], rest);
        FourBytes(0);
        assert Big(0, HEADER_LENGTH) + [] == Big(0, HEADER_LENGTH);
      } else {
        var m := messages[0].message;
        BodyFits(m);
        FourBytes(|Body(m)|);
        DecodeBody(m);
        SomeBody(m);
        FrameSplits(Big(|Body(m)|, HEADER_LENGTH), Body(m), rest);
        StreamIsRead(messages[1..]);
      }
    }
  }

  lemma SomeBody(m: Message)
    ensures Body(m) != []
  {
  }

  predicate Plain(messages: seq<Sent>) {
    forall i :: 0 <= i < |messages| ==> messages[i].Sent? && !messages[i].message.Port?
  }

  function Understandings(messages: seq<Sent>): seq<Response>
    requires Plain(messages)
  {
    seq(|messages|, i requires 0 <= i < |messages| => Understood(messages[i].message))
  }

  lemma {:induction false} ExpectedWhenPlain(messages: seq<Sent>)
    ensures if Plain(messages) then Expected(messages) == Reading(Understandings(messages), Waiting)
            else !Expected(messages).ending.Waiting?
  {
    if messages != [] && Plain(messages[..1]) {
      ExpectedWhenPlain(messages[1..]);
      assert messages[..1][0] == messages[0];
      assert messages == [messages[0]] + messages[1..];
      if Plain(messages[1..]) {
        assert Plain(messages);
        assert Understandings(messages) == [Understood(messages[0].message)] + Understandings(messages[1..]);
      }
    }
  }

  /** Every message arrives as it was sent, and the next can be read, exactly if there was no
      keep-alive and no port among them. */
  lemma {:induction false} StreamArrives(messages: seq<Sent>)
    requires Sendable(messages)
    ensures Read(Stream(messages)).ending.Waiting? <==> Plain(messages)
    ensures Plain(messages) ==> Read(Stream(messages)).received == Understandings(messages)
  {
    StreamIsRead(messages);
    ExpectedWhenPlain(messages);
  }

  /** Whatever part of the bytes has come, what was read from it is the beginning of what will
      have been read in the end. */
  lemma {:induction false} PartIsReadAlike(x: seq<byte>, y: seq<byte>)
    ensures Read(x).received <= Read(x + y).received
    ensures !Read(x).ending.Waiting? ==> Read(x + y) == Read(x)
  {
    hide Value, Decode;
    if |x| >= HEADER_LENGTH {
      var size := Value(x[..HEADER_LENGTH]);
      assert (x + y)[..HEADER_LENGTH] == x[..HEADER_LENGTH];
      if 0 < size <= |x| - HEADER_LENGTH {
        var a, b := x[HEADER_LENGTH..], (x + y)[HEADER_LENGTH..];
        assert b == a + y;
        assert b[..size] == a[..size] && b[size..] == a[size..] + y;
        PartIsReadAlike(a[size..], y);
      }
    }
  }
}
