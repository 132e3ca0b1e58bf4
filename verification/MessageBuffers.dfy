/** The buffers that peer messages are written to and read from, on hosts of either byte order,
    and the functions of `PeerClient` that use them. */
module MessageBuffers {
  import opened Common
  import opened Pieces
  import opened Messages

  function Reversed(s: seq<byte>): seq<byte> {
    seq(|s|, i requires 0 <= i < |s| => s[|s| - 1 - i])
  }

  lemma ReversedTwice(s: seq<byte>)
    ensures Reversed(Reversed(s)) == s
  {
  }

  /** A number in the memory of the host. */
  function InMemory(v: nat, width: nat, little: bool): seq<byte> {
    if little then Reversed(Big(v, width)) else Big(v, width)
  }

  /** `endian_changer` on the bytes of a value. */
  method ChangeEndian(source: seq<byte>) returns (dest: seq<byte>)
    ensures dest == Reversed(source)
  {
    dest := [];
    for k := 0 to |source|
      invariant |dest| == k
      invariant forall i :: 0 <= i < k ==> dest[i] == source[|source| - 1 - i]
    {
      dest := dest + [source[|source| - k - 1]];
    }
  }

  class SendingPeerMessage {
    var data: seq<byte>
    const little: bool

    constructor (little: bool)
      ensures this.little == little && data == [0, 0, 0, 0]
    {
      this.little, data := little, [0, 0, 0, 0];
    }

    /** `<<`: what is appended does not depend on the host. */
    method Put(v: nat, width: nat)
      modifies this`data
      ensures data == old(data) + Big(v, width)
    {
      var bytes := InMemory(v, width, little);
      if little {
        ReversedTwice(Big(v, width));
        bytes := ChangeEndian(bytes);
      }
      CopyFrom(bytes);
    }

    method CopyFrom(bytes: seq<byte>)
      modifies this`data
      ensures data == old(data) + bytes
    {
      data := data + bytes;
    }

    method EncodeHeader()
      requires HEADER_LENGTH <= |data| < TWO_TO_THE_32 + HEADER_LENGTH
      modifies this`data
      ensures data == Big(|old(data)| - HEADER_LENGTH, HEADER_LENGTH) + old(data)[HEADER_LENGTH..]
    {
      var bodySize: nat := |data| - HEADER_LENGTH;
      var bytes := InMemory(bodySize, HEADER_LENGTH, little);
      if little {
        ReversedTwice(Big(bodySize, HEADER_LENGTH));
        bytes := ChangeEndian(bytes);
      }
      data := bytes + data[HEADER_LENGTH..];
    }
  }

  class ReceivingMessage {
    var arr: seq<byte>
    var inpPos: nat
    const little: bool

    constructor (arr: seq<byte>, little: bool)
      ensures this.arr == arr && inpPos == 0 && this.little == little
    {
      this.arr, inpPos, this.little := arr, 0, little;
    }

    /** The first byte of a peer message is its type. */
    method SetBuffer(data: seq<byte>)
      modifies this`arr, this`inpPos
      ensures arr == data && inpPos == 1
    {
      arr, inpPos := data, 1;
    }

    /** `>>` */
    method Get(width: nat) returns (v: nat)
      requires inpPos + width <= |arr|
      modifies this`inpPos
      ensures v == Value(arr[old(inpPos)..old(inpPos) + width]) && inpPos == old(inpPos) + width
    {
      var bytes := arr[inpPos..inpPos + width];
      inpPos := inpPos + width;
      var native := bytes;
      if little {
        native := ChangeEndian(bytes);
        ReversedTwice(bytes);
      }
      v := Value(if little then Reversed(native) else native);
    }
  }

  lemma Flatten(h: seq<byte>, a: seq<byte>, b: seq<byte>, c: seq<byte>, d: seq<byte>)
    ensures h + a + b == h + (a + b)
    ensures h + a + b + c + d == h + (a + (b + (c + d)))
  {
    assert h + a + b + c + d == h + (a + b + c + d);
  }

  /** The `send_` functions. */
  method WriteBody(msg: SendingPeerMessage, m: Message)
    modifies msg`data
    ensures msg.data == old(msg.data) + Body(m)
  {
    hide Big;
    var h := msg.data;
    match m {
      case Choke => msg.CopyFrom([0]);
      case Unchoke => msg.CopyFrom([1]);
      case Interested => msg.CopyFrom([2]);
      case NotInterested => msg.CopyFrom([3]);
      case Have(index) =>
        msg.CopyFrom([4]);
        msg.Put(index, 4);
        Flatten(h, [4], Big(index, 4), [], []);
      case Bitfield(bits) =>
        msg.CopyFrom([5]);
        msg.CopyFrom(bits);
        Flatten(h, [5], bits, [], []);
      case Request(index, begin, length) => WriteThree(msg, 6, index, begin, length);
      case PieceBlock(index, begin, data) =>
        msg.CopyFrom([7]);
        msg.Put(index, 4);
        msg.Put(begin, 4);
        msg.CopyFrom(data);
        Flatten(h, [7], Big(index, 4), Big(begin, 4), data);
      case Cancel(index, begin, length) => WriteThree(msg, 8, index, begin, length);
      case Port(port) =>
        msg.CopyFrom([9]);
        msg.Put(port, 8);
        Flatten(h, [9], Big(port, 8), [], []);
    }
  }

  method WriteThree(msg: SendingPeerMessage, kind: byte, a: nat, b: nat, c: nat)
    modifies msg`data
    ensures msg.data == old(msg.data) + ([kind] + (Big(a, 4) + (Big(b, 4) + Big(c, 4))))
  {
    hide Big;
    msg.CopyFrom([kind]);
    msg.Put(a, 4);
    msg.Put(b, 4);
    msg.Put(c, 4);
    Flatten(old(msg.data), [kind], Big(a, 4), Big(b, 4), Big(c, 4));
  }

  /** A message as `send_msg` sends it. */
  method SendMessage(m: Message, little: bool) returns (bytes: seq<byte>)
    requires Fits(m)
    ensures bytes == Frame(Sent(m))
  {
    hide Big, Body, Fits;
    BodyFits(m);
    var msg := new SendingPeerMessage(little);
    WriteBody(msg, m);
    assert ([0, 0, 0, 0] + Body(m))[HEADER_LENGTH..] == Body(m);
    msg.EncodeHeader();
    bytes := msg.data;
  }

  method SendKeepAlive(little: bool) returns (bytes: seq<byte>)
    ensures bytes == Frame(KeepAlive)
  {
    hide Big;
    var msg := new SendingPeerMessage(little);
    msg.EncodeHeader();
    assert msg.data == Big(0, HEADER_LENGTH) + [];
    bytes := msg.data;
  }

  /** `handle_response`, as far as it takes a message apart. */
  method HandleResponse(body: seq<byte>, little: bool) returns (r: Response)
    requires body != []
    ensures r == Decode(body)
  {
    hide Value;
    var payload := new ReceivingMessage([], little);
    payload.SetBuffer(body);
    var kind, size := body[0], |body|;
    if kind <= 3 {
      if size != 1 {
        return Refused;
      }
      return Understood(if kind == 0 then Choke else if kind == 1 then Unchoke
                        else if kind == 2 then Interested else NotInterested);
    } else if kind == 4 {
      if size != 5 {
        return Refused;
      }
      var index := payload.Get(4);
      return Understood(Have(index));
    } else if kind == 5 {
      return Understood(Bitfield(body[1..]));
    } else if kind == 6 || kind == 8 {
      if size != 13 {
        return Refused;
      }
      var index := payload.Get(4);
      var begin := payload.Get(4);
      var length := payload.Get(4);
      return Understood(if kind == 6 then Request(index, begin, length) else Cancel(index, begin, length));
    } else if kind == 7 {
      if size < 9 {
        return Refused;
      }
      var index := payload.Get(4);
      var begin := payload.Get(4);
      return Understood(PieceBlock(index, begin, body[9..]));
    } else if kind == 9 {
      if size != 3 {
        return Refused;
      }
      var port := payload.Get(2);
      return Understood(Port(port));
    } else {
      return Unknown;
    }
  }

  /** `do_read_header` and `do_read_body`, which start each other, on the bytes that arrive. */
  method ReadMessages(x: seq<byte>, little: bool) returns (reading: Reading)
    ensures reading == Read(x)
  {
    hide Value, Decode;
    var left, received := x, [];
    NothingReceived(Read(x));
    while |left| >= HEADER_LENGTH
      invariant Read(x) == Received(received, Read(left))
      decreases |left|
    {
      var header := new ReceivingMessage(left[..HEADER_LENGTH], little);
      var size := header.Get(HEADER_LENGTH);
      assert left[..HEADER_LENGTH][0..HEADER_LENGTH] == left[..HEADER_LENGTH];
      NothingMore(received);
      if size == 0 {
        return Reading(received, Silent);
      }
      var after := left[HEADER_LENGTH..];
      if |after| < size {
        return Reading(received, Waiting);
      }
      var response := HandleResponse(after[..size], little);
      if response.Refused? {
        return Reading(received, Disconnected);
      }
      OneMore(received, response, Read(after[size..]));
      received := received + [response];
      left := after[size..];
    }
    NothingMore(received);
    return Reading(received, Waiting);
  }

  function Received(before: seq<Response>, reading: Reading): Reading {
    reading.(received := before + reading.received)
  }

  lemma NothingReceived(reading: Reading)
    ensures Received([], reading) == reading
  {
    assert [] + reading.received == reading.received;
  }

  lemma NothingMore(before: seq<Response>)
    ensures before + [] == before
  {
  }

  lemma OneMore(before: seq<Response>, r: Response, reading: Reading)
    ensures Received(before, Prepend(r, reading)) == Received(before + [r], reading)
  {
    assert before + ([r] + reading.received) == before + [r] + reading.received;
  }
}
