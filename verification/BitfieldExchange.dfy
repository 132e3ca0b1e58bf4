/** A bitfield on its whole way: packed, framed, read from the stream and taken apart. */
module BitfieldExchange {
  import opened Common
  import opened Pieces
  import opened Bitfields
  import opened Messages
  import opened MessageBuffers

  /** The same bytes, as numbers and as bits. */
  function AsNumbers(bytes: seq<bv8>): (r: seq<byte>)
    ensures |r| == |bytes|
  {
    seq(|bytes|, i requires 0 <= i < |bytes| => bytes[i] as byte)
  }

  function AsBits(bytes: seq<byte>): (r: seq<bv8>)
    ensures |r| == |bytes|
  {
    seq(|bytes|, i requires 0 <= i < |bytes| => bytes[i] as bv8)
  }

  lemma ThereAndBack(bytes: seq<bv8>)
    ensures AsBits(AsNumbers(bytes)) == bytes
  {
  }

  lemma OneMessage(m: Message)
    requires Fits(m) && !m.Port?
    ensures Read(Frame(Sent(m))) == Reading([Understood(m)], Waiting)
  {
    var messages := [Sent(m)];
    StreamIsRead(messages);
    assert messages[1..] == [];
    assert Stream(messages) == Frame(Sent(m)) + [] == Frame(Sent(m));
    assert Expected([]) == Reading([], Waiting);
  }

  /** A blank neighbour of any byte order understands the message. It refuses it exactly if the
      count is rounded up by a byte or more; otherwise it learns exactly our bits, unless the
      conversion to `float` drops a byte with one of them. */
  method Exchange(bits: seq<bool>, behind: seq<bv8>, senderLittle: bool, receiverLittle: bool)
    returns (ok: bool, learned: seq<bool>)
    requires BytesToSend(|bits|) <= BlockCount(|bits|) + |behind| && BytesToSend(|bits|) + 1 < TWO_TO_THE_32
    ensures !ok <==> RoundedUp(|bits|) && |bits| % Ulp(|bits|) + 8 <= Ulp(|bits|)
    ensures learned == bits <==> ClearBehind(bits, if ok then BytesToSend(|bits|) else 0)
    ensures |bits| < 4 * FLOAT_EXACT ==> (learned == bits <==> !LastLost(bits))
  {
    hide BytesToSend, IsCast, Merged, Frame, Read, Learned, ClearBehind, AsBits, AsNumbers, LastLost, RoundedUp;
    var cast := GetCast(bits);
    CastLength(bits, cast);
    BitfieldSent(bits, cast, behind);
    var sent := (cast + behind)[..BytesToSend(|bits|)];
    var m := Message.Bitfield(AsNumbers(sent));
    NumbersLength(sent);
    var bytes := SendMessage(m, senderLittle);
    OneMessage(m);
    var reading := ReadMessages(bytes, receiverLittle);
    ThereAndBack(sent);
    var blank := seq(|bits|, _ => false);
    ok, learned := ReceiveBitfield(AsBits(reading.received[0].message.bytes), blank);
    LearnedIs(|bits|, sent);
    NothingSet(bits);
  }

  lemma CastLength(bits: seq<bool>, cast: seq<bv8>)
    requires IsCast(bits, cast)
    ensures |cast| == BlockCount(|bits|)
  {
  }

  lemma NumbersLength(bytes: seq<bv8>)
    ensures |AsNumbers(bytes)| == |bytes|
  {
  }

  lemma LearnedIs(count: nat, data: seq<bv8>)
    ensures Learned(count, data) == Merged(seq(count, _ => false), data)
  {
  }

  lemma NothingSet(bits: seq<bool>)
    ensures bits == seq(|bits|, _ => false) <==> ClearBehind(bits, 0)
  {
  }
}
