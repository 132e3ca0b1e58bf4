/** The bytes and texts that travel, spelled out: what both ends of a round trip must mean by them
    (BEP 3, sections "bencoding" and "peer messages", and BEP 15). */
module Formats {
  import opened Common
  import opened Pieces
  import opened Numerals
  import opened Bencode
  import opened Messages
  import opened Bitfields
  import opened UdpTracker
  import opened Requests

  /** A number of four bytes goes out with its highest byte first. */
  lemma BigOfBytes(a: byte, b: byte, c: byte, d: byte)
    ensures var v := ((a as nat * 256 + b as nat) * 256 + c as nat) * 256 + d as nat;
      Big(v, 4) == [a, b, c, d] && Messages.Value([a, b, c, d]) == v && U32([a, b, c, d], 0) == v
  {
    var v1 := a as nat;
    var v2 := v1 * 256 + b as nat;
    var v3 := v2 * 256 + c as nat;
    var v4 := v3 * 256 + d as nat;
    assert Big(v1, 1) == Big(v1 / 256, 0) + [a];
    assert v2 / 256 == v1 && v2 % 256 == b as nat;
    assert Big(v2, 2) == Big(v1, 1) + [b];
    assert v3 / 256 == v2 && v3 % 256 == c as nat;
    assert Big(v3, 3) == Big(v2, 2) + [c];
    assert v4 / 256 == v3 && v4 % 256 == d as nat;
    assert Big(v4, 4) == Big(v3, 3) + [d];
    assert [a][..0] == [] && [a, b][..1] == [a] && [a, b, c][..2] == [a, b] && [a, b, c, d][..3] == [a, b, c];
    assert Messages.Value([a]) == v1 && Messages.Value([a, b]) == v2 && Messages.Value([a, b, c]) == v3;
  }

  /** The frames that carry nothing but a type. */
  lemma PlainFrames()
    ensures Frame(KeepAlive) == [0, 0, 0, 0]
    ensures Frame(Sent.Sent(Message.Choke)) == [0, 0, 0, 1, 0] && Frame(Sent.Sent(Message.Unchoke)) == [0, 0, 0, 1, 1]
    ensures Frame(Sent.Sent(Message.Interested)) == [0, 0, 0, 1, 2]
    ensures Frame(Sent.Sent(Message.NotInterested)) == [0, 0, 0, 1, 3]
  {
    BigOfBytes(0, 0, 0, 0);
    BigOfBytes(0, 0, 0, 1);
  }

  lemma Joined(a: seq<byte>, kind: byte, x: seq<byte>, y: seq<byte>, z: seq<byte>)
    ensures a + ([kind] + (x + (y + z))) == a + [kind] + x + y + z
    ensures |[kind] + (x + (y + z))| == 1 + |x| + |y| + |z|
    ensures |a| == 4 ==> a + [kind] == [a[0], a[1], a[2], a[3], kind]
  {
  }

  /** The frames with fields: the piece, the begin and the length or the bytes, in this order. */
  lemma RequestFrames(index: nat, begin: nat, length: nat)
    ensures Frame(Sent.Sent(Message.Request(index, begin, length))) ==
            [0, 0, 0, 13, 6] + Big(index, 4) + Big(begin, 4) + Big(length, 4)
    ensures Frame(Sent.Sent(Message.Cancel(index, begin, length))) ==
            [0, 0, 0, 13, 8] + Big(index, 4) + Big(begin, 4) + Big(length, 4)
  {
    BigOfBytes(0, 0, 0, 13);
    hide Big;
    Joined(Big(13, 4), 6, Big(index, 4), Big(begin, 4), Big(length, 4));
    Joined(Big(13, 4), 8, Big(index, 4), Big(begin, 4), Big(length, 4));
  }

  lemma PieceFrame(index: nat, begin: nat, bytes: seq<byte>)
    requires |bytes| + 9 < 256
    ensures Frame(Sent.Sent(Message.PieceBlock(index, begin, bytes))) ==
            [0, 0, 0, (9 + |bytes|) as byte, 7] + Big(index, 4) + Big(begin, 4) + bytes
  {
    BigOfBytes(0, 0, 0, (9 + |bytes|) as byte);
    hide Big;
    Joined(Big(9 + |bytes|, 4), 7, Big(index, 4), Big(begin, 4), bytes);
  }

  lemma HaveFrame(index: nat)
    ensures Frame(Sent.Sent(Message.Have(index))) == [0, 0, 0, 5, 4] + Big(index, 4)
  {
    BigOfBytes(0, 0, 0, 5);
    hide Big;
    Regroup(Big(5, 4), [4], Big(index, 4));
  }

  lemma BitfieldFrame(bytes: seq<byte>)
    requires |bytes| + 1 < 256
    ensures Frame(Sent.Sent(Message.Bitfield(bytes))) == [0, 0, 0, (1 + |bytes|) as byte, 5] + bytes
  {
    BigOfBytes(0, 0, 0, (1 + |bytes|) as byte);
    hide Big;
    Regroup(Big(1 + |bytes|, 4), [5], bytes);
  }

  lemma {:induction false} BigOfCut(v: nat, n: nat)
    ensures Pow256(n) > 0 && Big(v, n) == Big(v % Pow256(n), n)
  {
    if n > 0 {
      BigOfCut(v / 256, n - 1);
      CutByByte(v, Pow256(n - 1));
    }
  }

  lemma CutByByte(v: nat, m: nat)
    requires m > 0
    ensures (v % (256 * m)) / 256 == (v / 256) % m && (v % (256 * m)) % 256 == v % 256
  {
    var q, r := v / (256 * m), v % (256 * m);
    DivModIs(v, 256 * m);
    DivModIs(r, 256);
    DivModIs(v, 256);
    var h, l := r / 256, r % 256;
    MulBound(h, m - 1, 256);
    assert v == (q * m + h) * 256 + l by {
      assert q * (256 * m) == q * m * 256;
    }
    DivMod(q * m + h, l, 256);
    DivMod(q, h, m);
  }

  /** The four bytes that a field has on the wire hold what the 32-bit parameter leaves of it. */
  lemma RequestsAreCut(r: Range)
    ensures var w := OnWire(r);
      && Decode(Body(Message.Request(r.index, r.begin, r.length))) ==
         Understood(Message.Request(w.index, w.begin, w.length))
      && Decode(Body(Message.Cancel(r.index, r.begin, r.length))) ==
         Understood(Message.Cancel(w.index, w.begin, w.length))
  {
    assert Pow256(4) == 256 * Pow256(3) && Pow256(3) == 256 * Pow256(2) && Pow256(2) == 256 * Pow256(1) == 65536;
    var w := OnWire(r);
    BigOfCut(r.index, 4);
    BigOfCut(r.begin, 4);
    BigOfCut(r.length, 4);
    DecodeBody(Message.Request(w.index, w.begin, w.length));
    DecodeBody(Message.Cancel(w.index, w.begin, w.length));
    hide Decode, Big;
  }

  /** A port as other clients send it, in two bytes, is understood; the eight bytes that go out here
      are refused. */
  lemma Ports(high: byte, low: byte, port: nat)
    ensures Decode([9, high, low]) == Understood(Message.Port(256 * high as nat + low as nat))
    ensures Decode(Body(Message.Port(port))).Refused?
  {
    assert [9, high, low][1..3] == [high, low] && [high, low][..1] == [high] && [high][..0] == [];
    assert Messages.Value([high]) == high as nat;
  }

  /** What a body is refused for: a length that does not fit its type. */
  lemma RefusedBodies(body: seq<byte>)
    requires body != []
    ensures Decode(body).Refused? <==>
            || (body[0] <= 3 && |body| != 1) || (body[0] == 4 && |body| != 5)
            || (body[0] in [6, 8] && |body| != 13) || (body[0] == 7 && |body| < 9) || (body[0] == 9 && |body| != 3)
    ensures Decode(body).Unknown? <==> body[0] > 9
  {
    hide Messages.Value;
  }

  /** A compact peer: four bytes of address, two of port. */
  lemma CompactPeer(p: Peer)
    ensures Compact([p]) == [p.ip0, p.ip1, p.ip2, p.ip3, p.port0, p.port1]
  {
    assert [p][1..] == [];
  }

  /** The piece of index 0 is the high bit of the first byte. */
  lemma FirstPieceIsHighBit(cast: seq<bv8>)
    requires IsCast([true, false, true], cast)
    ensures cast == [0xA0]
  {
    var bits := [true, false, true];
    forall k: nat | k < 8
      ensures Bit(cast[0], k) == Bit(0xA0, k)
    {
      assert WireBit(cast, 7 - k) == (7 - k < 3 && bits[7 - k]);
    }
    BitsDetermineByte(cast[0], 0xA0);
  }

  lemma DigitsOf105()
    ensures Digits(105) == "105"
  {
    assert Digits(1) == "1" && Digits(10) == "1" + "0";
  }

  /** Bencoded text of each kind. */
  lemma BencodedTexts()
    ensures Code(Number(-105)) == "i-105e"
    ensures Code(Text("spam")) == "4:spam"
    ensures Code(Array([Text("spam"), Number(3)])) == "l4:spami3ee"
    ensures Code(Dict([Entry("cow", Text("moo"))])) == "d3:cow3:mooe"
  {
    hide Digits;
    DigitsOf105();
    SmallDigits();
    assert Code(Text("spam")) == "4:spam" && Code(Number(3)) == "i3e" && TextCode("cow") == "3:cow";
    assert [Text("spam"), Number(3)][1..] == [Number(3)] && [Number(3)][1..] == [];
    assert ItemsCode([Number(3)]) == "i3e";
    assert [Entry("cow", Text("moo"))][1..] == [];
  }

  lemma SmallDigits()
    ensures Digits(3) == "3" && Digits(4) == "4"
  {
  }

  /** The characters that are skipped before a number: those with codes 9 to 13, and the blank. */
  lemma Spaces(c: char)
    ensures IsSpace(c) <==> c as int in [9, 10, 11, 12, 13, 32]
  {
  }

  /** What the loader takes besides: any character in the place of the 'i' and the 'e' of a number, a
      plus sign and white space before it, and nothing at all for an empty dictionary. */
  lemma LenientNumber()
    ensures LoadNode("i +5x", 1) == Got(Number(5), "") && LoadNode("", 1) == Got(Dict([]), "")
  {
    assert Drop("i +5x", 1) == " +5x" && " +5x"[1..] == "+5x" && SkipSpace("+5x") == "+5x" && "+5x"[1..] == "5x";
    assert "5x"[1..] == "x" && Scan("5x", 0) == Scan("x", 5) == (5, "x") && Drop("x", 1) == "";
  }

  /** White space before the length of a string, and any character in the place of its ':'. */
  lemma LenientText()
    ensures LoadNode(" 1?a", 1) == Got(Text("a"), "")
  {
    assert " 1?a"[1..] == "1?a" && SkipSpace("1?a") == "1?a";
    assert "1?a"[1..] == "?a" && Scan("1?a", 0) == Scan("?a", 1) == (1, "?a") && Drop("?a", 1) == "a";
    assert "a"[..1] == "a" && "a"[1..] == "";
  }
}
