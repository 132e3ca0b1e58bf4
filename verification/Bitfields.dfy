/** `Bitfield` as bytes on the wire: the sender's packed blocks with reversed bytes, the
    receiver's shift-and-mask loops, and the constructors from bytes. */
module Bitfields {
  import opened Common

  const BYTE_SIZE: nat := 8

  /** 1 << k */
  function Mask(k: nat): bv8
    requires k < BYTE_SIZE
  {
    [1, 2, 4, 8, 16, 32, 64, 128][k]
  }

  predicate Bit(b: bv8, k: nat)
    requires k < BYTE_SIZE
  {
    b & Mask(k) != 0
  }

  function ReverseByte(b: bv8): bv8 {
    var c := ((b & 0xF0) >> 4) | ((b & 0x0F) << 4);
    var d := ((c & 0xCC) >> 2) | ((c & 0x33) << 2);
    ((d & 0xAA) >> 1) | ((d & 0x55) << 1)
  }

  lemma ReverseByteReverses(b: bv8, k: nat)
    requires k < BYTE_SIZE
    ensures Bit(ReverseByte(b), k) == Bit(b, 7 - k)
  {
    assert k == 0 || k == 1 || k == 2 || k == 3 || k == 4 || k == 5 || k == 6 || k == 7;
  }

  /** The first k bits of a block, lowest bit first; bits past the end are clear. */
  function Packed(bits: seq<bool>, base: nat, k: nat): bv8
    requires k <= BYTE_SIZE
  {
    if k == 0 then 0
    else if base + k - 1 < |bits| && bits[base + k - 1] then Packed(bits, base, k - 1) | Mask(k - 1)
    else Packed(bits, base, k - 1)
  }

  lemma MasksApart(j: nat, k: nat)
    requires j < BYTE_SIZE && k < BYTE_SIZE
    ensures Mask(k) != 0
    ensures j != k ==> Mask(j) & Mask(k) == 0
  {
  }

  lemma OrBits(b: bv8, m: bv8, n: bv8)
    ensures m & n == 0 ==> (b | m) & n == b & n
    ensures n != 0 ==> (b | n) & n != 0
  {
  }

  lemma OrMask(b: bv8, j: nat, k: nat)
    requires j < BYTE_SIZE && k < BYTE_SIZE
    ensures Bit(b | Mask(j), k) == (k == j || Bit(b, k))
  {
    hide Mask;
    MasksApart(j, k);
    OrBits(b, Mask(j), Mask(k));
  }

  lemma ZeroByte(k: nat)
    requires k < BYTE_SIZE
    ensures !Bit(0, k)
  {
  }

  lemma {:induction false} BitOfPacked(bits: seq<bool>, base: nat, n: nat, k: nat)
    requires n <= BYTE_SIZE && k < BYTE_SIZE
    ensures Bit(Packed(bits, base, n), k) == (k < n && base + k < |bits| && bits[base + k])
  {
    hide Bit, Mask;
    if n == 0 {
      ZeroByte(k);
    } else {
      BitOfPacked(bits, base, n - 1, k);
      OrMask(Packed(bits, base, n - 1), n - 1, k);
    }
  }

  function BlockCount(n: nat): nat {
    (n + BYTE_SIZE - 1) / BYTE_SIZE
  }

  /** `to_block_range`. */
  function Blocks(bits: seq<bool>): seq<bv8> {
    seq(BlockCount(|bits|), i requires 0 <= i < BlockCount(|bits|) => Packed(bits, BYTE_SIZE * i, BYTE_SIZE))
  }

  /** Bits of bytes as BEP 3 counts them: the high bit of the first byte comes first. */
  predicate WireBit(bytes: seq<bv8>, i: nat)
    requires i / BYTE_SIZE < |bytes|
  {
    Bit(bytes[i / BYTE_SIZE], 7 - i % BYTE_SIZE)
  }

  ghost predicate IsCast(bits: seq<bool>, cast: seq<bv8>) {
    && |cast| == BlockCount(|bits|)
    && forall i: nat :: i < BYTE_SIZE * |cast| ==> WireBit(cast, i) == (i < |bits| && bits[i])
  }

  lemma ReversedBlock(bits: seq<bool>, i: nat, k: nat)
    requires i < BlockCount(|bits|) && k < BYTE_SIZE
    ensures var at := BYTE_SIZE * i + k;
      Bit(ReverseByte(Blocks(bits)[i]), 7 - k) == (at < |bits| && bits[at])
  {
    hide ReverseByte, Bit, Mask, Packed;
    ReverseByteReverses(Blocks(bits)[i], 7 - k);
    BitOfPacked(bits, BYTE_SIZE * i, BYTE_SIZE, k);
  }

  method GetCast(bits: seq<bool>) returns (cast: seq<bv8>)
    ensures IsCast(bits, cast)
  {
    hide ReverseByte, Bit;
    cast := Blocks(bits);
    var i := 0;
    while i < |cast|
      invariant 0 <= i <= |cast| == BlockCount(|bits|)
      invariant forall j :: 0 <= j < i ==> cast[j] == ReverseByte(Blocks(bits)[j])
      invariant forall j :: i <= j < |cast| ==> cast[j] == Blocks(bits)[j]
    {
      cast := cast[i := ReverseByte(cast[i])];
      i := i + 1;
    }
    forall at: nat | at < BYTE_SIZE * |cast|
      ensures WireBit(cast, at) == (at < |bits| && bits[at])
    {
      hide Blocks;
      ReversedBlock(bits, at / BYTE_SIZE, at % BYTE_SIZE);
      assert at == BYTE_SIZE * (at / BYTE_SIZE) + at % BYTE_SIZE;
    }
  }

  /** What a neighbour's bits are after its bitfield message. */
  function Merged(peer: seq<bool>, data: seq<bv8>): (r: seq<bool>)
    ensures |r| == |peer|
  {
    seq(|peer|, i requires 0 <= i < |peer| => peer[i] || (i / BYTE_SIZE < |data| && WireBit(data, i)))
  }

  /** No bit that was known is lost, and two messages add the same in either order. */
  lemma MergedGrows(peer: seq<bool>, a: seq<bv8>, b: seq<bv8>)
    ensures forall i :: 0 <= i < |peer| && peer[i] ==> Merged(peer, a)[i]
    ensures forall i: nat :: i < |peer| && i / BYTE_SIZE < |a| && WireBit(a, i) ==> Merged(peer, a)[i]
    ensures Merged(Merged(peer, a), b) == Merged(Merged(peer, b), a)
  {
    hide WireBit;
  }

  /** The `bitfield` case of `handle_response` on the bytes after the type: too many of them
      end the connection. */
  method ReceiveBitfield(data: seq<bv8>, peer: seq<bool>) returns (ok: bool, bits: seq<bool>)
    ensures ok <==> |data| <= BlockCount(|peer|)
    ensures bits == if ok then Merged(peer, data) else peer
  {
    hide Bit;
    bits := peer;
    if |data| > BlockCount(|peer|) {
      return false, peer;
    }
    var i := 0;
    while i < |data|
      invariant 0 <= i <= |data|
      invariant bits == Merged(peer, data[..i])
    {
      var x := 0;
      while x < BYTE_SIZE
        invariant 0 <= x <= BYTE_SIZE && |bits| == |peer|
        invariant forall k :: 0 <= k < |peer| ==>
          bits[k] == (Merged(peer, data[..i])[k] || (k / BYTE_SIZE == i && k % BYTE_SIZE < x && WireBit(data, k)))
      {
        var idx := i * BYTE_SIZE + x;
        assert idx / BYTE_SIZE == i && idx % BYTE_SIZE == x;
        if Bit(data[i], 7 - x) {
          if idx < |peer| {
            bits := bits[idx := true];
          }
        }
        x := x + 1;
      }
      assert forall k: nat :: k / BYTE_SIZE < i ==> WireBit(data[..i + 1], k) == WireBit(data[..i], k);
      assert bits == Merged(peer, data[..i + 1]);
      i := i + 1;
    }
    assert data[..|data|] == data;
    ok := true;
  }

  const FLOAT_EXACT: nat := 0x100_0000

  /** The distance between neighbours among the `float` values around n: 24 binary digits fit. */
  function Ulp(n: nat): (u: nat)
    ensures u > 0
  {
    if n < FLOAT_EXACT then 1 else 2 * Ulp(n / 2)
  }

  /** The multiple of u nearest to n, from the middle the even one. */
  function Nearest(n: nat, u: nat): nat
    requires u > 0
  {
    var r := n % u;
    if 2 * r < u || (2 * r == u && n % (2 * u) < u) then n - r else n - r + u
  }

  /** A count converted to `float`. */
  function AsFloat(n: nat): nat {
    Nearest(n, Ulp(n))
  }

  /** How many bytes `send_bitfield` sends: a quotient by 8, exact in binary, rounded up. */
  function BytesToSend(n: nat): nat {
    (AsFloat(n) + 7) / 8
  }

  lemma {:induction false} SmallUlp(n: nat)
    ensures n < FLOAT_EXACT ==> Ulp(n) == 1
    ensures FLOAT_EXACT <= n < 2 * FLOAT_EXACT ==> Ulp(n) == 2
    ensures 2 * FLOAT_EXACT <= n < 4 * FLOAT_EXACT ==> Ulp(n) == 4
    ensures 4 * FLOAT_EXACT <= n < 8 * FLOAT_EXACT ==> Ulp(n) == 8
  {
    assert n < 8 * FLOAT_EXACT ==> n / 2 / 2 / 2 < FLOAT_EXACT;
    assert Ulp(n) == if n < FLOAT_EXACT then 1 else 2 * Ulp(n / 2);
    assert Ulp(n / 2) == if n / 2 < FLOAT_EXACT then 1 else 2 * Ulp(n / 2 / 2);
    assert Ulp(n / 2 / 2) == if n / 2 / 2 < FLOAT_EXACT then 1 else 2 * Ulp(n / 2 / 2 / 2);
  }

  lemma {:induction false} LargeUlp(n: nat)
    requires 4 * FLOAT_EXACT <= n
    ensures Ulp(n) % 8 == 0
  {
    if n < 8 * FLOAT_EXACT {
      SmallUlp(n);
    } else {
      LargeUlp(n / 2);
    }
  }

  /** Whether `float` has no value for n and the nearest is larger. */
  predicate RoundedUp(n: nat) {
    Nearest(n, Ulp(n)) > n
  }

  /** One byte fewer than there are is sent for certain counts above 2^24. From 2^26 on the
      conversion rounds to whole bytes: fewer are sent if it rounds down, and more if it rounds up
      by eight bits or more. */
  lemma BytesToSendExactly(n: nat)
    ensures n < 4 * FLOAT_EXACT ==>
              BytesToSend(n) ==
              if n > FLOAT_EXACT && (n % 8 == 1 || (n > 2 * FLOAT_EXACT && n % 8 == 2)) then BlockCount(n) - 1
              else BlockCount(n)
    ensures n >= 4 * FLOAT_EXACT ==>
              && (BytesToSend(n) < BlockCount(n) <==> n % Ulp(n) > 0 && !RoundedUp(n))
              && (BytesToSend(n) > BlockCount(n) <==> RoundedUp(n) && n % Ulp(n) + 8 <= Ulp(n))
    ensures n < 8 * FLOAT_EXACT ==> BytesToSend(n) <= BlockCount(n)
  {
    SmallUlp(n);
    if n >= 4 * FLOAT_EXACT {
      LargeUlp(n);
      NearestEights(n, Ulp(n));
    } else {
      NearestOne(n);
      NearestTwo(n);
      NearestFour(n);
    }
    hide Ulp, Nearest;
  }

  lemma NearestOne(n: nat)
    ensures Nearest(n, 1) == n
  {
  }

  lemma NearestIs(n: nat, u: nat, r: nat, t: nat)
    requires u > 0 && r == n % u && t == n % (2 * u)
    ensures Nearest(n, u) == if 2 * r < u || (2 * r == u && t < u) then n - r else n - r + u
  {
  }

  lemma NearestTwo(n: nat)
    ensures (Nearest(n, 2) + 7) / 8 == if n % 8 == 1 then BlockCount(n) - 1 else BlockCount(n)
  {
    hide Nearest;
    NearestIs(n, 2, n % 2, n % 4);
    InEight(n, n / 8, n % 8);
  }

  lemma NearestFour(n: nat)
    ensures (Nearest(n, 4) + 7) / 8 == if n % 8 == 1 || n % 8 == 2 then BlockCount(n) - 1 else BlockCount(n)
  {
    hide Nearest;
    NearestIs(n, 4, n % 4, n % 8);
    InEight(n, n / 8, n % 8);
  }

  lemma InEight(n: nat, q: nat, r: nat)
    requires n == 8 * q + r && r < 8
    ensures n % 8 == r
    ensures n % 4 == if r < 4 then r else r - 4
    ensures n % 2 == if r in [0, 2, 4, 6] then 0 else 1
  {
    DivMod(q, r, 8);
    var half := if r < 4 then 0 else 1;
    DivMod(2 * q + half, r - 4 * half, 4);
    var pair := if r < 2 then 0 else if r < 4 then 1 else if r < 6 then 2 else 3;
    DivMod(4 * q + pair, r - 2 * pair, 2);
  }

  lemma Eights(q: nat, v: nat)
    ensures q * (8 * v) == 8 * (q * v)
  {
  }

  lemma NearestEights(n: nat, u: nat)
    requires u > 0 && u % 8 == 0
    ensures var k, r := (Nearest(n, u) + 7) / 8, n % u;
      && (k < BlockCount(n) <==> r > 0 && Nearest(n, u) <= n)
      && (k > BlockCount(n) <==> Nearest(n, u) > n && r + 8 <= u)
      && (u == 8 ==> k <= BlockCount(n))
  {
    var (q, r, v) := (n / u, n % u, u / 8);
    DivModIs(n, u);
    Eights(q, v);
    var near, m := Nearest(n, u), q * v;
    assert near == n - r || near == n - r + u;
    assert 2 * r < u ==> near == n - r;
    hide *;
    assert n == 8 * m + r && u == 8 * v;
    WholeBytes(n, m, r, v, near);
  }

  lemma WholeBytes(n: nat, m: nat, r: nat, v: nat, near: nat)
    requires n == 8 * m + r && r < 8 * v && (near == 8 * m || near == 8 * m + 8 * v)
    requires r < 4 * v ==> near == 8 * m
    ensures var k := (near + 7) / 8;
      && (k < BlockCount(n) <==> r > 0 && near <= n)
      && (k > BlockCount(n) <==> near > n && r + 8 <= 8 * v)
      && (v == 1 ==> k <= BlockCount(n))
  {
  }

  /** No bit is set behind the first k bytes. */
  predicate ClearBehind(bits: seq<bool>, k: nat) {
    forall i :: BYTE_SIZE * k <= i < |bits| ==> !bits[i]
  }

  /** What a neighbour that knew nothing makes of the bytes. */
  function Learned(count: nat, data: seq<bv8>): seq<bool> {
    Merged(seq(count, _ => false), data)
  }

  /** It learns exactly our bits if none is set behind the bytes that are sent. */
  lemma BitfieldArrives(bits: seq<bool>, cast: seq<bv8>, k: nat)
    requires IsCast(bits, cast) && k <= |cast|
    ensures Learned(|bits|, cast[..k]) == bits <==> ClearBehind(bits, k)
  {
    hide Bit;
    var r := Learned(|bits|, cast[..k]);
    forall i | 0 <= i < |bits| ensures r[i] == (i < BYTE_SIZE * k && bits[i]) {
      assert i < BYTE_SIZE * |cast|;
      assert i / BYTE_SIZE < k ==> WireBit(cast[..k], i) == WireBit(cast, i);
    }
  }

  /** One of the last bits is set, and `send_bitfield` leaves out its byte, for a count below 2^26. */
  predicate LastLost(bits: seq<bool>) {
    var n := |bits|;
    || (n > FLOAT_EXACT && n % 8 == 1 && bits[n - 1])
    || (n > 2 * FLOAT_EXACT && n % 8 == 2 && (bits[n - 1] || bits[n - 2]))
  }

  /** What `send_bitfield` sends, from the cast and what lies behind it in memory, is refused
      exactly if the count is rounded up by a byte or more. Otherwise a neighbour learns exactly
      our bits unless one is set in a byte that the conversion dropped. */
  lemma BitfieldSent(bits: seq<bool>, cast: seq<bv8>, behind: seq<bv8>)
    requires IsCast(bits, cast) && BytesToSend(|bits|) <= |cast| + |behind|
    ensures var n, k := |bits|, BytesToSend(|bits|);
      && (k > BlockCount(n) <==> RoundedUp(n) && n % Ulp(n) + 8 <= Ulp(n))
      && (k <= BlockCount(n) ==> (Learned(n, (cast + behind)[..k]) == bits <==> ClearBehind(bits, k)))
      && (n < 4 * FLOAT_EXACT ==> k <= BlockCount(n) && (ClearBehind(bits, k) <==> !LastLost(bits)))
  {
    hide BytesToSend, Learned, ClearBehind, WireBit, RoundedUp, LastLost;
    var n, k := |bits|, BytesToSend(|bits|);
    BytesToSendExactly(n);
    NoMoreBytes(n);
    if k <= |cast| {
      assert (cast + behind)[..k] == cast[..k];
      BitfieldArrives(bits, cast, k);
    }
    if n < 4 * FLOAT_EXACT {
      LastByte(bits, k);
    }
  }

  lemma NoMoreBytes(n: nat)
    ensures n < 4 * FLOAT_EXACT ==> Ulp(n) <= 4
  {
    SmallUlp(n);
  }

  lemma LastByte(bits: seq<bool>, k: nat)
    requires |bits| < 4 * FLOAT_EXACT
    requires var n := |bits|;
      k == if n > FLOAT_EXACT && (n % 8 == 1 || (n > 2 * FLOAT_EXACT && n % 8 == 2)) then BlockCount(n) - 1
           else BlockCount(n)
    ensures ClearBehind(bits, k) <==> !LastLost(bits)
  {
  }

  /** The constructors from bytes append reversed blocks. */
  method FromBytes(bytes: seq<bv8>) returns (bits: seq<bool>)
    ensures |bits| == BYTE_SIZE * |bytes|
    ensures forall i: nat :: i < |bits| ==> bits[i] == WireBit(bytes, i)
  {
    hide Bit, ReverseByte;
    bits := [];
    for n := 0 to |bytes|
      invariant |bits| == BYTE_SIZE * n
      invariant forall i: nat :: i < |bits| ==> bits[i] == WireBit(bytes, i)
    {
      var block := ReverseByte(bytes[n]);
      var more := seq(BYTE_SIZE, k requires 0 <= k < BYTE_SIZE => Bit(block, k));
      forall k: nat | k < BYTE_SIZE ensures more[k] == WireBit(bytes, BYTE_SIZE * n + k) {
        ReverseByteReverses(bytes[n], k);
        assert (BYTE_SIZE * n + k) / BYTE_SIZE == n && (BYTE_SIZE * n + k) % BYTE_SIZE == k;
      }
      assert forall i: nat :: BYTE_SIZE * n <= i < BYTE_SIZE * (n + 1) ==> (bits + more)[i] == more[i - BYTE_SIZE * n];
      bits := bits + more;
    }
  }

  lemma {:induction false} BitsDetermineByte(a: bv8, b: bv8)
    requires forall k: nat :: k < BYTE_SIZE ==> Bit(a, k) == Bit(b, k)
    ensures a == b
  {
    assert Bit(a, 0) == Bit(b, 0) && Bit(a, 1) == Bit(b, 1) && Bit(a, 2) == Bit(b, 2) && Bit(a, 3) == Bit(b, 3);
    assert Bit(a, 4) == Bit(b, 4) && Bit(a, 5) == Bit(b, 5) && Bit(a, 6) == Bit(b, 6) && Bit(a, 7) == Bit(b, 7);
  }

  /** Bytes are the only cast of the bits built from them: identifiers survive both ways. */
  lemma {:induction false} BytesRoundTrip(bytes: seq<bv8>, bits: seq<bool>, cast: seq<bv8>)
    requires |bits| == BYTE_SIZE * |bytes| && forall i: nat :: i < |bits| ==> bits[i] == WireBit(bytes, i)
    requires IsCast(bits, cast)
    ensures cast == bytes
  {
    hide Bit;
    forall n | 0 <= n < |bytes| ensures cast[n] == bytes[n] {
      forall k: nat | k < BYTE_SIZE ensures Bit(cast[n], k) == Bit(bytes[n], k) {
        var i := BYTE_SIZE * n + (7 - k);
        assert i / BYTE_SIZE == n && i % BYTE_SIZE == 7 - k;
        assert WireBit(cast, i) == bits[i] == WireBit(bytes, i);
      }
      BitsDetermineByte(cast[n], bytes[n]);
    }
  }
}
