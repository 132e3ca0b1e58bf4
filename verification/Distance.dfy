/** Distances between DHT identifiers: `BucketDistance` in its own unsigned arithmetic, the
    common prefix it stands for, and the XOR metric. */
module Distance {
  import opened Common

  const SHA1_SIZE_BITS: nat := 160

  /** An identifier, most significant bit first. */
  type Guid = s: seq<bool> | |s| == SHA1_SIZE_BITS witness seq(SHA1_SIZE_BITS, _ => false)

  /** The first index from i on at which a and b differ, or 160. */
  function PrefixFrom(a: Guid, b: Guid, i: nat): (r: nat)
    requires i <= SHA1_SIZE_BITS
    ensures i <= r <= SHA1_SIZE_BITS
    ensures a[i..r] == b[i..r]
    ensures r < SHA1_SIZE_BITS ==> a[r] != b[r]
    decreases SHA1_SIZE_BITS - i
  {
    if i == SHA1_SIZE_BITS || a[i] != b[i] then i
    else
      var r := PrefixFrom(a, b, i + 1);
      assert a[i..r] == [a[i]] + a[i + 1..r] && b[i..r] == [b[i]] + b[i + 1..r];
      r
  }

  /** How many leading bits a and b share; 160 if they are equal. */
  function SharedBits(a: Guid, b: Guid): nat {
    PrefixFrom(a, b, 0)
  }

  /** Counts down from 159 to the highest differing bit; for equal identifiers the counter runs
      below zero and wraps. */
  method BucketDistance(a: Guid, b: Guid) returns (bitPos: nat)
    ensures bitPos == Wrap64(SHA1_SIZE_BITS - 1 - SharedBits(a, b))
  {
    bitPos := SHA1_SIZE_BITS - 1;
    var i := 0;
    while i != SHA1_SIZE_BITS
      invariant i <= SHA1_SIZE_BITS
      invariant bitPos == Wrap64(SHA1_SIZE_BITS - 1 - i)
      invariant PrefixFrom(a, b, i) == SharedBits(a, b)
      decreases SHA1_SIZE_BITS - i
    {
      if a[i] != b[i] {
        break;
      }
      i := i + 1;
      bitPos := Wrap64(bitPos - 1);
    }
  }

  /** Taken from 159 in the same arithmetic, the distance is the number of shared bits, also
      when it wrapped. */
  lemma DistanceGivesSharedBits(a: Guid, b: Guid)
    ensures Wrap64(SHA1_SIZE_BITS - 1 - Wrap64(SHA1_SIZE_BITS - 1 - SharedBits(a, b))) == SharedBits(a, b)
    ensures SharedBits(a, b) == SHA1_SIZE_BITS <==> a == b
  {
    if SharedBits(a, b) == SHA1_SIZE_BITS {
      assert a == a[0..SHA1_SIZE_BITS] == b[0..SHA1_SIZE_BITS] == b;
    }
  }

  lemma {:induction false} PrefixSymmetric(a: Guid, b: Guid, i: nat)
    requires i <= SHA1_SIZE_BITS
    ensures PrefixFrom(a, b, i) == PrefixFrom(b, a, i)
    decreases SHA1_SIZE_BITS - i
  {
    if i < SHA1_SIZE_BITS && a[i] == b[i] {
      PrefixSymmetric(a, b, i + 1);
    }
  }

  lemma SharedAgree(a: Guid, b: Guid, k: nat)
    ensures k < SharedBits(a, b) ==> a[k] == b[k]
  {
    var r := SharedBits(a, b);
    if k < r {
      assert a[0..r][k] == b[0..r][k];
    }
  }

  lemma SharedEnd(a: Guid, b: Guid)
    ensures SharedBits(a, b) <= SHA1_SIZE_BITS && SharedBits(a, b) == SharedBits(b, a)
    ensures SharedBits(a, b) < SHA1_SIZE_BITS ==> a[SharedBits(a, b)] != b[SharedBits(a, b)]
  {
    PrefixSymmetric(a, b, 0);
  }

  function Pow2(n: nat): nat {
    if n == 0 then 1 else 2 * Pow2(n - 1)
  }

  /** A bit string read big-endian. */
  function Value(s: seq<bool>): nat {
    if s == [] then 0 else (if s[0] then Pow2(|s| - 1) else 0) + Value(s[1..])
  }

  function Xor(a: Guid, b: Guid): Guid {
    seq(SHA1_SIZE_BITS, i requires 0 <= i < SHA1_SIZE_BITS => a[i] != b[i])
  }

  lemma {:induction false} ValueBelow(s: seq<bool>)
    ensures Value(s) < Pow2(|s|)
  {
    if s != [] {
      ValueBelow(s[1..]);
    }
  }

  lemma {:induction false} LeadingZeros(s: seq<bool>, r: nat)
    requires r <= |s| && forall i :: 0 <= i < r ==> !s[i]
    ensures Value(s) == Value(s[r..])
  {
    if r > 0 {
      LeadingZeros(s[1..], r - 1);
      assert s[1..][r - 1..] == s[r..];
    } else {
      assert s[0..] == s;
    }
  }

  lemma {:induction false} Pow2Mono(a: nat, b: nat)
    requires a <= b
    ensures Pow2(a) <= Pow2(b)
  {
    if a < b {
      Pow2Mono(a, b - 1);
    }
  }

  /** r shared bits: the XOR distance has exactly 160 - r binary digits. */
  lemma XorRange(a: Guid, b: Guid)
    ensures var r := SharedBits(a, b);
            && Value(Xor(a, b)) < Pow2(SHA1_SIZE_BITS - r)
            && (r < SHA1_SIZE_BITS ==> Pow2(SHA1_SIZE_BITS - r - 1) <= Value(Xor(a, b)))
  {
    var r := SharedBits(a, b);
    var x := Xor(a, b);
    forall i | 0 <= i < r
      ensures !x[i]
    {
      assert a[0..r][i] == b[0..r][i];
    }
    LeadingZeros(x, r);
    ValueBelow(x[r..]);
  }

  /** For distinct identifiers the bucket distance is k exactly if the XOR distance lies in
      [2^k, 2^(k+1)). */
  lemma DistanceIsLog(a: Guid, b: Guid, k: nat)
    requires a != b && k < SHA1_SIZE_BITS
    ensures Wrap64(SHA1_SIZE_BITS - 1 - SharedBits(a, b)) == k <==> Pow2(k) <= Value(Xor(a, b)) < Pow2(k + 1)
  {
    DistanceGivesSharedBits(a, b);
    XorRange(a, b);
    var d := SHA1_SIZE_BITS - 1 - SharedBits(a, b);
    assert 0 <= d == Wrap64(d);
    hide Wrap64, SharedBits, Pow2, Value, Xor;
    if k < d {
      Pow2Mono(k + 1, d);
    } else if d < k {
      Pow2Mono(d + 1, k);
    }
  }
}
