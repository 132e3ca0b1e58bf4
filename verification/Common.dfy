/** What the other modules share: optional values and machine words. */
module Common {

  datatype Option<T> = None | Some(value: T)

  const TWO_TO_THE_32 := 0x1_0000_0000
  const TWO_TO_THE_64 := 0x1_0000_0000_0000_0000

  /** The numbers a message carries. */
  type Word32 = x: int | 0 <= x < TWO_TO_THE_32

  /** Conversion to a 64-bit unsigned integer. */
  function Wrap64(x: int): nat {
    x % TWO_TO_THE_64
  }

  lemma Regroup<T>(a: seq<T>, b: seq<T>, c: seq<T>)
    ensures a + b + c == a + (b + c)
  {
  }

  lemma MulMono(a: nat, b: nat, m: nat)
    requires a <= b
    ensures a * m <= b * m
  {
  }

  lemma MulBound(a: nat, b: nat, m: nat)
    requires a * m < b * m + m
    ensures a <= b
  {
    if b < a {
      MulMono(b + 1, a, m);
    }
  }

  lemma MulStep(a: nat, m: nat)
    ensures (a + 1) * m == a * m + m
  {
  }

  lemma DivModIs(n: nat, m: nat)
    requires m > 0
    ensures 0 <= n / m && 0 <= n % m < m && n == n / m * m + n % m
  {
  }

  lemma DivMod(q: nat, r: nat, m: nat)
    requires r < m
    ensures (q * m + r) / m == q && (q * m + r) % m == r
  {
    var n := q * m + r;
    DivModIs(n, m);
    MulBound(n / m, q, m);
    MulBound(q, n / m, m);
  }
}
