/** Decimal numerals as the standard streams print and read them, and the order of strings as
    the keys of a map. */
module Numerals {
  import opened Common

  function Digit(d: nat): char
    requires d < 10
  {
    (48 + d) as char
  }

  predicate IsDigit(c: char) {
    48 <= c as int <= 57
  }

  function DigitValue(c: char): (d: nat)
    requires IsDigit(c)
    ensures d < 10
  {
    c as int - 48
  }

  lemma DigitInverse(d: nat)
    requires d < 10
    ensures IsDigit(Digit(d)) && DigitValue(Digit(d)) == d
  {
  }

  lemma ValueInverse(c: char)
    requires IsDigit(c)
    ensures Digit(DigitValue(c)) == c
  {
  }

  /** The shortest decimal numeral. */
  function Digits(n: nat): (r: string)
    ensures StartsWithDigit(r)
  {
    if n < 10 then [Digit(n)] else Digits(n / 10) + [Digit(n % 10)]
  }

  function Numeral(n: int): string {
    if n < 0 then "-" + Digits(-n) else Digits(n)
  }

  /** Reads as many digits as there are. */
  function Scan(x: string, value: nat): (r: (nat, string))
    ensures |r.1| <= |x|
    decreases |x|
  {
    if StartsWithDigit(x) then Scan(x[1..], 10 * value + DigitValue(x[0])) else (value, x)
  }

  predicate StartsWithDigit(x: string) {
    x != "" && IsDigit(x[0])
  }

  lemma ScanOne(c: char, rest: string, value: nat)
    requires IsDigit(c)
    ensures Scan([c] + rest, value) == Scan(rest, 10 * value + DigitValue(c))
  {
    hide IsDigit, DigitValue;
    var x := [c] + rest;
    assert x[1..] == rest;
  }

  lemma {:induction false} ScanDigits(n: nat, rest: string)
    ensures Scan(Digits(n) + rest, 0) == Scan(rest, n)
  {
    hide Digit, Scan, DigitValue, IsDigit;
    DigitInverse(n % 10);
    if n < 10 {
      ScanOne(Digit(n), rest, 0);
    } else {
      ScanDigits(n / 10, [Digit(n % 10)] + rest);
      Regroup(Digits(n / 10), [Digit(n % 10)], rest);
      ScanOne(Digit(n % 10), rest, n / 10);
    }
  }

  lemma {:induction false} DigitsGrow(v: nat, d: nat)
    requires d < 10
    ensures |Digits(10 * v + d)| <= |Digits(v)| + 1
  {
  }

  /** A numeral that was read is no shorter than the shortest one for its value. */
  lemma {:induction false} ScanShortest(x: string, value: nat)
    ensures |Digits(Scan(x, value).0)| <= |Digits(value)| + |x| - |Scan(x, value).1|
    decreases |x|
  {
    hide Digits, DigitValue, IsDigit;
    if StartsWithDigit(x) {
      DigitsGrow(value, DigitValue(x[0]));
      ScanShortest(x[1..], 10 * value + DigitValue(x[0]));
    }
  }

  lemma DigitsSnoc(v: nat, c: char)
    requires v > 0 && IsDigit(c)
    ensures Digits(10 * v + DigitValue(c)) == Digits(v) + [c]
  {
    hide Digit, DigitValue, IsDigit;
    ValueInverse(c);
    var d := DigitValue(c);
    assert (10 * v + d) / 10 == v && (10 * v + d) % 10 == d;
  }

  /** What was scanned after a positive value extends its numeral. */
  lemma {:induction false} ScanExact(x: string, value: nat)
    requires value > 0
    ensures Digits(value) + x == Digits(Scan(x, value).0) + Scan(x, value).1
    decreases |x|
  {
    hide Digits, Digit, DigitValue, IsDigit;
    if StartsWithDigit(x) {
      DigitsSnoc(value, x[0]);
      ScanExact(x[1..], 10 * value + DigitValue(x[0]));
      assert x == [x[0]] + x[1..];
      Regroup(Digits(value), [x[0]], x[1..]);
    }
  }

  lemma OneDigit(c: char)
    requires IsDigit(c)
    ensures Digits(DigitValue(c)) == [c]
    ensures DigitValue(c) == 0 <==> c == '0'
  {
    ValueInverse(c);
  }

  /** A numeral without a superfluous leading zero reads back as printed. */
  lemma ScanMinimal(c: char, rest: string)
    requires IsDigit(c) && (c == '0' ==> !StartsWithDigit(rest))
    ensures [c] + rest == Digits(Scan(rest, DigitValue(c)).0) + Scan(rest, DigitValue(c)).1
  {
    hide Digits, Digit, DigitValue;
    OneDigit(c);
    if c != '0' {
      ScanExact(rest, DigitValue(c));
    }
  }

  /** Lexicographic order by character code. */
  predicate Less(a: string, b: string) {
    b != "" && (a == "" || a[0] < b[0] || (a[0] == b[0] && Less(a[1..], b[1..])))
  }

  /** Both agree in their first k characters, and then a ends or has the lower character. */
  ghost predicate LessAt(a: string, b: string, k: nat) {
    k <= |a| && k < |b| && a[..k] == b[..k] && (k == |a| || (a[k] as int) < (b[k] as int))
  }

  /** The order of the library's map keys. */
  lemma {:induction false} LessIs(a: string, b: string)
    ensures Less(a, b) <==> exists k: nat :: LessAt(a, b, k)
    decreases |a|
  {
    if a == "" {
      assert b != "" ==> LessAt(a, b, 0);
    } else if b != "" && a[0] == b[0] {
      LessIs(a[1..], b[1..]);
      LessAtTail(a, b);
    } else if b != "" && a[0] < b[0] {
      assert LessAt(a, b, 0);
    } else {
      forall k: nat
        ensures !LessAt(a, b, k)
      {
        if 0 < k <= |a| && k < |b| {
          assert a[..k][0] == a[0] && b[..k][0] == b[0];
        }
      }
    }
  }

  lemma LessAtTail(a: string, b: string)
    requires a != "" && b != "" && a[0] == b[0]
    ensures (exists k: nat :: LessAt(a, b, k)) <==> exists k: nat :: LessAt(a[1..], b[1..], k)
  {
    forall k: nat
      ensures LessAt(a, b, k + 1) <==> LessAt(a[1..], b[1..], k)
    {
      if k < |a| && k + 1 < |b| {
        assert a[..k + 1] == [a[0]] + a[1..][..k] && b[..k + 1] == [b[0]] + b[1..][..k];
        assert a[..k + 1][1..] == a[1..][..k] && b[..k + 1][1..] == b[1..][..k];
      }
    }
    assert !LessAt(a, b, 0);
    if k: nat :| LessAt(a, b, k) {
      assert k > 0;
      assert LessAt(a, b, (k - 1) + 1);
      assert LessAt(a[1..], b[1..], k - 1);
    }
    if k: nat :| LessAt(a[1..], b[1..], k) {
      assert LessAt(a, b, k + 1);
    }
  }

  lemma {:induction false} LessStrict(a: string, b: string)
    requires Less(a, b)
    ensures a != b && !Less(b, a)
    decreases |a|
  {
    if a != "" && a[0] == b[0] {
      LessStrict(a[1..], b[1..]);
    }
  }

  lemma {:induction false} LessTotal(a: string, b: string)
    ensures a == b || Less(a, b) || Less(b, a)
    decreases |a|
  {
    if a != "" && b != "" && a[0] == b[0] {
      LessTotal(a[1..], b[1..]);
      assert a == [a[0]] + a[1..] && b == [b[0]] + b[1..];
    }
  }

  lemma {:induction false} LessTransitive(a: string, b: string, c: string)
    requires Less(a, b) && Less(b, c)
    ensures Less(a, c)
    decreases |a|
  {
    if a != "" && a[0] == b[0] && b[0] == c[0] {
      LessTransitive(a[1..], b[1..], c[1..]);
    }
  }
}
