/** Decimal digit strings and the numbers they stand for. */
module Decimal {
  import opened Arithmetic

  function Pow(b: nat, n: nat): (r: nat)
    ensures b >= 1 ==> r >= 1
  {
    if n == 0 then 1 else b * Pow(b, n - 1)
  }

  lemma {:induction false} PowAdd(b: nat, m: nat, n: nat)
    ensures Pow(b, m + n) == Pow(b, m) * Pow(b, n)
  {
    if m > 0 {
      PowAdd(b, m - 1, n);
      MulAssoc(b, Pow(b, m - 1), Pow(b, n));
    }
  }

  lemma Interchange(a: nat, b: nat, x: nat, y: nat)
    ensures (a * b) * (x * y) == (a * x) * (b * y)
  {
    MulAssoc(a * b, x, y);
    MulAssoc(x, a, b);
    MulAssoc(a * x, b, y);
  }

  lemma {:induction false} PowMul(a: nat, b: nat, n: nat)
    ensures Pow(a * b, n) == Pow(a, n) * Pow(b, n)
  {
    if n > 0 {
      PowMul(a, b, n - 1);
      Interchange(a, b, Pow(a, n - 1), Pow(b, n - 1));
    }
  }

  predicate IsDigit(c: char) {
    '0' <= c <= '9'
  }

  function Digit(d: nat): (c: char)
    requires d < 10
    ensures IsDigit(c) && DigitValue(c) == d
  {
    '0' + d as char
  }

  function DigitValue(c: char): (d: nat)
    requires IsDigit(c)
    ensures d < 10
  {
    c as nat - '0' as nat
  }

  predicate AllDigits(s: string) {
    forall i :: 0 <= i < |s| ==> IsDigit(s[i])
  }

  /** The number a digit string stands for. */
  function Value(s: string): nat
    requires AllDigits(s)
  {
    if s == "" then 0 else 10 * Value(s[..|s| - 1]) + DigitValue(s[|s| - 1])
  }

  /** The n low decimal digits of x, zero padded. */
  function Digits(x: nat, n: nat): (s: string)
    ensures |s| == n && AllDigits(s)
  {
    if n == 0 then "" else Digits(x / 10, n - 1) + [Digit(x % 10)]
  }

  /** The shortest decimal numeral of x. */
  function Numeral(x: nat): (s: string)
    ensures |s| >= 1 && AllDigits(s)
  {
    if x < 10 then [Digit(x)] else Numeral(x / 10) + [Digit(x % 10)]
  }

  function Zeros(n: nat): (s: string)
    ensures |s| == n && forall i :: 0 <= i < n ==> s[i] == '0'
  {
    seq(n, _ => '0')
  }

  lemma {:induction false} NumeralValue(x: nat)
    ensures Value(Numeral(x)) == x
  {
    if x >= 10 {
      NumeralValue(x / 10);
      assert (Numeral(x / 10) + [Digit(x % 10)])[..|Numeral(x)| - 1] == Numeral(x / 10);
    }
  }

  lemma {:induction false} DigitsValue(x: nat, n: nat)
    requires x < Pow(10, n)
    ensures Value(Digits(x, n)) == x
  {
    if n > 0 {
      DigitsValue(x / 10, n - 1);
      assert (Digits(x / 10, n - 1) + [Digit(x % 10)])[..n - 1] == Digits(x / 10, n - 1);
    }
  }

  lemma {:induction false} ValueBound(s: string)
    requires AllDigits(s)
    ensures Value(s) < Pow(10, |s|)
  {
    if s != "" {
      ValueBound(s[..|s| - 1]);
    }
  }

  /** A digit string is the digits of its value. */
  lemma {:induction false} DigitsOfValue(s: string)
    requires AllDigits(s)
    ensures Digits(Value(s), |s|) == s
  {
    if s != "" {
      DigitsOfValue(s[..|s| - 1]);
      assert s == s[..|s| - 1] + [s[|s| - 1]];
    }
  }

  lemma {:induction false} NumeralLength(x: nat, n: nat)
    requires n >= 1 && x < Pow(10, n)
    ensures |Numeral(x)| <= n
  {
    if x >= 10 {
      assert n >= 2;
      NumeralLength(x / 10, n - 1);
    }
  }

  /** Only the remainder modulo 10^n shows in n digits. */
  lemma {:induction false} LowDigits(w: nat, f: nat, n: nat)
    ensures Digits(w * Pow(10, n) + f, n) == Digits(f, n)
  {
    if n > 0 {
      var x := w * Pow(10, n) + f;
      var y := w * Pow(10, n - 1);
      assert x == 10 * y + f by { MulAssoc(w, 10, Pow(10, n - 1)); }
      assert x / 10 == y + f / 10 && x % 10 == f % 10;
      LowDigits(w, f / 10, n - 1);
    }
  }

  lemma PadDigit(y: nat, n: nat)
    ensures Digits(10 * y, n + 1) == Digits(y, n) + ['0']
  {}

  lemma {:induction false} PadDigits(x: nat, n: nat, k: nat)
    ensures Digits(x * Pow(10, k), n + k) == Digits(x, n) + Zeros(k)
  {
    if k == 0 {
      assert Digits(x, n) + Zeros(0) == Digits(x, n);
    } else {
      var y := x * Pow(10, k - 1);
      MulAssoc(x, 10, Pow(10, k - 1));
      PadDigits(x, n, k - 1);
      PadDigit(y, n + k - 1);
      assert Zeros(k) == Zeros(k - 1) + ['0'];
      assert Digits(x, n) + Zeros(k) == (Digits(x, n) + Zeros(k - 1)) + ['0'];
    }
  }

  /** All nines: one more is the next power of ten; all zeros: nothing. */
  lemma {:induction false} AllNines(nines: string, zeros: string)
    requires |nines| == |zeros| && forall i :: 0 <= i < |nines| ==> nines[i] == '9' && zeros[i] == '0'
    ensures AllDigits(nines) && Value(nines) + 1 == Pow(10, |nines|)
    ensures AllDigits(zeros) && Value(zeros) == 0
  {
    if nines != "" {
      AllNines(nines[..|nines| - 1], zeros[..|zeros| - 1]);
    }
  }

  /** One more than s, when t has the next digit at k and zeros for the nines behind it. */
  lemma {:induction false} CarryStops(s: string, k: nat, t: string)
    requires k < |s| == |t| && AllDigits(s) && AllDigits(t)
    requires t[..k] == s[..k] && DigitValue(t[k]) == DigitValue(s[k]) + 1
    requires forall i :: k < i < |s| ==> s[i] == '9' && t[i] == '0'
    ensures Value(t) == Value(s) + 1
  {
    var n := |s| - 1;
    if k == n {
      assert t[..n] == s[..n];
    } else {
      assert t[..n][..k] == t[..k] && s[..n][..k] == s[..k];
      CarryStops(s[..n], k, t[..n]);
    }
  }
}
