/** The configurations of fixed_point and the parts of a value that the printer and the parser use. */
module FixedPoint {
  import opened Arithmetic
  import opened Decimal

  /** Rep is an integer of `bits` bits; the stored integer is the value times radix^fraction. */
  datatype Config = Config(signed: bool, bits: nat, binary: bool, fraction: nat)

  function Scale(c: Config): (r: nat)
    ensures r >= 1
  {
    Pow(if c.binary then 2 else 10, c.fraction)
  }

  /** 2^bits. */
  function Modulus(c: Config): (m: nat)
    ensures m >= 2 && m % 2 == 0
  {
    match c.bits
    case 8 => 0x100
    case 16 => 0x1_0000
    case 32 => 0x1_0000_0000
    case _ => 0x1_0000_0000_0000_0000
  }

  function MaxRep(c: Config): nat {
    if c.signed then Modulus(c) / 2 - 1 else Modulus(c) - 1
  }

  /** numeric_limits<unsigned Rep>::digits10. */
  function Digits10(c: Config): nat {
    match c.bits
    case 8 => 2
    case 16 => 4
    case 32 => 9
    case _ => 19
  }

  /** The class's static assertions. */
  predicate Valid(c: Config) {
    c.bits in {8, 16, 32, 64} && Scale(c) <= MaxRep(c)
  }

  predicate InRep(c: Config, v: int) {
    (if c.signed then -(Modulus(c) / 2) else 0) <= v <= MaxRep(c)
  }

  function Abs(v: int): nat {
    if v < 0 then -v else v
  }

  /** Division truncated toward zero. */
  function Quotient(a: int, b: int): int
    requires b > 0
  {
    if a < 0 then -((-a) / b) else a / b
  }

  function Remainder(a: int, b: int): int
    requires b > 0
  {
    if a < 0 then -((-a) % b) else a % b
  }

  function IntegerPart(c: Config, v: int): int {
    Quotient(v, Scale(c))
  }

  function FractionalPart(c: Config, v: int): int {
    Remainder(v, Scale(c))
  }

  function Units(m: nat, scale: nat): nat
    requires scale >= 1
  {
    QuotientBound(m, scale);
    m / scale
  }

  /** Whole part and fraction of the magnitude. */
  function WholeOf(c: Config, v: int): nat {
    Units(Abs(v), Scale(c))
  }

  function FractionOf(c: Config, v: int): (f: nat)
    ensures f < Scale(c)
  {
    Abs(v) % Scale(c)
  }

  /** fixed_point_magnitude: negation in the unsigned type. */
  function Magnitude(c: Config, value: int): nat {
    var bits := value % Modulus(c);
    if value < 0 then (0 - bits) % Modulus(c) else bits
  }

  /** The magnitude is the absolute value, the most negative value included. */
  lemma MagnitudeIsAbs(c: Config, value: int)
    requires InRep(c, value)
    ensures Magnitude(c, value) == Abs(value)
  {
    var m := Modulus(c);
    if value < 0 {
      DivModUnique(value, m, -1, value + m);
      DivModUnique(0 - (value + m), m, -1, -value);
    } else {
      DivModUnique(value, m, 0, value);
    }
  }

  /** Both parts keep the sign of the value, and their magnitudes split its magnitude. */
  lemma Parts(c: Config, v: int)
    requires InRep(c, v)
    ensures Magnitude(c, IntegerPart(c, v)) == WholeOf(c, v)
    ensures Magnitude(c, FractionalPart(c, v)) == FractionOf(c, v)
    ensures v == IntegerPart(c, v) * Scale(c) + FractionalPart(c, v)
  {
    var s, m := Scale(c), Abs(v);
    QuotientBound(m, s);
    MagnitudeIsAbs(c, IntegerPart(c, v));
    MagnitudeIsAbs(c, FractionalPart(c, v));
    DivModLaw(m, s);
    Distribute(0, m / s, s);
  }

  lemma QuotientBound(m: nat, s: nat)
    requires s >= 1
    ensures 0 <= m / s <= m && 0 <= m % s <= m
  {
    DivModLaw(m, s);
    MulNonNeg(m / s, s);
    MulLe(1, s, m / s);
  }

  lemma TenthPowers(c: Config)
    requires Valid(c)
    ensures Pow(10, Digits10(c)) < Modulus(c) < Pow(10, Digits10(c) + 1)
  {
    assert Pow(10, 2) == 100 && Pow(10, 3) == 1000;
    assert Pow(10, 5) == 100_000;
    PowAdd(10, 5, 5);
    PowAdd(10, 10, 10);
    assert Pow(10, 10) == 10 * Pow(10, 9);
    assert Pow(10, 20) == 10 * Pow(10, 19);
  }

  lemma {:induction false} PowMono(b: nat, m: nat, n: nat)
    requires b >= 1 && m <= n
    ensures Pow(b, m) <= Pow(b, n)
  {
    if m < n {
      PowMono(b, m, n - 1);
      MulLe(1, b, Pow(b, n - 1));
    }
  }

  /** Every scale divides 10^fraction, so the fractional part ends within `fraction` decimal digits. */
  lemma ScaleDivides(c: Config, m: nat)
    ensures (m * Pow(10, c.fraction)) % Scale(c) == 0
  {
    var s, p := Scale(c), Pow(10, c.fraction);
    var k := if c.binary then Pow(5, c.fraction) else 1;
    PowMul(5, 2, c.fraction);
    assert p == k * s;
    MulAssoc(m, k, s);
    DivModUnique(m * p, s, m * k, 0);
  }

  /** A decimal scale has at most Digits10 digits. */
  lemma DecimalFits(c: Config)
    requires Valid(c) && !c.binary
    ensures c.fraction <= Digits10(c)
  {
    TenthPowers(c);
    if c.fraction > Digits10(c) {
      PowMono(10, Digits10(c) + 1, c.fraction);
      assert false;
    }
  }
}
