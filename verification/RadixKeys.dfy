/**
 The unsigned keys that radix_sort sorts by, and the order of the original keys that they preserve.
 */
module RadixKeys {
  import opened Arithmetic
  import opened Bits

  /** Unsigned and signed integers of `bits` bits; IEEE 754 binary formats by the widths of their two fields. */
  datatype Kind =
    | Boolean
    | Unsigned(bits: nat)
    | Signed(bits: nat)
    | Floating(exponent: nat, mantissa: nat)

  const FLOAT32 := Floating(8, 23)
  const FLOAT64 := Floating(11, 52)

  predicate Supported(k: Kind) {
    match k
    case Boolean => true
    case Unsigned(b) => b in {8, 16, 32, 64}
    case Signed(b) => b in {8, 16, 32, 64}
    case Floating(_, _) => k == FLOAT32 || k == FLOAT64
  }

  function Width(k: Kind): nat {
    match k
    case Boolean => 1
    case Unsigned(b) => b
    case Signed(b) => b
    case Floating(e, m) => e + m + 1
  }

  /** sizeof(key_type). */
  function KeySize(k: Kind): nat {
    if k.Boolean? then 1 else Width(k) / 8
  }

  /** Bytes of the radix key; the xor on a signed 16-bit key is done in int. */
  function KeyBytes(k: Kind): nat {
    if k == Signed(16) then 4 else KeySize(k)
  }

  /** The pattern of infinity. */
  function Infinity(exponent: nat, mantissa: nat): nat {
    var top := Pow2(exponent) - 1;
    MulNonNeg(top, Pow2(mantissa));
    top * Pow2(mantissa)
  }

  /** Keys are numbers; a floating key is its bit pattern, any one. */
  predicate IsKey(k: Kind, x: int) {
    match k
    case Boolean => 0 <= x <= 1
    case Unsigned(b) => 0 <= x < Pow2(b)
    case Signed(b) => b > 0 && 0 <= x + Pow2(b - 1) < 2 * Pow2(b - 1)
    case Floating(e, m) => 0 <= x < Pow2(e + m + 1)
  }

  function ToRadix(k: Kind, x: int): nat
    requires IsKey(k, x)
  {
    match k
    case Boolean => x
    case Unsigned(_) => x
    case Signed(b) => Xor(x % Pow2(b), Pow2(b - 1))
    case Floating(e, m) =>
      var sign := Pow2(e + m);
      Xor(x, if x >= sign then 2 * sign - 1 else sign)
  }

  // -------------------------------------------------------------- what the keys mean

  predicate Negative(k: Kind, x: int) {
    k.Floating? && x >= Pow2(k.exponent + k.mantissa)
  }

  predicate NotANumber(k: Kind, x: int) {
    k.Floating? && (if Negative(k, x) then x - Pow2(k.exponent + k.mantissa) else x) > Infinity(k.exponent, k.mantissa)
  }

  /** A floating bit pattern without its sign, in units of the smallest subnormal; infinity is the next binade. */
  function Units(mantissa: nat, x: nat): nat {
    var e, f := x / Pow2(mantissa), x % Pow2(mantissa);
    if e <= 0 then f else (Pow2(mantissa) + f) * Pow2(e - 1)
  }

  /** The number a key stands for; a NaN is placed beyond infinity by its pattern. */
  function Number(k: Kind, x: int): int
    requires IsKey(k, x)
  {
    match k
    case Floating(e, m) =>
      var sign := Pow2(e + m);
      if x >= sign then 0 - Units(m, x - sign) else Units(m, x)
    case _ => x
  }

  predicate NegativeZero(k: Kind, x: int) {
    k.Floating? && x == Pow2(k.exponent + k.mantissa)
  }

  /** The order of the keys: that of the numbers, with -0 before +0. */
  predicate Before(k: Kind, x: int, y: int)
    requires IsKey(k, x) && IsKey(k, y)
  {
    Number(k, x) < Number(k, y) || (Number(k, x) == Number(k, y) && NegativeZero(k, x) && !NegativeZero(k, y))
  }

  // -------------------------------------------------------------- without bit operations

  /** The radix key, without bit operations. */
  lemma SignedRadix(bits: nat, x: int)
    requires IsKey(Signed(bits), x)
    ensures ToRadix(Signed(bits), x) == x + Pow2(bits - 1)
  {
    DivModUnique(x, Pow2(bits), if x < 0 then -1 else 0, if x < 0 then x + Pow2(bits) else x);
    XorTop(x % Pow2(bits), bits - 1);
  }

  lemma FloatingRadix(e: nat, m: nat, x: int)
    requires IsKey(Floating(e, m), x)
    ensures var sign := Pow2(e + m);
      ToRadix(Floating(e, m), x) == if x >= sign then 2 * sign - 1 - x else x + sign
  {
    XorTop(x, e + m);
    XorOnes(x, e + m + 1);
  }

  lemma {:induction false} Pow2Add(m: nat, n: nat)
    ensures Pow2(m + n) == Pow2(m) * Pow2(n)
  {
    if m > 0 {
      Pow2Add(m - 1, n);
      MulAssoc(2, Pow2(m - 1), Pow2(n));
    }
  }

  /** Adjacent bit patterns are in order, within a binade and across its end. */
  lemma NextUnits(m: nat, x: nat)
    ensures Units(m, x) < Units(m, x + 1)
  {
    var p := Pow2(m);
    var e, f := x / p, x % p;
    DivModLaw(x, p);
    if f + 1 < p {
      DivModUnique(x + 1, p, e, f + 1);
      if e > 0 {
        Distribute(p + f, 1, Pow2(e - 1));
      }
    } else {
      Distribute(e, 1, p);
      DivModUnique(x + 1, p, e + 1, 0);
      if e > 0 {
        Distribute(p + f, 1, Pow2(e - 1));
        MulAssoc(p, 2, Pow2(e - 1));
        MulAssoc(2, p, Pow2(e - 1));
      }
    }
  }

  lemma {:induction false} UnitsMonotone(m: nat, x: nat, y: nat)
    requires x < y
    ensures Units(m, x) < Units(m, y)
    decreases y - x
  {
    NextUnits(m, y - 1);
    if x < y - 1 {
      UnitsMonotone(m, x, y - 1);
    }
  }

  lemma UnitsZero(m: nat)
    ensures Units(m, 0) == 0
  {
    DivModUnique(0, Pow2(m), 0, 0);
  }

  lemma UnitsOrder(m: nat, x: nat, y: nat)
    ensures x < y <==> Units(m, x) < Units(m, y)
    ensures x == y <==> Units(m, x) == Units(m, y)
  {
    if x < y {
      UnitsMonotone(m, x, y);
    } else if y < x {
      UnitsMonotone(m, y, x);
    }
  }

  /** Radix keys are ordered exactly as the keys are. */
  lemma RadixOrder(k: Kind, x: int, y: int)
    requires IsKey(k, x) && IsKey(k, y)
    ensures ToRadix(k, x) < ToRadix(k, y) <==> Before(k, x, y)
    ensures ToRadix(k, x) == ToRadix(k, y) <==> x == y
  {
    match k {
      case Signed(b) =>
        SignedRadix(b, x);
        SignedRadix(b, y);
      case Floating(e, m) =>
        FloatingRadix(e, m, x);
        FloatingRadix(e, m, y);
        MagnitudesOrder(e, m, x, y);
      case _ =>
    }
  }

  lemma MagnitudesOrder(e: nat, m: nat, x: int, y: int)
    requires IsKey(Floating(e, m), x) && IsKey(Floating(e, m), y)
    ensures var sign := Pow2(e + m);
      Before(Floating(e, m), x, y) <==>
        if x >= sign then y < sign || x > y else y < sign && x < y
  {
    var sign := Pow2(e + m);
    var a, b := if x >= sign then x - sign else x, if y >= sign then y - sign else y;
    UnitsZero(m);
    UnitsOrder(m, a, b);
    UnitsOrder(m, b, a);
    UnitsOrder(m, 0, a);
    UnitsOrder(m, 0, b);
  }

  /** NaNs come first or last, according to their sign. */
  lemma NotANumberOutside(k: Kind, x: int, y: int)
    requires IsKey(k, x) && IsKey(k, y) && NotANumber(k, x) && !NotANumber(k, y)
    ensures Before(k, x, y) <==> Negative(k, x)
    ensures Before(k, y, x) <==> !Negative(k, x)
  {
    MagnitudesOrder(k.exponent, k.mantissa, x, y);
    MagnitudesOrder(k.exponent, k.mantissa, y, x);
  }

  lemma RadixWidth(k: Kind, x: int)
    requires IsKey(k, x)
    ensures ToRadix(k, x) < Pow2(Width(k))
  {
    match k {
      case Boolean => assert Pow2(1) == 2 * Pow2(0);
      case Unsigned(_) =>
      case Signed(b) => SignedRadix(b, x);
      case Floating(e, m) => FloatingRadix(e, m, x);
    }
  }

  /** Every key fits the bytes that are sorted. */
  lemma RadixFits(k: Kind, x: int)
    requires IsKey(k, x) && Supported(k)
    ensures ToRadix(k, x) < Pow2(8 * KeyBytes(k))
  {
    RadixWidth(k, x);
    WidthFits(k);
    Pow2Mono(Width(k), 8 * KeyBytes(k));
  }

  lemma WidthFits(k: Kind)
    requires Supported(k)
    ensures Width(k) <= 8 * KeyBytes(k)
  {}
}
