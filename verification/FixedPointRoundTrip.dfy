/**
 Parsing what was printed exactly.  The parser keeps Digits10 places of the fraction, so the law the two functions
 are for holds for a value exactly when what those places leave over rounds back.
 */
module FixedPointRoundTrip {
  import opened Arithmetic
  import opened Decimal
  import opened FixedPoint
  import opened FixedPointPrint
  import opened FixedPointParse
  import opened Wrappers

  /** What Digits10 places of the fractional part leave over is at most half a unit of the last of them. */
  predicate RoundsBack(c: Config, v: int) {
    2 * Left(FractionOf(c, v), Scale(c), Digits10(c)) <= Pow(10, Digits10(c))
  }

  /** The nearest multiple of 1 / scale to value / divisor, halves up: the error is at most half a unit. */
  lemma ScaledIsNearest(value: nat, scale: nat, divisor: nat, r: nat)
    requires divisor >= 2 && divisor % 2 == 0
    ensures var error: int, unit: int := 2 * (r * divisor - value * scale), divisor;
      r == Scaled(value, scale, divisor) <==> -unit < error <= unit
  {
    var a := value * scale + divisor / 2;
    DivModLaw(a, divisor);
    if r == Scaled(value, scale, divisor) {
    } else if 0 <= a - r * divisor < divisor {
      DivModUnique(a, divisor, r, a - r * divisor);
    }
  }

  lemma EvenPower(k: nat)
    requires k > 0
    ensures Pow(10, k) >= 2 && Pow(10, k) % 2 == 0
  {}

  /** k places of f / scale scale back to f iff they leave at most half a unit; otherwise to something less. */
  lemma ScaledBack(f: nat, scale: nat, k: nat)
    requires scale >= 1 && k > 0
    ensures var r := Scaled(Kept(f, scale, k), scale, Pow(10, k));
      r <= f && (r == f <==> 2 * Left(f, scale, k) <= Pow(10, k))
  {
    var p, q, l := Pow(10, k), Kept(f, scale, k), Left(f, scale, k);
    EvenPower(k);
    DivModLaw(f * p, scale);
    assert q * scale == f * p - l;
    ScaledIsNearest(q, scale, p, f);
    var r := Scaled(q, scale, p);
    ScaledIsNearest(q, scale, p, r);
    if r > f {
      MulLe(f + 1, r, p);
      Distribute(f, 1, p);
      assert false;
    }
  }

  /** What all the places of f / scale parse to. */
  lemma PlacesBack(c: Config, f: nat, n: nat)
    requires Valid(c) && f < Scale(c) && Terminates(f, Scale(c), n)
    ensures var r, d := ScaledPlaces(c, Leading(f, Scale(c), n)), Digits10(c);
      r <= f && (r == f <==> 2 * Left(f, Scale(c), d) <= Pow(10, d))
  {
    var s, d := Scale(c), Digits10(c);
    if n == 0 {
      SmallRemainder(f, s);
      assert Left(0, s, d) == 0;
    } else {
      var k := if n < d then n else d;
      FewerPlaces(f, s, n, k);
      ScaledBack(f, s, k);
      KeptBelow(f, s, k);
      DigitsValue(Kept(f, s, k), k);
      if n <= d {
        MorePlaces(f, s, n, d);
      }
    }
  }

  lemma KeptBelow(f: nat, scale: nat, k: nat)
    requires scale >= 1 && f < scale
    ensures Kept(f, scale, k) < Pow(10, k)
  {
    SmallRemainder(f, scale);
    SplitParts(f, scale, k);
  }

  /** The numeral that exact printing spells. */
  function Spelling(c: Config, v: int): Numeric {
    var places := Leading(FractionOf(c, v), Scale(c), Places(c, v, -1));
    Numeric(if v < 0 then "-" else "", Numeral(WholeOf(c, v)), places != "", places)
  }

  lemma ExactlyPlaces(c: Config, v: int)
    ensures Terminates(FractionOf(c, v), Scale(c), Places(c, v, -1))
    ensures WellFormed(Spelling(c, v)) && Printed(c, v, -1) == Spelled(Spelling(c, v))
  {
    var n := Places(c, v, -1);
    ScaleDivides(c, Abs(v));
    SplitParts(Abs(v), Scale(c), n);
    RoundedDown(Abs(v), Scale(c), n);
  }

  /** A magnitude is read back with its sign, the most negative value included; other numbers are read differently. */
  lemma SignBack(c: Config, v: int, magnitude: nat)
    requires InRep(c, v) && magnitude < Modulus(c)
    ensures ToRep(c, Stored(c, v < 0, magnitude)) == v <==> magnitude == Abs(v)
  {
    var m := Modulus(c);
    SmallRemainder(magnitude, m);
    if magnitude > 0 {
      DivModUnique(0 - magnitude, m, -1, m - magnitude);
    } else {
      SmallRemainder(0, m);
    }
  }

  /** The numeral spelled means v exactly when its places give the fraction back. */
  lemma SpellingMeans(c: Config, v: int)
    requires Valid(c) && InRep(c, v) && ScaledPlaces(c, Spelling(c, v).places) <= FractionOf(c, v)
    ensures WellFormed(Spelling(c, v)) && Accepted(Spelling(c, v))
    ensures Meaning(c, Spelling(c, v)) == v <==> ScaledPlaces(c, Spelling(c, v).places) == FractionOf(c, v)
  {
    var s, w := Scale(c), WholeOf(c, v);
    var combined := w * s + ScaledPlaces(c, Spelling(c, v).places);
    MulNonNeg(w, s);
    DivModLaw(Abs(v), s);
    QuotientBound(Abs(v), s);
    NumeralValue(w);
    SmallRemainder(combined, Modulus(c));
    SignBack(c, v, combined);
  }

  /** Printing exactly and parsing gives the stored integer back exactly when the kept places round back. */
  lemma RoundTrip(c: Config, v: int)
    requires Valid(c) && InRep(c, v)
    ensures Denotes(c, Printed(c, v, -1), v) <==> RoundsBack(c, v)
  {
    var n := Spelling(c, v);
    ExactlyPlaces(c, v);
    PlacesBack(c, FractionOf(c, v), Places(c, v, -1));
    SpellingMeans(c, v);
    assert Printed(c, v, -1) == n.sign + (n.whole + (Tail(n.dotted, n.places) + "")) by {
      assert Tail(n.dotted, n.places) + "" == Tail(n.dotted, n.places);
    }
    Found(c, Printed(c, v, -1), n, "");
  }

  /** operator<< followed by operator>>. */
  method WriteAndRead(c: Config, v: int) returns (r: Option<int>)
    requires Valid(c) && InRep(c, v)
    ensures r == Some(v) <==> RoundsBack(c, v)
  {
    var buffer := new char[MaxChars(c)];
    var length := ToChars(c, v, -1, buffer);
    r := FromChars(c, buffer[..length]);
    RoundTrip(c, v);
  }

  /** Whatever the value: with at most Digits10 places, or a scale of which Digits10 digits resolve the half. */
  lemma RoundTripAlways(c: Config, v: int)
    requires Valid(c) && InRep(c, v)
    requires c.fraction <= Digits10(c) || 2 * Scale(c) <= Pow(10, Digits10(c))
    ensures Denotes(c, Printed(c, v, -1), v)
  {
    if c.fraction <= Digits10(c) {
      var f := FractionOf(c, v);
      ScaleDivides(c, f);
      MorePlaces(f, Scale(c), c.fraction, Digits10(c));
    }
    RoundTrip(c, v);
  }

  /** Every decimal type prints and parses without loss. */
  lemma DecimalRoundTrip(c: Config, v: int)
    requires Valid(c) && InRep(c, v) && !c.binary
    ensures Denotes(c, Printed(c, v, -1), v)
  {
    DecimalFits(c);
    RoundTripAlways(c, v);
  }

  /** fixed_b16, fixed_b32, fixed_b64, fixed_d32 and fixed_d64. */
  function Aliases(): set<Config> {
    {Config(true, 16, true, 8), Config(true, 32, true, 16), Config(true, 64, true, 32),
     Config(true, 32, false, 3), Config(true, 64, false, 9)}
  }

  lemma AliasRoundTrip(c: Config, v: int)
    requires c in Aliases() && InRep(c, v)
    ensures Valid(c) && Denotes(c, Printed(c, v, -1), v)
  {
    TenthsAndHalves();
    RoundTripAlways(c, v);
  }

  lemma TenthsAndHalves()
    ensures Pow(2, 8) == 0x100 && Pow(2, 16) == 0x1_0000 && Pow(2, 32) == 0x1_0000_0000
    ensures Pow(10, 3) == 1000 && Pow(10, 4) == 10_000 && Pow(10, 9) == 1_000_000_000
    ensures Pow(10, 19) == 10_000_000_000_000_000_000
  {
    PowAdd(2, 8, 8);
    PowAdd(2, 16, 16);
    PowAdd(10, 4, 5);
    PowAdd(10, 9, 10);
  }

  /** Two digits do not resolve 1/128: with 8 bits, 7 of them fractional, 1 prints as 0.0078125 and parses as 0. */
  lemma LossyRoundTrip()
    ensures var c := Config(false, 8, true, 7);
      Valid(c) && InRep(c, 1) && !Denotes(c, Printed(c, 1, -1), 1)
  {
    var c := Config(false, 8, true, 7);
    assert Pow(2, 7) == 128 && Pow(10, 2) == 100;
    assert FractionOf(c, 1) == 1 && Left(1, 128, 2) == 100;
    RoundTrip(c, 1);
  }
}
