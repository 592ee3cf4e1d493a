/**
 When the parser stores the unit nearest to the number that is written.  Two things stand between: it keeps Digits10
 places, and a whole part that does not fit 64 bits counts as absent.
 */
module FixedPointNearest {
  import opened Arithmetic
  import opened Decimal
  import opened FixedPoint
  import opened FixedPointParse
  import opened FixedPointPrint
  import opened FixedPointRoundTrip

  // -------------------------------------------------------------- the number that is written

  /** All the places scaled into the representation, halves up. */
  function ScaledAll(c: Config, places: string): nat
    requires AllDigits(places)
  {
    Scaled(Value(places), Scale(c), Pow(10, |places|))
  }

  lemma AllDigitsAppend(a: string, b: string)
    requires AllDigits(a) && AllDigits(b)
    ensures AllDigits(a + b)
  {}

  /** The number a numeral spells, rounded to the nearest unit with halves away from zero and stored modulo 2^bits. */
  function Rounded(c: Config, n: Numeric): int
    requires WellFormed(n)
  {
    AllDigitsAppend(n.whole, n.places);
    ToRep(c, Stored(c, n.sign == "-", ScaledAllOf(c, n.whole, n.places)))
  }

  function ScaledAllOf(c: Config, whole: string, places: string): nat
    requires AllDigits(whole) && AllDigits(places)
  {
    AllDigitsAppend(whole, places);
    Scaled(Value(whole + places), Scale(c), Pow(10, |places|))
  }

  /** The whole part is one that std::from_chars can return. */
  predicate Fits(n: Numeric)
    requires WellFormed(n)
  {
    Value(n.whole) < 0x1_0000_0000_0000_0000
  }

  lemma {:induction false} ValueAppend(a: string, b: string)
    requires AllDigits(a) && AllDigits(b)
    ensures AllDigits(a + b) && Value(a + b) == Value(a) * Pow(10, |b|) + Value(b)
  {
    AllDigitsAppend(a, b);
    if b == "" {
      assert a + b == a;
    } else {
      var d := b[..|b| - 1];
      ValueAppend(a, d);
      assert (a + b)[..|a + b| - 1] == a + d;
      MulAssoc(Value(a), 10, Pow(10, |d|));
    }
  }

  /** The whole part is a number of units. */
  lemma ScaledWhole(w: nat, v: nat, scale: nat, divisor: nat)
    requires divisor >= 1
    ensures w * divisor + v >= 0 && Scaled(w * divisor + v, scale, divisor) == w * scale + Scaled(v, scale, divisor)
  {
    MulNonNeg(w, divisor);
    var a := v * scale + divisor / 2;
    MulNonNeg(v, scale);
    DivModLaw(a, divisor);
    Distribute(w * divisor, v, scale);
    assert (w * divisor) * scale == (w * scale) * divisor by {
      MulAssoc(scale, w, divisor);
    }
    Distribute(w * scale, a / divisor, divisor);
    DivModUnique((w * divisor + v) * scale + divisor / 2, divisor, w * scale + a / divisor, a % divisor);
  }

  lemma WholeAndPlaces(c: Config, whole: string, places: string)
    requires AllDigits(whole) && AllDigits(places)
    ensures ScaledAllOf(c, whole, places) == Value(whole) * Scale(c) + ScaledAll(c, places)
  {
    ValueAppend(whole, places);
    ScaledWhole(Value(whole), Value(places), Scale(c), Pow(10, |places|));
  }

  // -------------------------------------------------------------- dropped places

  /** Half a unit is an odd number of the last of fraction + 1 places. */
  lemma HalfUnit(c: Config) returns (h: nat)
    ensures h % 2 == 1 && h * (2 * Scale(c)) == Pow(10, c.fraction + 1)
  {
    var k := OddFactor(c);
    h := 5 * k;
    FiveTimes(k, h);
    TenTimes(k, Scale(c), Pow(10, c.fraction));
  }

  lemma OddFactor(c: Config) returns (k: nat)
    ensures k % 2 == 1 && k * Scale(c) == Pow(10, c.fraction)
  {
    k := if c.binary then Pow(5, c.fraction) else 1;
    PowMul(5, 2, c.fraction);
    OddPower(c.fraction);
  }

  lemma TenTimes(k: nat, s: nat, p: nat)
    requires k * s == p
    ensures (5 * k) * (2 * s) == 10 * p
  {
    MulAssoc(5 * k, 2, s);
    MulAssoc(10, k, s);
  }

  lemma {:induction false} OddPower(n: nat)
    ensures Pow(5, n) % 2 == 1
  {
    if n > 0 {
      OddPower(n - 1);
      FiveTimes(Pow(5, n - 1), Pow(5, n));
    }
  }

  lemma FiveTimes(p: nat, q: nat)
    requires p % 2 == 1 && q == 5 * p
    ensures q % 2 == 1
  {
    var i := p / 2;
    DivModLaw(p, 2);
    DivModUnique(q, 2, 5 * i + 2, 1);
  }

  /** If the kept places resolve half a unit, rounding is a matter of the number in them. */
  lemma ScaledCancel(v: nat, scale: nat, h: nat, divisor: nat)
    requires scale >= 1 && h >= 1 && divisor == (2 * h) * scale
    ensures divisor >= 1 && Scaled(v, scale, divisor) == (v + h) / (2 * h)
  {
    MulLe(1, 2 * h, scale);
    var r, m := (v + h) / (2 * h), (v + h) % (2 * h);
    DivModLaw(v + h, 2 * h);
    MulAssoc(2, h, scale);
    Distribute(v, h, scale);
    Distribute(r * (2 * h), m, scale);
    MulAssoc(r, 2 * h, scale);
    MulNonNeg(m, scale);
    MulLe(m + 1, 2 * h, scale);
    Distribute(m, 1, scale);
    assert divisor / 2 == h * scale;
    DivModUnique(v * scale + divisor / 2, divisor, r, m * scale);
  }

  /** Dividing in two steps. */
  lemma DivideTwice(a: nat, b: nat, q: nat, d: nat)
    requires b < q && d >= 1
    ensures d * q >= 1 && (a * q + b) / (d * q) == a / d
  {
    var r, m := a / d, a % d;
    DivModLaw(a, d);
    MulLe(1, d, q);
    Distribute(r * d, m, q);
    MulAssoc(r, d, q);
    MulNonNeg(m, q);
    MulLe(m + 1, d, q);
    Distribute(m, 1, q);
    DivModUnique(a * q + b, d * q, r, m * q + b);
  }

  lemma Resolved(c: Config) returns (h: nat)
    requires c.fraction < Digits10(c)
    ensures h >= 1 && (2 * h) * Scale(c) == Pow(10, Digits10(c))
  {
    var h0 := HalfUnit(c);
    var d, more := Digits10(c), Pow(10, Digits10(c) - c.fraction - 1);
    PowAdd(10, c.fraction + 1, d - c.fraction - 1);
    MulLe(1, h0, more);
    h := h0 * more;
    assert (2 * h) * Scale(c) == (h0 * (2 * Scale(c))) * more by {
      MulAssoc(2, h0 * more, Scale(c));
      MulAssoc(h0, more, 2 * Scale(c));
      MulAssoc(h0, 2 * Scale(c), more);
      MulAssoc(more, h0, 2 * Scale(c));
    }
  }

  /** No more places than are kept. */
  lemma FewPlaces(c: Config, places: string)
    requires AllDigits(places) && |places| <= Digits10(c)
    ensures ScaledPlaces(c, places) == ScaledAll(c, places)
  {
    assert places[..|places|] == places;
    if places == "" {
      DivModUnique(0, 1, 0, 0);
    }
  }

  /** Then the places dropped cannot change the result. */
  lemma DropsNothing(c: Config, places: string)
    requires c.fraction < Digits10(c) && AllDigits(places)
    ensures ScaledPlaces(c, places) == ScaledAll(c, places)
  {
    var d := Digits10(c);
    if |places| <= d {
      FewPlaces(c, places);
    } else {
      var kept, rest := places[..d], places[d..];
      var k, q := Value(kept), Pow(10, |rest|);
      var h := Resolved(c);
      assert places == kept + rest;
      ValueAppend(kept, rest);
      ValueBound(rest);
      PowAdd(10, d, |rest|);
      SameScaled(k, Value(rest), q, Scale(c), h, Pow(10, d), Pow(10, |places|));
    }
  }

  lemma SameScaled(k: nat, rest: nat, q: nat, scale: nat, h: nat, p: nat, wide: nat)
    requires scale >= 1 && h >= 1 && (2 * h) * scale == p && wide == p * q && rest < q
    ensures p >= 1 && wide >= 1 && k * q + rest >= 0 && Scaled(k * q + rest, scale, wide) == Scaled(k, scale, p)
  {
    MulLe(1, h, q);
    MulNonNeg(k, q);
    ScaledCancel(k, scale, h, p);
    WiderDivisor(h, scale, q, p);
    ScaledCancel(k * q + rest, scale, h * q, wide);
    MulAssoc(2, h, q);
    Distribute(k, h, q);
    DivideTwice(k + h, rest, q, 2 * h);
  }

  lemma WiderDivisor(h: nat, scale: nat, q: nat, p: nat)
    requires (2 * h) * scale == p
    ensures (2 * (h * q)) * scale == p * q
  {
    MulAssoc(2, h, q);
    MulAssoc(2 * h, q, scale);
    MulAssoc(2 * h, scale, q);
    MulAssoc(q, 2 * h, scale);
  }

  /** The places of half a unit. */
  function HalfPlaces(c: Config): (s: string)
    ensures |s| == c.fraction + 1 && AllDigits(s)
  {
    Leading(1, 2 * Scale(c), c.fraction + 1)
  }

  /** All of them round up to one unit. */
  lemma HalfRoundsUp(c: Config)
    ensures ScaledAll(c, HalfPlaces(c)) == 1
  {
    var s, k := Scale(c), c.fraction + 1;
    var h := HalfUnit(c);
    DivModUnique(Pow(10, k), 2 * s, h, 0);
    KeptBelow(1, 2 * s, k);
    DigitsValue(h, k);
    EvenPower(k);
    MulAssoc(h, 2, s);
    ScaledIsNearest(h, s, Pow(10, k), 1);
  }

  /** Too few places do not resolve it. */
  lemma Unresolved(c: Config, k: nat)
    requires k <= c.fraction
    ensures Left(1, 2 * Scale(c), k) > 0
  {
    var s, e := 2 * Scale(c), Pow(10, c.fraction + 1 - k);
    var h := HalfUnit(c);
    PowAdd(10, k, c.fraction + 1 - k);
    EvenPower(c.fraction + 1 - k);
    OddFactorOnly(h, s, e, Pow(10, k), Pow(10, c.fraction + 1));
  }

  /** If s takes an odd factor to an even multiple of p it does not divide p. */
  lemma OddFactorOnly(h: nat, s: nat, e: nat, p: nat, top: nat)
    requires s >= 1 && h % 2 == 1 && e % 2 == 0 && h * s == top == p * e
    ensures p % s != 0
  {
    var q, i := p / s, e / 2;
    DivModLaw(p, s);
    DivModLaw(e, 2);
    if p == q * s {
      MulAssoc(e, q, s);
      assert top == (q * e) * s by { MulAssoc(q, e, s); }
      DivModUnique(top, s, q * e, 0);
      DivModUnique(top, s, h, 0);
      MulAssoc(q, i, 2);
      DivModUnique(h, 2, q * i, 0);
      assert false;
    }
  }

  /** Half a unit is then read as nothing. */
  lemma DropMatters(c: Config)
    requires Digits10(c) <= c.fraction
    ensures ScaledPlaces(c, HalfPlaces(c)) == 0
  {
    var s, d := Scale(c), Digits10(c);
    var q, p := Kept(1, 2 * s, d), Pow(10, d);
    FewerPlaces(1, 2 * s, c.fraction + 1, d);
    KeptBelow(1, 2 * s, d);
    DigitsValue(q, d);
    Unresolved(c, d);
    DivModLaw(p, 2 * s);
    EvenPower(d);
    MulAssoc(q, 2, s);
    MulNonNeg(q, s);
    ScaledIsNearest(q, s, p, 0);
  }

  /** The places the parser drops never matter exactly if the type has fewer fractional digits than it keeps. */
  lemma DroppedPlaces(c: Config)
    ensures (forall places :: AllDigits(places) ==> ScaledPlaces(c, places) == ScaledAll(c, places)) <==>
            c.fraction < Digits10(c)
  {
    if c.fraction < Digits10(c) {
      forall places | AllDigits(places) ensures ScaledPlaces(c, places) == ScaledAll(c, places) {
        DropsNothing(c, places);
      }
    } else {
      HalfRoundsUp(c);
      DropMatters(c);
      assert ScaledPlaces(c, HalfPlaces(c)) != ScaledAll(c, HalfPlaces(c));
    }
  }

  // -------------------------------------------------------------- whole parts

  /** Equal representations are equal numbers modulo 2^bits. */
  lemma SameRep(c: Config, negative: bool, a: nat, b: nat)
    ensures ToRep(c, Stored(c, negative, a)) == ToRep(c, Stored(c, negative, b)) <==>
            (a - b) % Modulus(c) == 0
  {
    var m := Modulus(c);
    var x, y := a % m, b % m;
    SameRemainder(a, b, m);
    Negated(x, m);
    Negated(y, m);
  }

  lemma Negated(x: nat, m: nat)
    requires x < m
    ensures (0 - x) % m == if x == 0 then 0 else m - x
  {
    if x == 0 {
      DivModUnique(0, m, 0, 0);
    } else {
      DivModUnique(0 - x, m, -1, m - x);
    }
  }

  lemma MeaningIs(c: Config, n: Numeric)
    requires WellFormed(n)
    ensures Meaning(c, n) ==
            Combined(c, n.sign == "-", if Fits(n) then Value(n.whole) else 0, ScaledPlaces(c, n.places))
  {}

  /**
   A whole part that fits is read as it is; one that does not is read as zero, which is right exactly if it is a
   multiple of 2^bits units.  It is a failure only where no places follow.
   */
  lemma WideWhole(c: Config, n: Numeric)
    requires WellFormed(n)
    ensures Meaning(c, n) == Combined(c, n.sign == "-", Value(n.whole), ScaledPlaces(c, n.places)) <==>
            Fits(n) || (Value(n.whole) * Scale(c)) % Modulus(c) == 0
    ensures !Fits(n) ==> (Accepted(n) <==> n.places != "")
  {
    var w, f := Value(n.whole) * Scale(c), ScaledPlaces(c, n.places);
    MulNonNeg(Value(n.whole), Scale(c));
    SameRep(c, n.sign == "-", w + f, f);
    MeaningIs(c, n);
  }

  lemma LastDigit(s: string, t: string)
    requires |s| == |t| + 1 && AllDigits(s) && t == s[..|t|]
    ensures AllDigits(t) && Value(s) == 10 * Value(t) + DigitValue(s[|t|])
  {}

  lemma FourDigits(s: string)
    requires |s| == 4 && AllDigits(s)
    ensures Value(s) == 1000 * DigitValue(s[0]) + 100 * DigitValue(s[1]) + 10 * DigitValue(s[2]) + DigitValue(s[3])
  {
    LastDigit(s[..1], "");
    LastDigit(s[..2], s[..1]);
    LastDigit(s[..3], s[..2]);
    LastDigit(s, s[..3]);
  }

  lemma FourMore(a: string, b: string, t: string)
    requires AllDigits(a) && AllDigits(b) && |b| == 4 && t == a + b
    ensures AllDigits(t) && Value(t) == 10_000 * Value(a) + 1000 * DigitValue(b[0]) + 100 * DigitValue(b[1]) +
                                        10 * DigitValue(b[2]) + DigitValue(b[3])
  {
    FourDigits(b);
    TenThousand();
    ValueAppend(a, b);
  }

  lemma TenThousand()
    ensures Pow(10, 4) == 10_000
  {}

  lemma LeadingValue()
    ensures AllDigits("184467440737") && Value("184467440737") == 184467440737
  {
    FourMore("", "1844", "1844");
    FourMore("1844", "6744", "18446744");
    FourMore("18446744", "0737", "184467440737");
  }

  lemma WideValue()
    ensures AllDigits("18446744073709551617") && Value("18446744073709551617") == 0x1_0000_0000_0000_0001
  {
    LeadingValue();
    FourMore("184467440737", "0955", "1844674407370955");
    FourMore("1844674407370955", "1617", "18446744073709551617");
  }

  /** One place that is a five, in a type of halves. */
  lemma OneHalf()
    ensures var c := Config(false, 8, true, 1);
      Scale(c) == 2 && Valid(c) && AllDigits("5") && ScaledPlaces(c, "5") == 1 == ScaledAll(c, "5")
  {
    var c := Config(false, 8, true, 1);
    assert Pow(2, 1) == 2 && Pow(10, 1) == 10;
    DropsNothing(c, "5");
    assert "5"[..0] == "" && Value("5") == 5;
  }

  /** 2^64 + 1 and a half, in a type of halves: the half is stored, and not the three units left modulo 2^8. */
  lemma WideWholeIgnored()
    ensures var c, n := Config(false, 8, true, 1), Numeric("", "18446744073709551617", true, "5");
      && Valid(c) && WellFormed(n) && Spelled(n) == "18446744073709551617.5"
      && Denotes(c, "18446744073709551617.5", 1) && Rounded(c, n) == 3
  {
    var c, n := Config(false, 8, true, 1), Numeric("", "18446744073709551617", true, "5");
    WideValue();
    OneHalf();
    WideParts(c, n);
    assert Spelled(n) == "18446744073709551617.5";
  }

  lemma WideParts(c: Config, n: Numeric)
    requires c == Config(false, 8, true, 1) && Scale(c) == 2 && WellFormed(n) && n.sign == "" && n.places != ""
    requires Value(n.whole) == 0x1_0000_0000_0000_0001
    requires ScaledPlaces(c, n.places) == 1 == ScaledAll(c, n.places)
    ensures Accepted(n) && Meaning(c, n) == 1 && Rounded(c, n) == 3
  {
    WholeAndPlaces(c, n.whole, n.places);
    MeaningIs(c, n);
  }

  // -------------------------------------------------------------- the nearest unit

  /** In a type whose places are resolved what is stored is the nearest unit, up to whole parts that are too wide. */
  lemma MeaningIsNearest(c: Config, n: Numeric)
    requires WellFormed(n) && c.fraction < Digits10(c)
    ensures Meaning(c, n) == Rounded(c, n) <==> Fits(n) || (Value(n.whole) * Scale(c)) % Modulus(c) == 0
  {
    DropsNothing(c, n.places);
    WholeAndPlaces(c, n.whole, n.places);
    WideWhole(c, n);
  }

  /** The numeral with the places that are kept. */
  function Cut(c: Config, n: Numeric): Numeric {
    n.(places := if |n.places| <= Digits10(c) then n.places else n.places[..Digits10(c)])
  }

  /** In every type: what is stored is the nearest unit to the number cut off after Digits10 places. */
  lemma MeaningIsOfCut(c: Config, n: Numeric)
    requires WellFormed(n)
    ensures WellFormed(Cut(c, n)) && (|n.places| <= Digits10(c) ==> Cut(c, n) == n)
    ensures Meaning(c, n) == Rounded(c, Cut(c, n)) <==>
            Fits(n) || (Value(n.whole) * Scale(c)) % Modulus(c) == 0
  {
    var k := Cut(c, n);
    assert k.places[..|k.places|] == k.places && (n.places != "" ==> k.places != "");
    assert ScaledPlaces(c, n.places) == ScaledPlaces(c, k.places);
    FewPlaces(c, k.places);
    WholeAndPlaces(c, n.whole, k.places);
    WideWhole(c, n);
  }

  /** Every text of the type with a whole part that fits is read as the nearest unit. */
  ghost predicate ReadsNearest(c: Config) {
    forall n :: WellFormed(n) && Accepted(n) && Fits(n) ==> Meaning(c, n) == Rounded(c, n)
  }

  lemma HalfMisread(c: Config)
    requires Digits10(c) <= c.fraction
    ensures var n := Numeric("", "", true, HalfPlaces(c));
      WellFormed(n) && Accepted(n) && Fits(n) && Meaning(c, n) == 0 && Rounded(c, n) == 1
  {
    var n := Numeric("", "", true, HalfPlaces(c));
    DropMatters(c);
    HalfRoundsUp(c);
    WholeAndPlaces(c, "", n.places);
    MeaningIs(c, n);
    SmallRemainder(0, Modulus(c));
    SmallRemainder(1, Modulus(c));
  }

  /** The condition on the type. */
  lemma NearestIffResolved(c: Config)
    ensures ReadsNearest(c) <==> c.fraction < Digits10(c)
  {
    if c.fraction < Digits10(c) {
      forall n | WellFormed(n) && Accepted(n) && Fits(n) ensures Meaning(c, n) == Rounded(c, n) {
        MeaningIsNearest(c, n);
      }
    } else {
      HalfMisread(c);
    }
  }

  /** What such a text denotes, and nothing else. */
  lemma NearestText(c: Config, n: Numeric, v: int)
    requires WellFormed(n) && Accepted(n) && Fits(n) && c.fraction < Digits10(c)
    ensures Denotes(c, Spelled(n), v) <==> v == Rounded(c, n)
  {
    MeaningIsNearest(c, n);
    assert Spelled(n) == n.sign + (n.whole + (Tail(n.dotted, n.places) + "")) by {
      assert Tail(n.dotted, n.places) + "" == Tail(n.dotted, n.places);
    }
    Found(c, Spelled(n), n, "");
  }

  /** Of the aliases only the decimal ones read every text as the nearest unit. */
  lemma AliasNearest(c: Config)
    requires c in Aliases()
    ensures ReadsNearest(c) <==> !c.binary
  {
    NearestIffResolved(c);
  }

  lemma B16Digits()
    ensures Digits(1953125, 9) == "001953125"
  {
    assert Digits(195, 5) == "00195";
  }

  lemma B16Places()
    ensures HalfPlaces(Config(true, 16, true, 8)) == "001953125"
  {
    assert Pow(2, 8) == 256 && Pow(10, 9) == 1_000_000_000;
    assert Kept(1, 512, 9) == 1953125;
    B16Digits();
  }

  /** Half a unit of fixed_b16 is read as nothing, though all its places round up. */
  lemma HalfOfB16()
    ensures AllDigits("001953125")
    ensures var c := Config(true, 16, true, 8);
      Denotes(c, ".001953125", 0) && Rounded(c, Numeric("", "", true, "001953125")) == 1
  {
    var c := Config(true, 16, true, 8);
    B16Places();
    HalfMisread(c);
    assert Spelled(Numeric("", "", true, "001953125")) == ".001953125";
  }
}
