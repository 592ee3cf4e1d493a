/**
 fixed_point_to_chars.  The specification knows nothing of long division or carries: the text is the decimal
 numeral, with a chosen number of places, of the magnitude rounded to that many places.
 */
module FixedPointPrint {
  import opened Arithmetic
  import opened Decimal
  import opened FixedPoint

  // -------------------------------------------------------------- specification

  /** m / scale in units of 10^-n, rounded to the nearest with halves up. */
  function Nearest(m: nat, scale: nat, n: nat): nat
    requires scale >= 1
  {
    (2 * (m * Pow(10, n)) + scale) / (2 * scale)
  }

  /** r units of 10^-n, written with n places. */
  function Shown(r: nat, n: nat): (s: string) {
    Numeral(r / Pow(10, n)) + if n == 0 then "" else "." + Digits(r, n)
  }

  /** What n steps of long division have produced and left over. */
  function Kept(x: nat, scale: nat, n: nat): nat
    requires scale >= 1
  {
    MulNonNeg(x, Pow(10, n));
    DivMono(0, x * Pow(10, n), scale);
    x * Pow(10, n) / scale
  }

  function Left(x: nat, scale: nat, n: nat): (r: nat)
    requires scale >= 1
    ensures r < scale
  {
    x * Pow(10, n) % scale
  }

  predicate Terminates(m: nat, scale: nat, n: nat)
    requires scale >= 1
  {
    Left(m, scale, n) == 0
  }

  /** The least number of places that shows m / scale exactly, searched downwards from n. */
  function LeastPlaces(m: nat, scale: nat, n: nat): (r: nat)
    requires scale >= 1 && Terminates(m, scale, n)
    ensures r <= n && Terminates(m, scale, r)
  {
    if n > 0 && Terminates(m, scale, n - 1) then LeastPlaces(m, scale, n - 1) else n
  }

  /** Places printed: a type without fraction never gets to the precision, see `PrecisionKept`. */
  function Places(c: Config, v: int, precision: int): (n: nat)
    ensures precision <= c.fraction ==> n <= c.fraction
  {
    if c.fraction == 0 then 0
    else if precision >= 0 then precision
    else
      ScaleDivides(c, Abs(v));
      LeastPlaces(Abs(v), Scale(c), c.fraction)
  }

  function Printed(c: Config, v: int, precision: int): string {
    var n := Places(c, v, precision);
    (if v < 0 then "-" else "") + Shown(Nearest(Abs(v), Scale(c), n), n)
  }

  // -------------------------------------------------------------- what the specification means

  /** The text has that many digits after a point, or no point. */
  predicate HasPlaces(s: string, n: nat) {
    if n == 0 then '.' !in s else |s| > n && s[|s| - 1 - n] == '.' && AllDigits(s[|s| - n..])
  }

  lemma PrintedPlaces(c: Config, v: int, precision: int)
    ensures HasPlaces(Printed(c, v, precision), Places(c, v, precision))
  {
    var n := Places(c, v, precision);
    var r := Nearest(Abs(v), Scale(c), n);
    var s, whole := Printed(c, v, precision), Numeral(r / Pow(10, n));
    assert '.' !in whole by { assert forall i :: 0 <= i < |whole| ==> IsDigit(whole[i]); }
    if n > 0 {
      assert s[|s| - n..] == Digits(r, n);
    }
  }

  /** A precision is honoured exactly by the types with a fraction; the others print no point whatever is asked for. */
  lemma PrecisionKept(c: Config, v: int, precision: int)
    requires precision >= 0
    ensures HasPlaces(Printed(c, v, precision), precision) <==> c.fraction > 0 || precision == 0
    ensures Places(c, v, precision) == precision <==> c.fraction > 0 || precision == 0
  {
    PrintedPlaces(c, v, precision);
    if c.fraction == 0 && precision > 0 {
      var s := Printed(c, v, precision);
      assert '.' !in s;
    }
  }

  /** Two places asked of a 32-bit integer: none are printed. */
  lemma PrecisionIgnored()
    ensures Printed(Config(true, 32, true, 0), 5, 2) == "5" && !HasPlaces("5", 2)
  {
    var c := Config(true, 32, true, 0);
    assert Places(c, 5, 2) == 0 && Scale(c) == 1 && Pow(10, 0) == 1;
    assert Nearest(5, 1, 0) == 5;
    assert Numeral(5) == "5";
  }

  /** Nearest is within half a unit, and an exact half goes away from zero; no other integer has both properties. */
  lemma NearestIsNearest(m: nat, scale: nat, n: nat, r: nat)
    requires scale >= 1
    ensures var error: int, half: int := 2 * (r * scale - m * Pow(10, n)), scale;
      r == Nearest(m, scale, n) <==> -half < error <= half
  {
    var a := 2 * (m * Pow(10, n)) + scale;
    DivModLaw(a, 2 * scale);
    MulAssoc(a / (2 * scale), 2, scale);
    MulAssoc(r, 2, scale);
    if r == Nearest(m, scale, n) {
    } else if 0 <= a - r * (2 * scale) < 2 * scale {
      DivModUnique(a, 2 * scale, r, a - r * (2 * scale));
    }
  }

  /** Reading the shown digits back gives the number of units. */
  lemma ShownReads(r: nat, n: nat)
    ensures var whole := Numeral(r / Pow(10, n));
      Value(whole) * Pow(10, n) + Value(Digits(r, n)) == r
  {
    var p := Pow(10, n);
    NumeralValue(r / p);
    DivModLaw(r, p);
    LowDigits(r / p, r % p, n);
    DigitsValue(r % p, n);
  }

  lemma {:induction false} MorePlaces(m: nat, scale: nat, k: nat, n: nat)
    requires scale >= 1 && k <= n && Terminates(m, scale, k)
    ensures Terminates(m, scale, n)
  {
    if k < n {
      MorePlaces(m, scale, k, n - 1);
      LongDivision(m, scale, n - 1);
    }
  }

  /** LeastPlaces is the least: with fewer places something is left over. */
  lemma {:induction false} LeastPlacesIsLeast(m: nat, scale: nat, n: nat, k: nat)
    requires scale >= 1 && Terminates(m, scale, n) && k < LeastPlaces(m, scale, n)
    ensures !Terminates(m, scale, k)
  {
    if Terminates(m, scale, n - 1) {
      LeastPlacesIsLeast(m, scale, n - 1, k);
    } else if Terminates(m, scale, k) {
      MorePlaces(m, scale, k, n - 1);
    }
  }

  // -------------------------------------------------------------- long division

  /** One step: the next digit is remainder * 10 / scale. */
  lemma LongDivision(x: nat, scale: nat, k: nat)
    requires scale >= 1
    ensures var q, rem := Kept(x, scale, k), Left(x, scale, k);
      && Kept(x, scale, k + 1) == 10 * q + (rem * 10) / scale
      && Left(x, scale, k + 1) == (rem * 10) % scale
      && 0 <= (rem * 10) / scale < 10
  {
    var y := x * Pow(10, k);
    var q, rem := y / scale, y % scale;
    var d, r := (rem * 10) / scale, (rem * 10) % scale;
    MulAssoc(x, 10, Pow(10, k));
    DivModLaw(y, scale);
    DivModLaw(rem * 10, scale);
    MulAssoc(10, q, scale);
    Distribute(10 * q, d, scale);
    DivModUnique(10 * y, scale, 10 * q + d, r);
    if d >= 10 {
      MulLe(10, d, scale);
      assert false;
    }
    if d < 0 {
      MulLe(d, -1, scale);
      assert false;
    }
  }

  /** The first n places of the fractional part. */
  function Leading(f: nat, scale: nat, n: nat): (s: string)
    requires scale >= 1
    ensures |s| == n && AllDigits(s)
  {
    Digits(Kept(f, scale, n), n)
  }

  /** Each step of the division appends a place. */
  lemma NextPlace(f: nat, scale: nat, k: nat)
    requires scale >= 1
    ensures var rem := Left(f, scale, k);
      && rem * 10 / scale < 10
      && Leading(f, scale, k + 1) == Leading(f, scale, k) + [Digit(rem * 10 / scale)]
      && Left(f, scale, k + 1) == (rem * 10) % scale
  {
    LongDivision(f, scale, k);
    DivModUnique(Kept(f, scale, k + 1), 10, Kept(f, scale, k), Left(f, scale, k) * 10 / scale);
  }

  lemma {:induction false} FewerPlaces(f: nat, scale: nat, n: nat, k: nat)
    requires scale >= 1 && k <= n
    ensures Leading(f, scale, n)[..k] == Leading(f, scale, k)
  {
    if k < n {
      NextPlace(f, scale, n - 1);
      FewerPlaces(f, scale, n - 1, k);
      assert Leading(f, scale, n)[..k] == Leading(f, scale, n)[..n - 1][..k];
    }
  }

  /** The whole part and the places printed are those of m / scale. */
  lemma SplitParts(m: nat, scale: nat, n: nat)
    requires scale >= 1
    ensures var f := m % scale;
      && Kept(m, scale, n) == (m / scale) * Pow(10, n) + Kept(f, scale, n)
      && Left(m, scale, n) == Left(f, scale, n)
      && Kept(f, scale, n) < Pow(10, n)
  {
    var p, w, f := Pow(10, n), m / scale, m % scale;
    var q, r := (f * p) / scale, (f * p) % scale;
    DivModLaw(m, scale);
    DivModLaw(f * p, scale);
    Distribute(w * scale, f, p);
    MulAssoc(w, scale, p);
    MulAssoc(scale, w, p);
    Distribute(w * p, q, scale);
    DivModUnique(m * p, scale, w * p + q, r);
    if q >= p {
      MulLe(p, q, scale);
      MulLe(f, scale - 1, p);
      Distribute(scale, 1, p);
      assert false;
    }
  }

  lemma NearestSteps(m: nat, scale: nat, n: nat)
    requires scale >= 1
    ensures var q, r := Kept(m, scale, n), Left(m, scale, n);
      Nearest(m, scale, n) == q + if 2 * r >= scale then 1 else 0
  {
    var a := m * Pow(10, n);
    var q, r := a / scale, a % scale;
    DivModLaw(a, scale);
    MulAssoc(q, 2, scale);
    Distribute(q, 1, 2 * scale);
    if 2 * r >= scale {
      DivModUnique(2 * a + scale, 2 * scale, q + 1, 2 * r - scale);
    } else {
      DivModUnique(2 * a + scale, 2 * scale, q, 2 * r + scale);
    }
  }

  lemma ShownParts(w: nat, f: nat, n: nat)
    requires f < Pow(10, n)
    ensures Shown(w * Pow(10, n) + f, n) == Numeral(w) + if n == 0 then "" else "." + Digits(f, n)
  {
    DivModUnique(w * Pow(10, n) + f, Pow(10, n), w, f);
    LowDigits(w, f, n);
  }

  // -------------------------------------------------------------- the algorithm

  /** fixed_point_carry_increment: one is added to the digit string; true if the carry leaves it. */
  method CarryIncrement(digits: array<char>, count: nat) returns (carried: bool)
    requires count <= digits.Length && AllDigits(digits[..count])
    modifies digits
    ensures AllDigits(digits[..count]) && digits[count..] == old(digits[count..])
    ensures carried <==> old(Value(digits[..count])) + 1 == Pow(10, count)
    ensures Value(digits[..count]) == if carried then 0 else old(Value(digits[..count])) + 1
  {
    ghost var s := digits[..count];
    ghost var rest := digits[count..];
    var k := count;
    while k > 0
      invariant 0 <= k <= count && digits[..k] == s[..k] && digits[count..] == rest
      invariant forall i :: k <= i < count ==> s[i] == '9' && digits[i] == '0'
    {
      k := k - 1;
      assert digits[k] == s[k];
      if digits[k] != '9' {
        assert IsDigit(s[k]);
        digits[k] := (digits[k] as int + 1) as char;
        assert AllDigits(s) && IsDigit(digits[k]);
        assert digits[..count][..k] == s[..k] && digits[..count][k] == digits[k];
        Incremented(s, k, digits[..count]);
        return false;
      }
      digits[k] := '0';
    }
    AllNines(s, digits[..count]);
    return true;
  }

  /** The digit before trailing nines goes up by one and the nines become zeros. */
  lemma Incremented(s: string, k: nat, t: string)
    requires k < |s| == |t| && AllDigits(s) && s[k] != '9'
    requires t[..k] == s[..k] && IsDigit(t[k]) && DigitValue(t[k]) == DigitValue(s[k]) + 1
    requires forall i :: k < i < |s| ==> s[i] == '9' && t[i] == '0'
    ensures AllDigits(t) && Value(t) == Value(s) + 1 && Value(s) + 1 < Pow(10, |s|)
  {
    forall i | 0 <= i < |t| ensures IsDigit(t[i]) {
      if i < k {
        assert t[i] == t[..k][i] == s[..k][i];
      }
    }
    CarryStops(s, k, t);
    ValueBound(t);
  }

  /** remainder * 10 stays inside the wider type. */
  lemma WideIsEnough(c: Config, remainder: nat)
    requires Valid(c) && remainder < Scale(c)
    ensures remainder * 10 <= if c.signed then Modulus(c) * Modulus(c) / 2 - 1 else Modulus(c) * Modulus(c) - 1
  {
    MulLe(0x100, Modulus(c), Modulus(c));
  }

  /** fixed_point_fill_fraction: after i steps the array holds the first i places, for every i. */
  method FillFraction(c: Config, v: int) returns (digits: array<char>)
    requires Valid(c) && InRep(c, v)
    ensures fresh(digits) && digits.Length == c.fraction
    ensures digits[..] == Leading(FractionOf(c, v), Scale(c), c.fraction)
  {
    var scale := Scale(c);
    ghost var f := FractionOf(c, v);
    digits := new char[c.fraction];
    Parts(c, v);
    var remainder := Magnitude(c, FractionalPart(c, v));
    DivModUnique(f, scale, 0, f);
    for i := 0 to c.fraction
      invariant remainder == Left(f, scale, i)
      invariant digits[..i] == Leading(f, scale, i)
    {
      WideIsEnough(c, remainder);
      NextPlace(f, scale, i);
      digits[i] := Digit(remainder * 10 / scale);
      remainder := remainder * 10 % scale;
      assert digits[..i + 1] == digits[..i] + [digits[i]];
    }
  }

  // -------------------------------------------------------------- choosing the places

  /** The text after the sign: the whole part, and the places if there are any. */
  function Written(whole: nat, places: string): string {
    Numeral(whole) + if places == "" then "" else "." + places
  }

  /** The rounded number, from the whole part, the places kept and what is left over. */
  lemma NearestParts(m: nat, scale: nat, n: nat, up: bool)
    requires scale >= 1 && (up <==> 2 * (Left(m, scale, n)) >= scale)
    ensures var f := Kept(m % scale, scale, n);
      && f < Pow(10, n)
      && Nearest(m, scale, n) == Units(m, scale) * Pow(10, n) + f + if up then 1 else 0
  {
    NearestSteps(m, scale, n);
    SplitParts(m, scale, n);
  }

  lemma RoundedDown(m: nat, scale: nat, n: nat)
    requires scale >= 1 && 2 * (Left(m, scale, n)) < scale
    ensures Shown(Nearest(m, scale, n), n) == Written(Units(m, scale), Leading(m % scale, scale, n))
  {
    NearestParts(m, scale, n, false);
    ShownParts(Units(m, scale), Kept(m % scale, scale, n), n);
  }

  /** Past the last place there are only zeros. */
  lemma MoreZeros(f: nat, scale: nat, n: nat, k: nat)
    requires scale >= 1 && Terminates(f, scale, n)
    ensures Leading(f, scale, n + k) == Leading(f, scale, n) + Zeros(k)
  {
    var q := Kept(f, scale, n);
    DivModLaw(f * Pow(10, n), scale);
    PowAdd(10, n, k);
    MulAssoc(f, Pow(10, n), Pow(10, k));
    MulAssoc(q, scale, Pow(10, k));
    MulAssoc(scale, q, Pow(10, k));
    DivModUnique(f * Pow(10, n + k), scale, q * Pow(10, k), 0);
    PadDigits(q, n, k);
  }

  /** Rounding up is adding one to the places kept, and to the whole part if the carry leaves them. */
  lemma RoundedUp(m: nat, scale: nat, n: nat, places: string, carried: bool)
    requires scale >= 1 && 2 * (Left(m, scale, n)) >= scale && |places| == n && AllDigits(places)
    requires carried <==> Value(Leading(m % scale, scale, n)) + 1 == Pow(10, n)
    requires Value(places) == if carried then 0 else Value(Leading(m % scale, scale, n)) + 1
    ensures Shown(Nearest(m, scale, n), n) == Written(Units(m, scale) + if carried then 1 else 0, places)
  {
    var w, f := Units(m, scale), Kept(m % scale, scale, n);
    NearestParts(m, scale, n, true);
    assert Nearest(m, scale, n) == w * Pow(10, n) + f + 1;
    DigitsValue(f, n);
    RoundedUpParts(w, f, n, places, carried);
  }

  lemma RoundedUpParts(w: nat, f: nat, n: nat, places: string, carried: bool)
    requires f < Pow(10, n) && |places| == n && AllDigits(places)
    requires (carried <==> f + 1 == Pow(10, n)) && Value(places) == if carried then 0 else f + 1
    ensures Shown(w * Pow(10, n) + f + 1, n) == Written(w + if carried then 1 else 0, places)
  {
    DigitsOfValue(places);
    Distribute(w, 1, Pow(10, n));
    ShownParts(if carried then w + 1 else w, Value(places), n);
  }

  /** The first place dropped is at least five exactly when the part dropped is at least a half. */
  lemma FirstDropped(m: nat, scale: nat, all: nat, n: nat)
    requires scale >= 1 && n < all
    ensures var rem := Left(m, scale, n);
      && rem * 10 / scale < 10
      && Leading(m % scale, scale, all)[n] == Digit(rem * 10 / scale)
      && (rem * 10 / scale >= 5 <==> 2 * rem >= scale)
      && (rem == 0 <==> Terminates(m, scale, n))
      && (Terminates(m, scale, n + 1) && rem * 10 / scale == 0 ==> rem == 0)
      && (rem == 0 ==> rem * 10 / scale == 0)
  {
    var f := m % scale;
    SplitParts(m, scale, n);
    SplitParts(m, scale, n + 1);
    FewerPlaces(f, scale, all, n + 1);
    NextPlace(f, scale, n);
    var rem := Left(m, scale, n);
    var d, r := rem * 10 / scale, rem * 10 % scale;
    DivModLaw(rem * 10, scale);
    assert Leading(f, scale, all)[n] == Leading(f, scale, n + 1)[n];
    if d >= 5 {
      MulLe(5, d, scale);
    } else {
      MulLe(d, 4, scale);
    }
  }

  lemma TrimmedIsLeast(m: nat, scale: nat, n: nat, k: nat)
    requires scale >= 1 && Terminates(m, scale, n) && k <= n && Terminates(m, scale, k)
    requires k == 0 || !Terminates(m, scale, k - 1)
    ensures k == LeastPlaces(m, scale, n)
  {
    var least := LeastPlaces(m, scale, n);
    if k < least {
      LeastPlacesIsLeast(m, scale, n, k);
    } else if least < k {
      MorePlaces(m, scale, least, k - 1);
    }
  }

  /** Precision below zero: the trailing zeros are not emitted. */
  method Trim(digits: array<char>, ghost m: nat, ghost scale: nat) returns (emit: nat)
    requires scale >= 1 && Terminates(m, scale, digits.Length)
    requires digits[..] == Leading(m % scale, scale, digits.Length)
    ensures emit == LeastPlaces(m, scale, digits.Length)
    ensures Shown(Nearest(m, scale, emit), emit) == Written(Units(m, scale), digits[..emit])
  {
    ghost var all := digits.Length;
    emit := digits.Length;
    while emit > 0 && digits[emit - 1] == '0'
      invariant emit <= all && Terminates(m, scale, emit)
    {
      FirstDropped(m, scale, all, emit - 1);
      assert digits[emit - 1] == digits[..][emit - 1];
      emit := emit - 1;
    }
    if emit > 0 {
      FirstDropped(m, scale, all, emit - 1);
      assert digits[emit - 1] == digits[..][emit - 1];
    }
    TrimmedIsLeast(m, scale, all, emit);
    RoundedDown(m, scale, emit);
    FewerPlaces(m % scale, scale, all, emit);
    assert digits[..emit] == digits[..][..emit];
  }

  /** Precision below the number of places: the kept digits are rounded in place; true: the whole part goes up. */
  method Round(digits: array<char>, precision: nat, ghost m: nat, ghost scale: nat) returns (carried: bool)
    requires scale >= 1 && precision < digits.Length && digits[..] == Leading(m % scale, scale, digits.Length)
    modifies digits
    ensures Shown(Nearest(m, scale, precision), precision) ==
            Written(Units(m, scale) + if carried then 1 else 0, digits[..precision])
  {
    FirstDropped(m, scale, digits.Length, precision);
    FewerPlaces(m % scale, scale, digits.Length, precision);
    assert digits[precision] == digits[..][precision];
    assert digits[..precision] == digits[..][..precision];
    carried := false;
    if digits[precision] >= '5' {
      carried := CarryIncrement(digits, precision);
      RoundedUp(m, scale, precision, digits[..precision], carried);
    } else {
      RoundedDown(m, scale, precision);
    }
  }

  /** Precision beyond the number of places: zeros follow. */
  lemma Padded(m: nat, scale: nat, all: nat, n: nat)
    requires scale >= 1 && Terminates(m, scale, all) && all <= n
    ensures Shown(Nearest(m, scale, n), n) == Written(Units(m, scale), Leading(m % scale, scale, all) + Zeros(n - all))
  {
    MorePlaces(m, scale, all, n);
    RoundedDown(m, scale, n);
    SplitParts(m, scale, all);
    MoreZeros(m % scale, scale, all, n - all);
  }

  /** The foreign copies into the buffer: to_chars, copy_n and fill_n, each returning the new end. */
  method Write(buffer: array<char>, at: nat, text: string) returns (end: nat)
    requires at + |text| <= buffer.Length
    modifies buffer
    ensures end == at + |text| && buffer[..end] == old(buffer[..at]) + text
  {
    end := at;
    while end < at + |text|
      invariant at <= end <= at + |text| && buffer[..at] == old(buffer[..at])
      invariant buffer[at..end] == text[..end - at]
    {
      buffer[end] := text[end - at];
      end := end + 1;
    }
  }

  /** fixed_point_max_chars: sign, whole part, point and the larger of the places and 40. */
  function MaxChars(c: Config): nat {
    1 + (Digits10(c) + 1) + 1 + if c.fraction > 40 then c.fraction else 40
  }

  /** The whole part, also when rounding has added one, has at most Digits10 + 1 digits. */
  lemma WholeLength(c: Config, v: int, whole: nat)
    requires Valid(c) && InRep(c, v)
    requires whole <= WholeOf(c, v) + if c.fraction > 0 then 1 else 0
    ensures |Numeral(whole)| <= Digits10(c) + 1
  {
    var m, s := Abs(v), Scale(c);
    TenthPowers(c);
    QuotientBound(m, s);
    if c.fraction > 0 {
      assert s >= 2;
      DivModLaw(m, s);
      MulLe(2, s, m / s);
    }
    NumeralLength(whole, Digits10(c) + 1);
  }

  /** Where the fractional digits end and what the whole part has become. */
  method RoundFraction(c: Config, v: int, precision: int, digits: array<char>, whole: nat)
    returns (emit: nat, newWhole: nat)
    requires Valid(c) && c.fraction > 0 && digits.Length == c.fraction && whole == WholeOf(c, v)
    requires digits[..] == Leading(FractionOf(c, v), Scale(c), c.fraction)
    modifies digits
    ensures emit <= c.fraction && whole <= newWhole <= whole + 1
    ensures var pad, n := Padding(c, precision), Places(c, v, precision);
      n == emit + pad && Shown(Nearest(Abs(v), Scale(c), n), n) == Written(newWhole, digits[..emit] + Zeros(pad))
  {
    emit, newWhole := c.fraction, whole;
    ScaleDivides(c, Abs(v));
    if precision < 0 {
      emit := Trim(digits, Abs(v), Scale(c));
      assert digits[..emit] + Zeros(0) == digits[..emit];
    } else if precision < c.fraction {
      emit := precision;
      var carried := Round(digits, precision, Abs(v), Scale(c));
      if carried {
        newWhole := whole + 1;
      }
      assert digits[..emit] + Zeros(0) == digits[..emit];
    } else {
      Padded(Abs(v), Scale(c), c.fraction, precision);
      assert digits[..emit] == digits[..];
    }
  }

  /** Zeros wanted beyond the places the value has. */
  function Padding(c: Config, precision: int): nat {
    if precision > c.fraction then precision - c.fraction else 0
  }

  method WriteNumber(buffer: array<char>, at: nat, whole: nat, digits: array<char>, emit: nat, pad: nat)
    returns (end: nat)
    requires buffer != digits && emit <= digits.Length && at + |Numeral(whole)| + 1 + emit + pad <= buffer.Length
    modifies buffer
    ensures end <= buffer.Length
    ensures buffer[..end] == old(buffer[..at]) + Written(whole, digits[..emit] + Zeros(pad))
  {
    end := Write(buffer, at, Numeral(whole));
    if emit + pad > 0 {
      end := Write(buffer, end, ".");
      end := Write(buffer, end, digits[..emit]);
      end := Write(buffer, end, Zeros(pad));
    }
  }

  /** The text after the sign, for a type that has a fraction. */
  method WriteMixed(c: Config, v: int, precision: int, whole: nat, buffer: array<char>, at: nat) returns (end: nat)
    requires Valid(c) && c.fraction > 0 && InRep(c, v) && whole == WholeOf(c, v)
    requires precision <= 40 && at <= 1 && buffer.Length == MaxChars(c)
    modifies buffer
    ensures var n := Places(c, v, precision);
      end <= buffer.Length && buffer[..end] == old(buffer[..at]) + Shown(Nearest(Abs(v), Scale(c), n), n)
  {
    var digits := FillFraction(c, v);
    var emit, newWhole := RoundFraction(c, v, precision, digits, whole);
    WholeLength(c, v, newWhole);
    end := WriteNumber(buffer, at, newWhole, digits, emit, Padding(c, precision));
  }

  // -------------------------------------------------------------- the text, character by character

  /** A '-' or nothing, whole digits without idle zeros in front, and, if there are any, a point and n places. */
  predicate Laid(text: string, negative: bool, n: nat) {
    var sign: nat := if negative then 1 else 0;
    var tail: nat := if n == 0 then 0 else n + 1;
    && |text| > sign + tail && (text[0] == '-' <==> negative)
    && AllDigits(text[sign..|text| - tail]) && (text[sign] == '0' ==> |text| == sign + 1 + tail)
    && AllDigits(text[|text| - n..]) && (n > 0 ==> text[|text| - tail] == '.')
  }

  /** The number of units of 10^-n that the digits say. */
  function Units10(text: string, negative: bool, n: nat): int
    requires Laid(text, negative, n)
  {
    var whole := text[if negative then 1 else 0..|text| - if n == 0 then 0 else n + 1];
    Value(whole) * Pow(10, n) + Value(text[|text| - n..])
  }

  /** The text of v with n places: its sign, and the decimal nearest to its magnitude with halves away from zero. */
  ghost predicate IsDecimal(c: Config, v: int, n: nat, text: string) {
    && Laid(text, v < 0, n)
    && var error: int, half: int := 2 * (Units10(text, v < 0, n) * Scale(c) - Abs(v) * Pow(10, n)), Scale(c);
       -half < error <= half
  }

  /** ... or exactly its magnitude, with no idle zeros at the end. */
  ghost predicate IsExact(c: Config, v: int, n: nat, text: string) {
    && Laid(text, v < 0, n) && Units10(text, v < 0, n) * Scale(c) == Abs(v) * Pow(10, n)
    && (n > 0 ==> text[|text| - 1] != '0')
  }

  lemma {:induction false} NumeralHead(x: nat)
    ensures Numeral(x)[0] == '0' ==> |Numeral(x)| == 1
    ensures x > 0 ==> Numeral(x)[0] != '0'
  {
    if x >= 10 {
      NumeralHead(x / 10);
    }
  }

  lemma AreLaid(sign: string, negative: bool, w: string, point: string, p: string, n: nat, text: string)
    requires sign == (if negative then "-" else "") && point == (if n == 0 then "" else ".")
    requires AllDigits(w) && AllDigits(p) && |p| == n && |w| >= 1 && (w[0] == '0' ==> |w| == 1)
    requires |text| == |sign| + |w| + |point| + n
    requires text[|sign|..|sign| + |w|] == w && text[|sign| + |w| + |point|..] == p
    requires text[..|sign|] == sign && (n > 0 ==> text[|sign| + |w|] == '.')
    ensures Laid(text, negative, n)
  {
    assert text[|sign|] == w[0] && (negative ==> text[0] == sign[0]);
  }

  lemma PartsLaid(sign: string, negative: bool, w: string, point: string, p: string, n: nat, text: string)
    requires sign == (if negative then "-" else "") && point == (if n == 0 then "" else ".")
    requires AllDigits(w) && AllDigits(p) && |p| == n && |w| >= 1 && (w[0] == '0' ==> |w| == 1)
    requires text == sign + (w + (point + p))
    ensures Laid(text, negative, n) && Units10(text, negative, n) == Value(w) * Pow(10, n) + Value(p)
  {
    var rest := w + (point + p);
    assert text[|sign|..] == rest && text[|sign|] == rest[0] == w[0] && IsDigit(w[0]);
    assert rest[..|w|] == w && rest[|w|..] == point + p;
    assert (point + p)[|point|..] == p;
    Slices(text, rest, |sign|, |w|, |point|);
    assert n > 0 ==> rest[|w|..][0] == '.';
    var i: nat, j: nat, k: nat := if negative then 1 else 0, |text| - if n == 0 then 0 else n + 1, |text| - n;
    assert i == |sign| && j == i + |w| && k == i + |w| + |point|;
    assert text[i..j] == w && text[k..] == p && text[..i] == sign;
    AreLaid(sign, negative, w, point, p, n, text);
    SameUnits(text, negative, n, i, j, k, w, p);
  }

  lemma SameUnits(text: string, negative: bool, n: nat, i: nat, j: nat, k: nat, w: string, p: string)
    requires Laid(text, negative, n) && i == (if negative then 1 else 0)
    requires j == |text| - (if n == 0 then 0 else n + 1) && k == |text| - n
    requires text[i..j] == w && text[k..] == p
    ensures Units10(text, negative, n) == Value(w) * Pow(10, n) + Value(p)
  {}

  lemma Slices(text: string, rest: string, i: nat, j: nat, k: nat)
    requires i <= |text| && text[i..] == rest && j + k <= |rest|
    ensures text[i..i + j] == rest[..j] && text[i + j + k..] == rest[j..][k..]
    ensures k > 0 ==> text[i + j] == rest[j..][0]
  {}

  lemma ShownLaid(sign: string, negative: bool, r: nat, n: nat, text: string)
    requires sign == (if negative then "-" else "") && text == sign + Shown(r, n)
    ensures Laid(text, negative, n) && Units10(text, negative, n) == r
  {
    var whole, point, places := Numeral(r / Pow(10, n)), if n == 0 then "" else ".", Digits(r, n);
    NumeralHead(r / Pow(10, n));
    ShownReads(r, n);
    assert Shown(r, n) == whole + (point + places);
    PartsLaid(sign, negative, whole, point, places, n, text);
  }

  lemma PrintedIsDecimal(c: Config, v: int, precision: int)
    ensures IsDecimal(c, v, Places(c, v, precision), Printed(c, v, precision))
  {
    var n := Places(c, v, precision);
    var r := Nearest(Abs(v), Scale(c), n);
    ShownLaid(if v < 0 then "-" else "", v < 0, r, n, Printed(c, v, precision));
    NearestIsNearest(Abs(v), Scale(c), n, r);
  }

  /** What terminates is shown exactly. */
  lemma NearestExact(m: nat, scale: nat, n: nat)
    requires scale >= 1 && Terminates(m, scale, n)
    ensures Nearest(m, scale, n) * scale == m * Pow(10, n)
  {
    var x := m * Pow(10, n);
    DivModLaw(x, scale);
    NearestIsNearest(m, scale, n, x / scale);
  }

  /** A zero at the end can be spared. */
  lemma IdleZero(m: nat, scale: nat, n: nat, r: nat)
    requires scale >= 1 && n > 0 && r * scale == m * Pow(10, n) && r % 10 == 0
    ensures Terminates(m, scale, n - 1)
  {
    var q := r / 10;
    DivModLaw(r, 10);
    MulAssoc(10, q, scale);
    MulAssoc(10, m, Pow(10, n - 1));
    DivModUnique(m * Pow(10, n - 1), scale, q, 0);
  }

  lemma PrintedIsExact(c: Config, v: int)
    ensures IsExact(c, v, Places(c, v, -1), Printed(c, v, -1))
  {
    var m, s, n := Abs(v), Scale(c), Places(c, v, -1);
    var r := Nearest(m, s, n);
    ScaleDivides(c, m);
    NearestExact(m, s, n);
    ShownLaid(if v < 0 then "-" else "", v < 0, r, n, Printed(c, v, -1));
    if n > 0 {
      LeastPlacesIsLeast(m, s, c.fraction, n - 1);
      if r % 10 == 0 {
        IdleZero(m, s, n, r);
      }
      LastPlace(if v < 0 then "-" else "", r, n, Printed(c, v, -1));
    }
  }

  lemma LastPlace(sign: string, r: nat, n: nat, text: string)
    requires n > 0 && text == sign + Shown(r, n)
    ensures text != "" && text[|text| - 1] == Digit(r % 10)
  {
    assert Digits(r, n)[n - 1] == Digit(r % 10);
    assert text[|text| - n..] == Digits(r, n);
  }

  /** What a precision asks for: so many places, if the type has any, or below zero as many as it takes. */
  ghost predicate IsText(c: Config, v: int, precision: int, text: string) {
    if precision >= 0 then IsDecimal(c, v, if c.fraction > 0 then precision else 0, text)
    else exists n: nat :: n <= c.fraction && IsExact(c, v, n, text)
  }

  lemma PrintedIsText(c: Config, v: int, precision: int)
    ensures IsText(c, v, precision, Printed(c, v, precision))
  {
    if precision >= 0 {
      PrintedIsDecimal(c, v, precision);
    } else {
      PrintedIsExact(c, v);
      assert Printed(c, v, precision) == Printed(c, v, -1) && Places(c, v, -1) <= c.fraction;
    }
  }

  method ToChars(c: Config, v: int, precision: int, buffer: array<char>) returns (length: nat)
    requires Valid(c) && InRep(c, v) && precision <= 40 && buffer.Length == MaxChars(c)
    modifies buffer
    ensures length <= buffer.Length && buffer[..length] == Printed(c, v, precision)
    ensures IsText(c, v, precision, buffer[..length])
  {
    var out := 0;
    if c.signed && v < 0 {
      out := Write(buffer, out, "-");
    }
    assert buffer[..out] == if v < 0 then "-" else "";
    Parts(c, v);
    var whole := Magnitude(c, IntegerPart(c, v));
    if c.fraction == 0 {
      WholeLength(c, v, whole);
      WholeShown(Abs(v));
      out := Write(buffer, out, Numeral(whole));
    } else {
      out := WriteMixed(c, v, precision, whole, buffer, out);
    }
    assert buffer[..out] == Printed(c, v, precision);
    PrintedIsText(c, v, precision);
    return out;
  }

  lemma WholeShown(m: nat)
    ensures Shown(Nearest(m, 1, 0), 0) == Numeral(m)
  {
    assert Nearest(m, 1, 0) == m;
  }
}
