/**
 fixed_point_from_chars, against a grammar of numerals, and the round trip with the printer.
 */
module FixedPointParse {
  import opened Arithmetic
  import opened Decimal
  import opened FixedPoint
  import opened Wrappers

  // -------------------------------------------------------------- grammar and meaning

  /** A numeral: sign, whole digits, point and places. */
  datatype Numeric = Numeric(sign: string, whole: string, dotted: bool, places: string)

  predicate WellFormed(n: Numeric) {
    n.sign in {"", "+", "-"} && AllDigits(n.whole) && AllDigits(n.places) && (!n.dotted ==> n.places == "")
  }

  function Spelled(n: Numeric): string {
    n.sign + (n.whole + Tail(n.dotted, n.places))
  }

  function Tail(dotted: bool, places: string): string {
    if dotted then "." + places else ""
  }

  /** Whole digits that do not fit 64 bits count as absent. */
  function Whole(s: string): (r: Option<nat>)
    requires AllDigits(s)
  {
    if s != "" && Value(s) < 0x1_0000_0000_0000_0000 then Some(Value(s)) else None
  }

  predicate Accepted(n: Numeric)
    requires WellFormed(n)
  {
    Whole(n.whole).Some? || n.places != ""
  }

  /** The places scaled into the representation, at most Digits10 of them, halves up. */
  function ScaledPlaces(c: Config, places: string): nat
    requires AllDigits(places)
  {
    var kept := places[..if |places| < Digits10(c) then |places| else Digits10(c)];
    if places == "" then 0
    else Scaled(Value(kept), Scale(c), Pow(10, |kept|))
  }

  function Scaled(value: nat, scale: nat, divisor: nat): nat
    requires divisor >= 1
  {
    MulNonNeg(value, scale);
    DivMono(0, value * scale + divisor / 2, divisor);
    (value * scale + divisor / 2) / divisor
  }

  /** The unsigned number reinterpreted in the representation. */
  function ToRep(c: Config, stored: nat): int {
    if c.signed && stored >= Modulus(c) / 2 then stored - Modulus(c) else stored
  }

  function Stored(c: Config, negative: bool, combined: nat): nat {
    var magnitude := combined % Modulus(c);
    if negative then (0 - magnitude) % Modulus(c) else magnitude
  }

  function Combined(c: Config, negative: bool, whole: nat, fraction: nat): int {
    MulNonNeg(whole, Scale(c));
    ToRep(c, Stored(c, negative, whole * Scale(c) + fraction))
  }

  function Meaning(c: Config, n: Numeric): int
    requires WellFormed(n)
  {
    var w := Whole(n.whole);
    Combined(c, n.sign == "-", if w.Some? then w.value else 0, ScaledPlaces(c, n.places))
  }

  /** The text is accepted and means v. */
  ghost predicate Denotes(c: Config, text: string, v: int) {
    exists n :: WellFormed(n) && Accepted(n) && Spelled(n) == text && Meaning(c, n) == v
  }

  // -------------------------------------------------------------- the grammar is unambiguous

  lemma SameDigits(a: string, x: string, b: string, y: string)
    requires a + x == b + y && AllDigits(a) && AllDigits(b)
    requires (x == "" || !IsDigit(x[0])) && (y == "" || !IsDigit(y[0]))
    ensures a == b && x == y
  {
    assert forall i :: 0 <= i < |a| ==> IsDigit((a + x)[i]);
    assert forall i :: 0 <= i < |b| ==> IsDigit((b + y)[i]);
    assert x != "" ==> !IsDigit((a + x)[|a|]);
    assert y != "" ==> !IsDigit((b + y)[|b|]);
    assert a == (a + x)[..|a|] && b == (b + y)[..|a|];
    assert x == (a + x)[|a|..] && y == (b + y)[|a|..];
  }

  /** A scan that took the sign if there was one and as many digits as it could took the numeral's own parts. */
  lemma Forced(n: Numeric, sign: string, whole: string, dotted: bool, places: string, rest: string)
    requires WellFormed(n) && WellFormed(Numeric(sign, whole, dotted, places))
    requires Spelled(n) == sign + (whole + (Tail(dotted, places) + rest))
    requires sign == "" ==> whole != "" || dotted || rest == "" || rest[0] !in {'+', '-'}
    requires rest == "" || (!IsDigit(rest[0]) && (!dotted ==> rest[0] != '.'))
    ensures rest == "" && n == Numeric(sign, whole, dotted, places)
  {
    var body, tail := n.whole + Tail(n.dotted, n.places), Tail(dotted, places) + rest;
    assert n.sign == sign && body == whole + tail by {
      assert n.sign != "" ==> Spelled(n)[0] in {'+', '-'};
      assert n.sign == "" && body != "" ==> body[0] !in {'+', '-'};
      assert Spelled(n)[|n.sign|..] == body;
      assert (sign + (whole + tail))[|sign|..] == whole + tail;
    }
    SameDigits(n.whole, Tail(n.dotted, n.places), whole, tail);
    ForcedPlaces(n, dotted, places, rest);
  }

  lemma ForcedPlaces(n: Numeric, dotted: bool, places: string, rest: string)
    requires AllDigits(n.places) && AllDigits(places) && (!n.dotted ==> n.places == "") && (!dotted ==> places == "")
    requires Tail(n.dotted, n.places) == Tail(dotted, places) + rest
    requires rest == "" || (!IsDigit(rest[0]) && (!dotted ==> rest[0] != '.'))
    ensures rest == "" && n.dotted == dotted && n.places == places
  {
    var tail := Tail(dotted, places) + rest;
    if n.dotted {
      assert Tail(n.dotted, n.places)[0] == '.' && dotted;
      assert Tail(n.dotted, n.places)[1..] == n.places && tail[1..] == places + rest;
      assert n.places + "" == n.places;
      SameDigits(n.places, "", places, rest);
    }
  }

  // -------------------------------------------------------------- the algorithm

  /** The digits from `at` on: the foreign from_chars consumes them all, and the loop over the places does too. */
  method SkipDigits(text: string, at: nat) returns (end: nat)
    requires at <= |text|
    ensures at <= end <= |text| && AllDigits(text[at..end]) && (end < |text| ==> !IsDigit(text[end]))
  {
    end := at;
    while end != |text| && '0' <= text[end] <= '9'
      invariant at <= end <= |text| && AllDigits(text[at..end])
    {
      assert text[at..end + 1] == text[at..end] + [text[end]];
      end := end + 1;
    }
  }

  method ReadSign(text: string) returns (negative: bool, cursor: nat)
    requires |text| > 0
    ensures cursor == if text[0] in {'+', '-'} then 1 else 0
    ensures text[..cursor] in {"", "+", "-"} && (negative <==> text[..cursor] == "-")
  {
    negative, cursor := false, 0;
    if text[cursor] == '+' || text[cursor] == '-' {
      negative := text[cursor] == '-';
      cursor := cursor + 1;
      assert text[..cursor] == [text[0]];
    }
  }

  /** The text's numeral, or why there is none. */
  method FromChars(c: Config, text: string) returns (r: Option<int>)
    requires Valid(c)
    ensures r.Some? ==> Denotes(c, text, r.value)
    ensures forall v :: Denotes(c, text, v) ==> r == Some(v)
  {
    if |text| == 0 {
      Found(c, text, Numeric("", "", false, ""), "");
      return None;
    }
    var negative, cursor := ReadSign(text);
    ghost var sign := text[..cursor];
    var end := SkipDigits(text, cursor);
    var whole := text[cursor..end];
    assert text == sign + (whole + text[end..]) by {
      assert text[cursor..] == whole + text[end..];
      assert text == sign + text[cursor..];
    }
    var parsed := Whole(whole);
    var integer := if parsed.Some? then parsed.value else 0;
    var anyDigit := parsed.Some?;
    cursor := end;
    var dotted, places, after := ReadPlaces(text, cursor);
    cursor := after;
    ghost var n := Numeric(sign, whole, dotted, places);
    Found(c, text, n, text[cursor..]);
    if (!anyDigit && places == "") || cursor != |text| {
      return None;
    }
    r := Some(Combined(c, negative, integer, ScaledPlaces(c, places)));
    assert r.value == Meaning(c, n);
  }

  /** The point and the places after it, if the text goes on with a point. */
  method ReadPlaces(text: string, at: nat) returns (dotted: bool, places: string, cursor: nat)
    requires at <= |text|
    ensures at <= cursor <= |text| && AllDigits(places) && (!dotted ==> places == "")
    ensures text[at..] == Tail(dotted, places) + text[cursor..]
    ensures cursor < |text| ==> (if dotted then !IsDigit(text[cursor]) else cursor == at && text[cursor] != '.')
  {
    dotted, places, cursor := false, "", at;
    if cursor != |text| && text[cursor] == '.' {
      cursor := cursor + 1;
      var begin := cursor;
      cursor := SkipDigits(text, begin);
      dotted, places := true, text[begin..cursor];
    }
  }

  /** What a scan has found decides everything the text can denote. */
  lemma Found(c: Config, text: string, n: Numeric, rest: string)
    requires WellFormed(n) && text == n.sign + (n.whole + (Tail(n.dotted, n.places) + rest))
    requires n.sign == "" ==> n.whole != "" || n.dotted || rest == "" || rest[0] !in {'+', '-'}
    requires rest == "" || (!IsDigit(rest[0]) && (!n.dotted ==> rest[0] != '.'))
    ensures rest == "" && Accepted(n) ==> Denotes(c, text, Meaning(c, n))
    ensures forall v :: Denotes(c, text, v) ==> rest == "" && Accepted(n) && v == Meaning(c, n)
  {
    if rest == "" {
      assert Tail(n.dotted, n.places) + rest == Tail(n.dotted, n.places);
      assert Spelled(n) == text;
    }
    forall n1 | WellFormed(n1) && Spelled(n1) == text ensures rest == "" && n1 == n {
      Forced(n1, n.sign, n.whole, n.dotted, n.places, rest);
    }
  }
}
