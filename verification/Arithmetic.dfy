/** Facts about products, quotients and remainders that the other modules rely on. */
module Arithmetic {

  function Pow2(k: nat): (r: nat)
    ensures r >= 1
  {
    if k == 0 then 1 else 2 * Pow2(k - 1)
  }

  lemma {:induction false} Pow2Mono(j: nat, k: nat)
    requires j <= k
    ensures Pow2(j) <= Pow2(k)
  {
    if j < k {
      Pow2Mono(j, k - 1);
    }
  }

  lemma MulNonNeg(a: int, b: int)
    requires a >= 0 && b >= 0
    ensures a * b >= 0
  {}

  lemma MulAssoc(a: int, b: int, c: int)
    ensures a * (b * c) == (a * b) * c == b * (a * c)
  {}

  lemma MulLe(a: int, b: int, c: int)
    requires a <= b && c >= 0
    ensures a * c <= b * c
  {
    MulNonNeg(b - a, c);
    assert (b - a) * c == b * c - a * c;
  }

  /** Quotient and remainder are determined by the division equation. */
  lemma DivModUnique(i: int, d: int, q: int, r: int)
    requires d > 0 && 0 <= r < d && i == q * d + r
    ensures i / d == q && i % d == r
  {
    var q', r' := i / d, i % d;
    assert i == q' * d + r' by { DivModLaw(i, d); }
    assert (q' - q) * d == r - r' by { Distribute(q', q, d); }
    if q' > q {
      MulLe(1, q' - q, d);
      assert false;
    } else if q' < q {
      MulLe(1, q - q', d);
      Distribute(q, q', d);
      assert false;
    }
  }

  lemma Distribute(a: int, b: int, d: int)
    ensures (a - b) * d == a * d - b * d
    ensures (a + b) * d == a * d + b * d
  {}

  lemma DivModLaw(i: int, d: int)
    requires d > 0
    ensures i == (i / d) * d + i % d && 0 <= i % d < d
  {}

  /** x / d <= y / d for x <= y. */
  lemma DivMono(x: int, y: int, d: int)
    requires d > 0 && x <= y
    ensures x / d <= y / d
  {
    DivModLaw(x, d);
    DivModLaw(y, d);
    if x / d > y / d {
      MulLe(y / d + 1, x / d, d);
      Distribute(y / d, 1, d);
      assert false;
    }
  }

  lemma SmallRemainder(d: nat, m: nat)
    requires d < m
    ensures d % m == d
  {
    DivModUnique(d, m, 0, d);
  }

  /** Two numbers leave the same remainder exactly when their difference leaves none. */
  lemma SameRemainder(a: int, b: int, m: int)
    requires m >= 1
    ensures a % m == b % m <==> (a - b) % m == 0
  {
    var q, r := (a - b) / m, (a - b) % m;
    var p, s := b / m, b % m;
    DivModLaw(a - b, m);
    DivModLaw(b, m);
    Distribute(q, p, m);
    if s + r < m {
      DivModUnique(a, m, q + p, s + r);
    } else {
      Distribute(q + p, 1, m);
      DivModUnique(a, m, q + p + 1, s + r - m);
    }
  }
}
