/** Bitwise operations on natural numbers, bit by bit from the lowest, and what they are arithmetically. */
module Bits {
  import opened Arithmetic

  function And(a: nat, b: nat): nat
    decreases a + b
  {
    if a == 0 || b == 0 then 0 else (if a % 2 == 1 && b % 2 == 1 then 1 else 0) + 2 * And(a / 2, b / 2)
  }

  /** Masking the low bits is the remainder. */
  lemma {:induction false} MaskIsMod(i: nat, k: nat)
    ensures And(i, Pow2(k) - 1) == i % Pow2(k)
  {
    if k > 0 && i > 0 {
      var h := Pow2(k - 1);
      MaskIsMod(i / 2, k - 1);
      HalfMod(i, h);
      AndStep(i, h - 1);
    } else if k == 0 {
      assert Pow2(k) == 1;
    } else {
      DivModUnique(0, Pow2(k), 0, 0);
    }
  }

  lemma AndStep(i: nat, m: nat)
    requires i > 0
    ensures And(i, 2 * m + 1) == i % 2 + 2 * And(i / 2, m)
  {
    assert (2 * m + 1) / 2 == m && (2 * m + 1) % 2 == 1;
  }

  lemma HalfMod(i: nat, h: nat)
    requires h >= 1
    ensures i % (2 * h) == i % 2 + 2 * ((i / 2) % h)
  {
    var q, r := (i / 2) / h, (i / 2) % h;
    DivModLaw(i / 2, h);
    assert i == q * (2 * h) + (2 * r + i % 2) by {
      assert q * (2 * h) == 2 * (q * h);
    }
    DivModUnique(i, 2 * h, q, 2 * r + i % 2);
  }

  function Or(a: nat, b: nat): nat
    decreases a + b
  {
    if a == 0 then b else if b == 0 then a
    else (if a % 2 == 1 || b % 2 == 1 then 1 else 0) + 2 * Or(a / 2, b / 2)
  }

  function Xor(a: nat, b: nat): nat
    decreases a + b
  {
    if a == 0 then b else if b == 0 then a
    else (if a % 2 == b % 2 then 0 else 1) + 2 * Xor(a / 2, b / 2)
  }

  lemma {:induction false} XorTop(a: nat, k: nat)
    requires a < 2 * Pow2(k)
    ensures Xor(a, Pow2(k)) == if a < Pow2(k) then a + Pow2(k) else a - Pow2(k)
  {
    if k > 0 && a > 0 {
      XorTop(a / 2, k - 1);
      XorDouble(a, Pow2(k - 1));
    } else if a > 0 {
      assert Pow2(0) == 1;
    }
  }

  lemma XorDouble(a: nat, b: nat)
    requires a > 0 && b > 0
    ensures Xor(a, 2 * b) == a % 2 + 2 * Xor(a / 2, b)
  {
    assert (2 * b) / 2 == b && (2 * b) % 2 == 0;
  }

  lemma {:induction false} XorOnes(a: nat, k: nat)
    requires a < Pow2(k)
    ensures Xor(a, Pow2(k) - 1) == Pow2(k) - 1 - a
  {
    if k > 0 {
      var ones := Pow2(k - 1) - 1;
      XorOnes(a / 2, k - 1);
      assert Pow2(k) - 1 == 2 * ones + 1 && (2 * ones + 1) / 2 == ones && (2 * ones + 1) % 2 == 1;
    }
  }

  /** Or of numbers that have no bits in common is their sum. */
  lemma {:induction false} OrDisjoint(low: nat, high: nat, k: nat)
    requires low < Pow2(k)
    ensures Or(low, high * Pow2(k)) == Or(high * Pow2(k), low) == low + high * Pow2(k)
  {
    if k == 0 {
      assert Pow2(0) == 1;
    } else if low > 0 && high > 0 {
      var h := high * Pow2(k - 1);
      assert high * Pow2(k) == 2 * h by { MulAssoc(high, 2, Pow2(k - 1)); }
      MulLe(1, high, Pow2(k - 1));
      OrDisjoint(low / 2, high, k - 1);
      assert (2 * h) / 2 == h && (2 * h) % 2 == 0;
    } else if low == 0 {
      MulNonNeg(high, Pow2(k));
    }
  }

  function Shr(x: nat, i: nat): nat {
    if i == 0 then x else Shr(x / 2, i - 1)
  }

  function Shl(x: nat, i: nat): nat {
    if i == 0 then x else 2 * Shl(x, i - 1)
  }

  lemma {:induction false} ShlIsProduct(x: nat, i: nat)
    ensures Shl(x, i) == x * Pow2(i)
  {
    if i > 0 {
      ShlIsProduct(x, i - 1);
      MulAssoc(x, 2, Pow2(i - 1));
    }
  }

  /** Masking the low k bits away. */
  lemma {:induction false} AndHigh(q: nat, r: nat, mask: nat, k: nat)
    requires r < Pow2(k)
    ensures And(Shl(q, k) + r, Shl(mask, k)) == Shl(And(q, mask), k)
  {
    if k > 0 {
      AndHigh(q, r / 2, mask, k - 1);
      AndEven(Shl(q, k) + r, Shl(mask, k), Shl(q, k - 1) + r / 2, r % 2, Shl(mask, k - 1));
    }
  }

  lemma AndEven(x: nat, y: nat, a: nat, bit: nat, b: nat)
    requires bit < 2 && x == 2 * a + bit && y == 2 * b
    ensures And(x, y) == 2 * And(a, b)
  {
    assert x / 2 == a && y / 2 == b && y % 2 == 0;
  }

  /** A mask of n ones above k zeroes. */
  lemma MaskHigh(q: nat, r: nat, n: nat, ones: nat, k: nat, p: nat)
    requires ones == Pow2(n) - 1 && q <= ones && p == Pow2(k) && r < p
    ensures And(q * p + r, ones * p) == q * p
  {
    ShlIsProduct(q, k);
    ShlIsProduct(ones, k);
    AndHigh(q, r, ones, k);
    MaskIsMod(q, n);
    SmallRemainder(q, Pow2(n));
  }

  lemma Pow2Byte(k: nat)
    ensures Pow2(k + 8) == 256 * Pow2(k)
  {
    assert Pow2(k + 4) == 2 * Pow2(k + 3) == 4 * Pow2(k + 2) == 8 * Pow2(k + 1) == 16 * Pow2(k);
    assert Pow2(k + 8) == 2 * Pow2(k + 7) == 4 * Pow2(k + 6) == 8 * Pow2(k + 5) == 16 * Pow2(k + 4);
  }

  lemma Pow2Bytes()
    ensures Pow2(8) == 0x100 && Pow2(16) == 0x1_0000 && Pow2(24) == 0x100_0000 && Pow2(32) == 0x1_0000_0000
  {
    Pow2Byte(0);
    Pow2Byte(8);
    Pow2Byte(16);
    Pow2Byte(24);
  }
}
