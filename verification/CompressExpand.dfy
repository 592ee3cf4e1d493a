/**
 bit_compress, bit_expand and bit_repeat on integers of any width: the loops over the bits of the mask, and what they
 gather and scatter.
 */
module CompressExpand {
  import opened Arithmetic
  import opened Bits

  function Bit(x: nat, i: nat): (b: nat)
    ensures b < 2
  {
    if i == 0 then x % 2 else Bit(x / 2, i - 1)
  }

  /** The lowest i bits of x. */
  function Low(x: nat, i: nat): nat {
    if i == 0 then 0 else x % 2 + 2 * Low(x / 2, i - 1)
  }

  function PopCount(m: nat): nat {
    if m == 0 then 0 else m % 2 + PopCount(m / 2)
  }

  /** The bits of x under the mask, side by side from the lowest. */
  function Compressed(x: nat, m: nat): nat
    decreases m
  {
    if m == 0 then 0
    else if m % 2 == 1 then x % 2 + 2 * Compressed(x / 2, m / 2)
    else Compressed(x / 2, m / 2)
  }

  /** The low bits of x at the places of the mask. */
  function Expanded(x: nat, m: nat): nat
    decreases m
  {
    if m == 0 then 0
    else if m % 2 == 1 then x % 2 + 2 * Expanded(x / 2, m / 2)
    else 2 * Expanded(x, m / 2)
  }

  // -------------------------------------------------------------- main results

  /** Expanding what was compressed leaves the bits under the mask. */
  lemma {:induction false} ExpandCompressed(x: nat, m: nat)
    ensures Expanded(Compressed(x, m), m) == And(x, m)
    decreases m
  {
    if m > 0 {
      ExpandCompressed(x / 2, m / 2);
      if x == 0 {
        CompressedZero(m);
      }
    }
  }

  lemma {:induction false} CompressedZero(m: nat)
    ensures Compressed(0, m) == 0 && Expanded(0, m) == 0
  {
    if m > 0 {
      CompressedZero(m / 2);
    }
  }

  /** Compressing what was expanded leaves as many low bits as the mask has. */
  lemma {:induction false} CompressExpanded(x: nat, m: nat)
    ensures Compressed(Expanded(x, m), m) == x % Pow2(PopCount(m))
    decreases m
  {
    if m == 0 {
      assert Pow2(0) == 1;
    } else if m % 2 == 1 {
      CompressExpanded(x / 2, m / 2);
      HalfMod(x, Pow2(PopCount(m / 2)));
      Halves(x % 2, Expanded(x / 2, m / 2));
    } else {
      CompressExpanded(x, m / 2);
      Halves(0, Expanded(x, m / 2));
    }
  }

  lemma Halves(bit: nat, y: nat)
    requires bit < 2
    ensures (bit + 2 * y) / 2 == y && (bit + 2 * y) % 2 == bit
  {}

  /** No more bits than the mask has. */
  lemma {:induction false} CompressedBelow(x: nat, m: nat)
    ensures Compressed(x, m) < Pow2(PopCount(m))
    decreases m
  {
    if m == 0 {
      assert Pow2(0) == 1;
    } else {
      CompressedBelow(x / 2, m / 2);
    }
  }

  /** The bits keep their order: the one at place i of the mask goes to the number of mask bits below it. */
  lemma {:induction false} CompressedBit(x: nat, m: nat, i: nat)
    requires Bit(m, i) == 1
    ensures Bit(Compressed(x, m), PopCount(Low(m, i))) == Bit(x, i)
  {
    if i == 0 {
      assert Pow2(0) == 1;
      Halves(x % 2, Compressed(x / 2, m / 2));
    } else {
      CompressedBit(x / 2, m / 2, i - 1);
      LowMask(m, i);
      if m % 2 == 1 {
        Halves(x % 2, Compressed(x / 2, m / 2));
      }
    }
  }

  lemma LowMask(m: nat, i: nat)
    requires i > 0
    ensures PopCount(Low(m, i)) == m % 2 + PopCount(Low(m / 2, i - 1))
  {
    Halves(m % 2, Low(m / 2, i - 1));
  }

  /** Every bit of the expanded number: a low bit of x at a place of the mask, and zero elsewhere. */
  lemma {:induction false} ExpandedBit(x: nat, m: nat, i: nat)
    ensures Bit(Expanded(x, m), i) == if Bit(m, i) == 1 then Bit(x, PopCount(Low(m, i))) else 0
    decreases i
  {
    if m == 0 {
      ZeroBit(i);
    } else if i == 0 {
      ExpandedHead(x, m);
    } else {
      LowMask(m, i);
      ExpandedHead(x, m);
      ExpandedBit(if m % 2 == 1 then x / 2 else x, m / 2, i - 1);
    }
  }

  lemma ExpandedHead(x: nat, m: nat)
    requires m > 0
    ensures Expanded(x, m) % 2 == if m % 2 == 1 then x % 2 else 0
    ensures Expanded(x, m) / 2 == Expanded(if m % 2 == 1 then x / 2 else x, m / 2)
  {
    if m % 2 == 1 {
      Halves(x % 2, Expanded(x / 2, m / 2));
    } else {
      Halves(0, Expanded(x, m / 2));
    }
  }

  lemma {:induction false} ZeroBit(i: nat)
    ensures Bit(0, i) == 0
  {
    if i > 0 {
      ZeroBit(i - 1);
    }
  }

  // -------------------------------------------------------------- one bit at a time

  /** ( x >> i ) & 1 */
  lemma {:induction false} ShiftedBit(x: nat, i: nat)
    ensures And(Shr(x, i), 1) == Bit(x, i) == Shr(x, i) % 2
  {
    if i > 0 {
      ShiftedBit(x / 2, i - 1);
    } else if x > 0 {
      assert And(x / 2, 0) == 0;
    }
  }

  /** The mask up to the next bit. */
  lemma {:induction false} MaskGrows(m: nat, i: nat)
    ensures Low(m, i + 1) == Low(m, i) + Shl(Bit(m, i), i)
    ensures Low(m, i) < Pow2(i)
  {
    if i > 0 {
      MaskGrows(m / 2, i - 1);
    }
  }

  lemma CompressedCons(x: nat, mask: nat, bit: nat, m: nat)
    requires bit < 2 && mask == bit + 2 * m
    ensures Compressed(x, mask) == if bit == 1 then x % 2 + 2 * Compressed(x / 2, m) else Compressed(x / 2, m)
  {
    Halves(bit, m);
  }

  lemma ExpandedCons(x: nat, mask: nat, bit: nat, m: nat)
    requires bit < 2 && mask == bit + 2 * m
    ensures Expanded(x, mask) == if bit == 1 then x % 2 + 2 * Expanded(x / 2, m) else 2 * Expanded(x, m)
  {
    Halves(bit, m);
  }

  lemma PopCountCons(mask: nat, bit: nat, m: nat)
    requires bit < 2 && mask == bit + 2 * m
    ensures PopCount(mask) == bit + PopCount(m)
  {
    Halves(bit, m);
  }

  /** A mask of i bits in its lowest bit and the others. */
  lemma Unfolded(low: nat, i: nat) returns (bit: nat, m: nat, n: nat)
    requires low < Pow2(i) && i > 0
    ensures bit < 2 && low == bit + 2 * m && m < Pow2(i - 1)
    ensures n == m + Shl(1, i - 1) && low + Shl(1, i) == bit + 2 * n
  {
    bit, m := low % 2, low / 2;
    n := m + Shl(1, i - 1);
  }

  // A mask with a further bit above.

  lemma {:induction false} PopCountMore(low: nat, i: nat)
    requires low < Pow2(i)
    ensures PopCount(low + Shl(1, i)) == PopCount(low) + 1
    decreases i
  {
    if i == 0 {
      PopCountCons(1, 1, 0);
    } else {
      var bit, m, n := Unfolded(low, i);
      PopCountCons(low, bit, m);
      PopCountCons(low + Shl(1, i), bit, n);
      PopCountMore(m, i - 1);
    }
  }

  lemma {:induction false} CompressedMore(x: nat, low: nat, i: nat)
    requires low < Pow2(i)
    ensures Compressed(x, low + Shl(1, i)) == Compressed(x, low) + Shl(Bit(x, i), PopCount(low))
    decreases i
  {
    if i == 0 {
      CompressedCons(x, 1, 1, 0);
    } else {
      var bit, m, n := Unfolded(low, i);
      var top, p := Bit(x, i), PopCount(m);
      PopCountCons(low, bit, m);
      CompressedCons(x, low, bit, m);
      CompressedCons(x, low + Shl(1, i), bit, n);
      CompressedMore(x / 2, m, i - 1);
      assert Compressed(x / 2, n) == Compressed(x / 2, m) + Shl(top, p);
      assert Shl(top, p + 1) == 2 * Shl(top, p);
    }
  }

  lemma {:induction false} ExpandedMore(x: nat, low: nat, i: nat)
    requires low < Pow2(i)
    ensures Expanded(x, low + Shl(1, i)) == Expanded(x, low) + Shl(Bit(x, PopCount(low)), i)
    decreases i
  {
    if i == 0 {
      ExpandedCons(x, 1, 1, 0);
    } else {
      var bit, m, n := Unfolded(low, i);
      PopCountCons(low, bit, m);
      ExpandedCons(x, low, bit, m);
      ExpandedCons(x, low + Shl(1, i), bit, n);
      ExpandedMore(if bit == 1 then x / 2 else x, m, i - 1);
    }
  }

  lemma {:induction false} ShlZero(i: nat)
    ensures Shl(0, i) == 0
  {
    if i > 0 {
      ShlZero(i - 1);
    }
  }

  lemma {:induction false} ExpandedBelow(x: nat, m: nat, w: nat)
    requires m < Pow2(w)
    ensures Expanded(x, m) < Pow2(w)
    decreases w
  {
    if m > 0 {
      assert w > 0;
      ExpandedBelow(if m % 2 == 1 then x / 2 else x, m / 2, w - 1);
    }
  }

  // -------------------------------------------------------------- the loops

  lemma {:induction false} OrAbove(low: nat, bit: nat, j: nat)
    requires low < Pow2(j) && bit < 2
    ensures Or(low, Shl(bit, j)) == low + Shl(bit, j)
  {
    if bit == 0 {
      ShlZero(j);
    } else if j > 0 {
      OrAbove(low / 2, bit, j - 1);
    }
  }

  /** mask_bit & ( x >> i ) */
  lemma Selected(bit: nat, x: nat, i: nat)
    requires bit < 2
    ensures And(bit, Shr(x, i)) == if bit == 1 then Bit(x, i) else 0
  {
    ShiftedBit(x, i);
    assert And(0, Shr(x, i) / 2) == 0;
  }

  lemma MaskStep(m: nat, i: nat)
    ensures And(Shr(m, i), 1) == Bit(m, i)
    ensures PopCount(Low(m, i + 1)) == PopCount(Low(m, i)) + Bit(m, i)
  {
    ShiftedBit(m, i);
    MaskGrows(m, i);
    PopCountMore(Low(m, i), i);
    ShlZero(i);
  }

  lemma CompressStep(x: nat, m: nat, i: nat, j: nat)
    requires j == PopCount(Low(m, i))
    ensures Or(Compressed(x, Low(m, i)), Shl(And(Bit(m, i), Shr(x, i)), j)) == Compressed(x, Low(m, i + 1))
  {
    var low, bit := Low(m, i), And(Bit(m, i), Shr(x, i));
    MaskGrows(m, i);
    PopCountMore(low, i);
    CompressedMore(x, low, i);
    Selected(Bit(m, i), x, i);
    CompressedBelow(x, low);
    OrAbove(Compressed(x, low), bit, j);
    ShlZero(i);
    ShlZero(j);
  }

  lemma ExpandStep(x: nat, m: nat, i: nat, j: nat)
    requires j == PopCount(Low(m, i))
    ensures Or(Expanded(x, Low(m, i)), Shl(And(Bit(m, i), Shr(x, j)), i)) == Expanded(x, Low(m, i + 1))
  {
    var low, bit := Low(m, i), And(Bit(m, i), Shr(x, j));
    MaskGrows(m, i);
    PopCountMore(low, i);
    ExpandedMore(x, low, i);
    Selected(Bit(m, i), x, j);
    ExpandedBelow(x, low, i);
    OrAbove(Expanded(x, low), bit, i);
    ShlZero(i);
  }

  lemma {:induction false} Whole(m: nat, w: nat)
    requires m < Pow2(w)
    ensures Low(m, w) == m
  {
    if w > 0 {
      Whole(m / 2, w - 1);
    }
  }

  /** detail::bit_compress for integers of w bits. */
  method BitCompress(w: nat, x: nat, m: nat) returns (result: nat)
    requires x < Pow2(w) && m < Pow2(w)
    ensures result == Compressed(x, m)
  {
    Whole(m, w);
    result := 0;
    var i, j := 0, 0;
    while i < w
      invariant i <= w
      invariant j == PopCount(Low(m, i))
      invariant result == Compressed(x, Low(m, i))
    {
      MaskStep(m, i);
      CompressStep(x, m, i, j);
      var maskBit := And(Shr(m, i), 1);
      result := Or(result, Shl(And(maskBit, Shr(x, i)), j));
      j := j + maskBit;
      i := i + 1;
    }
  }

  /** detail::bit_expand for integers of w bits. */
  method BitExpand(w: nat, x: nat, m: nat) returns (result: nat)
    requires x < Pow2(w) && m < Pow2(w)
    ensures result == Expanded(x, m)
  {
    Whole(m, w);
    result := 0;
    var i, j := 0, 0;
    while i < w
      invariant i <= w
      invariant j == PopCount(Low(m, i))
      invariant result == Expanded(x, Low(m, i))
    {
      MaskStep(m, i);
      ExpandStep(x, m, i, j);
      var maskBit := And(Shr(m, i), 1);
      result := Or(result, Shl(And(maskBit, Shr(x, j)), i));
      j := j + maskBit;
      i := i + 1;
    }
  }

  /** No bit leaves the width: the mask has no more than w bits, and all of them are below it. */
  lemma {:induction false} FitsWidth(x: nat, m: nat, w: nat)
    requires m < Pow2(w)
    ensures PopCount(m) <= w
    ensures Compressed(x, m) < Pow2(w) && Expanded(x, m) < Pow2(w)
  {
    CompressedBelow(x, m);
    ExpandedBelow(x, m, w);
    CountBelow(m, w);
    Pow2Mono(PopCount(m), w);
  }

  lemma {:induction false} CountBelow(m: nat, w: nat)
    requires m < Pow2(w)
    ensures PopCount(m) <= w
  {
    if m > 0 {
      assert w > 0;
      CountBelow(m / 2, w - 1);
    }
  }

  // -------------------------------------------------------------- bit_repeat

  lemma {:induction false} TopBit(r: nat, bit: nat, i: nat, k: nat)
    requires r < Pow2(i) && bit < 2 && k <= i
    ensures Bit(r + Shl(bit, i), k) == if k < i then Bit(r, k) else bit
    ensures r + Shl(bit, i) < Pow2(i + 1)
  {
    if i == 0 {
      assert Pow2(0) == 1 && Pow2(1) == 2;
    } else {
      assert r + Shl(bit, i) == r % 2 + 2 * (r / 2 + Shl(bit, i - 1));
      Halves(r % 2, r / 2 + Shl(bit, i - 1));
      TopBit(r / 2, bit, i - 1, if k > 0 then k - 1 else 0);
    }
  }

  /** A number is determined by its bits. */
  lemma {:induction false} BitsDetermine(x: nat, y: nat, w: nat)
    requires x < Pow2(w) && y < Pow2(w)
    requires forall k :: 0 <= k < w ==> Bit(x, k) == Bit(y, k)
    ensures x == y
  {
    if w == 0 {
      assert Pow2(0) == 1;
    } else {
      assert Bit(x, 0) == Bit(y, 0);
      forall k | 0 <= k < w - 1
        ensures Bit(x / 2, k) == Bit(y / 2, k)
      {
        assert Bit(x, k + 1) == Bit(y, k + 1);
      }
      BitsDetermine(x / 2, y / 2, w - 1);
    }
  }

  /** The original's remainder truncates, which for i >= 0 makes no difference; a length of zero divides by zero. */
  method BitRepeat(w: nat, value: nat, length: int) returns (result: nat)
    requires value < Pow2(w) && length != 0
    ensures result < Pow2(w)
    ensures forall k :: 0 <= k < w ==> Bit(result, k) == Bit(value, k % length)
  {
    result := 0;
    var i := 0;
    while i < w
      invariant i <= w
      invariant result < Pow2(i)
      invariant forall k :: 0 <= k < i ==> Bit(result, k) == Bit(value, k % length)
    {
      ghost var r := result;
      var bit := And(Shr(value, i % length), 1);
      ShiftedBit(value, i % length);
      OrAbove(result, bit, i);
      result := Or(result, Shl(bit, i));
      forall k | 0 <= k <= i
        ensures Bit(result, k) == (if k < i then Bit(r, k) else bit) && result < Pow2(i + 1)
      {
        TopBit(r, bit, i, k);
      }
      TopBit(r, bit, i, i);
      i := i + 1;
    }
  }

  /** A pattern as long as the integer is the integer. */
  lemma RepeatWhole(w: nat, value: nat, length: nat, result: nat)
    requires value < Pow2(w) && result < Pow2(w) && length >= w && length > 0
    requires forall k :: 0 <= k < w ==> Bit(result, k) == Bit(value, k % length)
    ensures result == value
  {
    forall k | 0 <= k < w
      ensures Bit(result, k) == Bit(value, k)
    {
      SmallRemainder(k, length);
    }
    BitsDetermine(result, value, w);
  }
}
