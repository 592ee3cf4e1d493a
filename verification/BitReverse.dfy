/**
 The portable form of bit_reverse: the bytes swapped, then the halves, quarters and eighths of each byte.  Integers of
 up to 32 bits are worked on in 32, those of 64 bits in 64; an integer is held in the low bits of a 64-bit one.
 */
module BitReverse {

  function BitOf(x: bv64, i: bv64): bv64
    requires i < 64
  {
    (x >> i) & 1
  }

  /** Every bit of value is at the mirrored place in x, and x has no others. */
  ghost predicate Mirrors(x: bv64, value: bv64, width: bv64)
    requires width <= 64
  {
    && (forall i: bv64 {:trigger BitOf(x, i)} :: i < width ==> BitOf(x, i) == BitOf(value, width - 1 - i))
    && (forall i: bv64 {:trigger BitOf(x, i)} :: width <= i < 64 ==> BitOf(x, i) == 0)
  }

  predicate IsWidth(width: bv64) {
    width == 8 || width == 16 || width == 32 || width == 64
  }

  /** byteswap of an integer of that many bits. */
  function SwapBytes(x: bv64, width: bv64): bv64
    requires IsWidth(width)
  {
    if width == 8 then x
    else if width == 16 then SwapBytes16(x)
    else if width == 32 then SwapBytes32(x)
    else SwapBytes64(x)
  }

  function SwapBytes16(x: bv64): bv64 {
    ((x & 0xFF) << 8) | ((x >> 8) & 0xFF)
  }

  function SwapBytes32(x: bv64): bv64 {
    (SwapBytes16(x) << 16) | SwapBytes16(x >> 16)
  }

  function SwapBytes64(x: bv64): bv64 {
    (SwapBytes32(x) << 32) | SwapBytes32(x >> 32)
  }

  /** What a variable of the working width keeps. */
  function Kept(x: bv64, width: bv64): bv64 {
    if width <= 32 then x & 0xFFFF_FFFF else x
  }

  function Swap4(x: bv64): bv64 {
    ((x >> 4) & 0x0F0F_0F0F_0F0F_0F0F) | ((x & 0x0F0F_0F0F_0F0F_0F0F) << 4)
  }

  function Swap2(x: bv64): bv64 {
    ((x >> 2) & 0x3333_3333_3333_3333) | ((x & 0x3333_3333_3333_3333) << 2)
  }

  function Swap1(x: bv64): bv64 {
    ((x >> 1) & 0x5555_5555_5555_5555) | ((x & 0x5555_5555_5555_5555) << 1)
  }

  function Reversed(value: bv64, width: bv64): bv64
    requires IsWidth(width)
  {
    Kept(Swap1(Kept(Swap2(Kept(Swap4(SwapBytes(value, width)), width)), width)), width)
  }

  lemma ReversedBit(value: bv64, width: bv64, i: bv64)
    requires IsWidth(width) && i < 64 && (width < 64 ==> value >> width == 0)
    ensures BitOf(Reversed(value, width), i) == if i < width then BitOf(value, width - 1 - i) else 0
  {
    if width == 8 {
    } else if width == 16 {
    } else if width == 32 {
    } else {
    }
  }

  method BitReverse(value: bv64, width: bv64) returns (x: bv64)
    requires IsWidth(width) && (width < 64 ==> value >> width == 0)
    ensures Mirrors(x, value, width)
  {
    x := SwapBytes(value, width);
    x := Kept(Swap4(x), width);
    x := Kept(Swap2(x), width);
    x := Kept(Swap1(x), width);
    forall i: bv64 | i < 64
      ensures BitOf(x, i) == if i < width then BitOf(value, width - 1 - i) else 0
    {
      ReversedBit(value, width, i);
    }
  }
}
