/**
 Known answers of MurmurHash3_x86_32, worked out: they fix the constants, rotations and shifts of the definition, the
 order of the bytes, the tail, the length and the seed.
 */
module MurmurHash3Example {
  import opened Arithmetic
  import opened Bits
  import opened LittleEndian
  import opened MurmurHash3
  import opened Wrappers

  // -------------------------------------------------------------- exclusive or, byte by byte

  /** A word by its four bytes, the highest first. */
  datatype Hex = Hex(d: bv8, c: bv8, b: bv8, a: bv8)

  function Number(x: Hex): nat {
    Joined(x.a, Joined(x.b, Joined(x.c, Joined(x.d, 0))))
  }

  function Joined(p: bv8, high: nat): nat {
    p as nat + 0x100 * high
  }

  predicate XorsTo(x: Hex, y: Hex, z: Hex) {
    z.a == x.a ^ y.a && z.b == x.b ^ y.b && z.c == x.c ^ y.c && z.d == x.d ^ y.d
  }

  function Front(bit: nat, high: nat): nat {
    bit + 2 * high
  }

  function Differ(p: nat, q: nat): nat {
    if p == q then 0 else 1
  }

  /** What makes a function the exclusive or. */
  ghost predicate IsXor(f: (nat, nat) -> nat) {
    && f(0, 0) == 0
    && forall p: nat, q: nat, x: nat, y: nat {:trigger f(Front(p, x), Front(q, y))} :: p < 2 && q < 2 ==>
         f(Front(p, x), Front(q, y)) == Front(Differ(p, q), f(x, y))
  }

  lemma XorIsXor()
    ensures IsXor(Xor)
  {
    forall p: nat, q: nat, x: nat, y: nat | p < 2 && q < 2
      ensures Xor(Front(p, x), Front(q, y)) == Front(Differ(p, q), Xor(x, y))
    {
      XorBit(p, q, x, y);
    }
  }

  lemma XorBit(p: nat, q: nat, x: nat, y: nat)
    requires p < 2 && q < 2
    ensures Xor(Front(p, x), Front(q, y)) == Front(Differ(p, q), Xor(x, y))
  {
    var a, b := Front(p, x), Front(q, y);
    DivModUnique(a, 2, x, p);
    DivModUnique(b, 2, y, q);
    if a == 0 || b == 0 {
      XorNothing(a, b, p, q, x, y);
    } else {
      XorHalves(a, b, p, q, x, y);
    }
  }

  lemma XorHalves(a: nat, b: nat, p: nat, q: nat, x: nat, y: nat)
    requires a > 0 && b > 0 && a / 2 == x && a % 2 == p && b / 2 == y && b % 2 == q
    ensures Xor(a, b) == Front(Differ(p, q), Xor(x, y))
  {}

  lemma XorNothing(a: nat, b: nat, p: nat, q: nat, x: nat, y: nat)
    requires a == Front(p, x) && b == Front(q, y) && p < 2 && q < 2 && (a == 0 || b == 0)
    ensures Xor(a, b) == Front(Differ(p, q), Xor(x, y))
  {
    assert if a == 0 then x == 0 && p == 0 else y == 0 && q == 0;
  }

  function Bit(p: bv8): nat {
    if p == 0 then 0 else 1
  }

  function Low(p: bv8, high: nat): nat {
    Front(Bit(p & 1), Front(Bit(p & 2), Front(Bit(p & 4), Front(Bit(p & 8), high))))
  }

  function High(p: bv8, high: nat): nat {
    Front(Bit(p & 16), Front(Bit(p & 32), Front(Bit(p & 64), Front(Bit(p & 128), high))))
  }

  lemma EightBits(p: bv8)
    ensures p as nat == Bit(p & 1) + 2 * Bit(p & 2) + 4 * Bit(p & 4) + 8 * Bit(p & 8)
                        + 16 * Bit(p & 16) + 32 * Bit(p & 32) + 64 * Bit(p & 64) + 128 * Bit(p & 128)
  {}

  lemma Nested(n: nat, a: nat, b: nat, c: nat, d: nat, e: nat, f: nat, g: nat, h: nat, high: nat)
    requires n == a + 2 * b + 4 * c + 8 * d + 16 * e + 32 * f + 64 * g + 128 * h
    ensures n + 0x100 * high
         == Front(a, Front(b, Front(c, Front(d, Front(e, Front(f, Front(g, Front(h, high))))))))
  {}

  lemma JoinedBits(p: bv8, high: nat)
    ensures Joined(p, high) == Low(p, High(p, high))
  {
    EightBits(p);
    Nested(p as nat, Bit(p & 1), Bit(p & 2), Bit(p & 4), Bit(p & 8), Bit(p & 16), Bit(p & 32), Bit(p & 64),
           Bit(p & 128), high);
  }

  lemma BitOf(p: bv8, q: bv8, one: bv8)
    requires one == 1 || one == 2 || one == 4 || one == 8 || one == 16 || one == 32 || one == 64 || one == 128
    ensures Differ(Bit(p & one), Bit(q & one)) == Bit((p ^ q) & one)
  {}

  lemma XorLow(f: (nat, nat) -> nat, p: bv8, q: bv8, x: nat, y: nat)
    requires IsXor(f)
    ensures f(Low(p, x), Low(q, y)) == Low(p ^ q, f(x, y))
  {
    BitOf(p, q, 1);
    BitOf(p, q, 2);
    BitOf(p, q, 4);
    BitOf(p, q, 8);
    var r := p ^ q;
    FourBits(f, Bit(p & 1), Bit(p & 2), Bit(p & 4), Bit(p & 8), x, Bit(q & 1), Bit(q & 2), Bit(q & 4), Bit(q & 8), y);
  }

  lemma XorHigh(f: (nat, nat) -> nat, p: bv8, q: bv8, x: nat, y: nat)
    requires IsXor(f)
    ensures f(High(p, x), High(q, y)) == High(p ^ q, f(x, y))
  {
    BitOf(p, q, 16);
    BitOf(p, q, 32);
    BitOf(p, q, 64);
    BitOf(p, q, 128);
    FourBits(f, Bit(p & 16), Bit(p & 32), Bit(p & 64), Bit(p & 128), x,
             Bit(q & 16), Bit(q & 32), Bit(q & 64), Bit(q & 128), y);
  }

  lemma FourBits(f: (nat, nat) -> nat, a: nat, b: nat, c: nat, d: nat, x: nat, i: nat, j: nat, k: nat, l: nat, y: nat)
    requires IsXor(f) && a < 2 && b < 2 && c < 2 && d < 2 && i < 2 && j < 2 && k < 2 && l < 2
    ensures f(Front(a, Front(b, Front(c, Front(d, x)))), Front(i, Front(j, Front(k, Front(l, y)))))
         == Front(Differ(a, i), Front(Differ(b, j), Front(Differ(c, k), Front(Differ(d, l), f(x, y)))))
  {}

  lemma XorByte(f: (nat, nat) -> nat, p: bv8, q: bv8, r: bv8, x: nat, y: nat)
    requires IsXor(f) && r == p ^ q
    ensures f(Joined(p, x), Joined(q, y)) == Joined(r, f(x, y))
  {
    JoinedBits(p, x);
    JoinedBits(q, y);
    JoinedBits(r, f(x, y));
    XorLow(f, p, q, High(p, x), High(q, y));
    XorHigh(f, p, q, x, y);
  }

  function Upper(x: Hex): nat {
    Joined(x.c, Joined(x.d, 0))
  }

  lemma XorUpper(f: (nat, nat) -> nat, x: Hex, y: Hex, z: Hex)
    requires IsXor(f) && XorsTo(x, y, z)
    ensures f(Upper(x), Upper(y)) == Upper(z)
  {
    XorPair(f, x.d, y.d, z.d, x.c, y.c, z.c, 0, 0, 0);
  }

  lemma XorBytes(f: (nat, nat) -> nat, x: Hex, y: Hex, z: Hex)
    requires IsXor(f) && XorsTo(x, y, z)
    ensures f(Number(x), Number(y)) == Number(z)
  {
    XorUpper(f, x, y, z);
    XorPair(f, x.b, y.b, z.b, x.a, y.a, z.a, Upper(x), Upper(y), Upper(z));
  }

  lemma XorPair(f: (nat, nat) -> nat, b: bv8, v: bv8, m: bv8, a: bv8, u: bv8, n: bv8, x: nat, y: nat, z: nat)
    requires IsXor(f) && m == b ^ v && n == a ^ u && f(x, y) == z
    ensures f(Joined(a, Joined(b, x)), Joined(u, Joined(v, y))) == Joined(n, Joined(m, z))
  {
    XorByte(f, b, v, m, x, y);
    XorByte(f, a, u, n, Joined(b, x), Joined(v, y));
  }

  lemma XorIs(x: Hex, y: Hex, z: Hex)
    requires XorsTo(x, y, z)
    ensures Xor(Number(x), Number(y)) == Number(z)
  {
    XorIsXor();
    XorBytes(Xor, x, y, z);
  }

  // -------------------------------------------------------------- the parts of the hash

  /** The low bits move up, and the high ones come down. */
  lemma RotateParts(x: nat, left: nat, right: nat)
    requires x < M32 && left >= 1 && right >= 1 && left * right == M32
    ensures x / right < left && Mul(x, left) == (x % right) * left
  {
    var q, r := x / right, x % right;
    DivModLaw(x, right);
    if q >= left {
      MulLe(left, q, right);
      assert false;
    }
    Distribute(q * right, r, left);
    MulAssoc(q, right, left);
    MulLe(r + 1, right, left);
    Distribute(r, 1, left);
    MulNonNeg(r, left);
    DivModUnique(x * left, M32, q, r * left);
  }

  /** A rotation is a sum. */
  lemma RotlIs(x: nat, left: nat, right: nat, k: nat)
    requires x < M32 && left == Pow2(k) && right >= 1 && left * right == M32
    ensures Rotl(x, left, right) == Mul(x, left) + x / right
  {
    RotateParts(x, left, right);
    OrDisjoint(x / right, x % right, k);
  }

  lemma ScrambleIs(w: nat, a: nat, b: nat, s: nat)
    requires a == w * 0xcc9e2d51 % M32 && b == a * 0x8000 % M32 + a / 0x2_0000 && s == b * 0x1b873593 % M32
    ensures Scramble(w) == s
  {
    Powers();
    RotlIs(a, 0x8000, 0x2_0000, 15);
  }

  lemma SpreadIs(m: nat, y: nat, r: nat)
    requires m < M32 && y == m * 0x2000 % M32 + m / 0x8_0000 && r == (y * 5 % M32 + 0xe6546b64) % M32
    ensures Spread(m) == r
  {
    Powers();
    RotlIs(m, 0x2000, 0x8_0000, 13);
  }

  lemma Powers()
    ensures Pow2(13) == 0x2000 && Pow2(15) == 0x8000
  {
    Pow2Byte(5);
    assert Pow2(5) == 2 * Pow2(4) == 4 * Pow2(3) == 8 * Pow2(2) == 16 * Pow2(1) == 32 * Pow2(0) == 32;
    assert Pow2(15) == 2 * Pow2(14) == 4 * Pow2(13);
  }

  lemma FinalizeIs(z: nat, x: nat, a: nat, y: nat, b: nat, r: nat)
    requires x == Xor(z, z / 0x1_0000) && a == x * 0x85ebca6b % M32
    requires y == Xor(a, a / 0x2000) && b == y * 0xc2b2ae35 % M32 && r == Xor(b, b / 0x1_0000)
    ensures Finalize(z) == r
  {}

  // -------------------------------------------------------------- the hash, a word at a time

  /** The parts of the hash, so that a statement about them can be made without their definitions. */
  datatype Parts = Parts(scramble: nat -> uint32, spread: nat -> nat, mixIn: (nat, nat) -> nat,
                         xor: (nat, nat) -> nat, finalize: nat -> nat)

  ghost predicate IsMurmur(p: Parts) {
    p == Parts(Scramble, Spread, MixIn, Xor, Finalize)
  }

  ghost predicate ScramblesTo(word: nat, r: nat) {
    forall p: Parts {:trigger IsMurmur(p)} :: IsMurmur(p) ==> p.scramble(word) == r
  }

  ghost predicate SpreadsTo(m: nat, r: nat) {
    forall p: Parts {:trigger IsMurmur(p)} :: IsMurmur(p) ==> p.spread(m) == r
  }

  /** A block that spells the word takes the hash from h to after. */
  ghost predicate StepsTo(h: Hex, word: nat, after: Hex) {
    forall p: Parts {:trigger IsMurmur(p)} :: IsMurmur(p) ==>
      p.mixIn(Number(h), p.scramble(word)) == Number(after)
  }

  /** The tail, if there is one, takes it from h to after ... */
  ghost predicate TailTo(h: Hex, tail: Option<nat>, after: Hex) {
    if tail.None? then after == h
    else forall p: Parts {:trigger IsMurmur(p)} :: IsMurmur(p) ==>
           p.xor(Number(h), p.scramble(tail.value)) == Number(after)
  }

  /** ... and the length and the finalization to the result. */
  ghost predicate EndsTo(h: Hex, length: nat, result: Hex) {
    forall p: Parts {:trigger IsMurmur(p)} :: IsMurmur(p) ==>
      p.finalize(p.xor(Number(h), length)) == Number(result)
  }

  /** The words that come up when a word is scrambled, with the quotients of what is reduced ... */
  lemma Scrambling(w: nat, p: nat, a: nat, high: nat, low: nat, b: nat, q: nat, s: nat)
    requires w * 0xcc9e2d51 == p * 0x1_0000_0000 + a && a == high * 0x2_0000 + low
    requires b == low * 0x8000 + high && b * 0x1b873593 == q * 0x1_0000_0000 + s
    requires a < 0x1_0000_0000 && low < 0x2_0000 && s < 0x1_0000_0000
    ensures ScramblesTo(w, s)
  {
    DivModUnique(w * 0xcc9e2d51, M32, p, a);
    DivModUnique(a, 0x2_0000, high, low);
    DivModUnique(a * 0x8000, M32, high, low * 0x8000);
    DivModUnique(b * 0x1b873593, M32, q, s);
    ScrambleIs(w, a, b, s);
  }

  /** ... and when the hash is spread. */
  lemma Spreading(m: nat, high: nat, low: nat, y: nat, p: nat, z: nat, q: nat, r: nat)
    requires m == high * 0x8_0000 + low && y == low * 0x2000 + high && y * 5 == p * 0x1_0000_0000 + z
    requires z + 0xe6546b64 == q * 0x1_0000_0000 + r
    requires m < 0x1_0000_0000 && low < 0x8_0000 && z < 0x1_0000_0000 && r < 0x1_0000_0000
    ensures SpreadsTo(m, r)
  {
    DivModUnique(m, 0x8_0000, high, low);
    DivModUnique(m * 0x2000, M32, high, low * 0x2000);
    DivModUnique(y * 5, M32, p, z);
    DivModUnique(z + 0xe6546b64, M32, q, r);
    SpreadIs(m, y, r);
  }

  lemma Mixing(h: Hex, w: nat, k: Hex, s: nat, x: Hex, m: nat, after: Hex, r: nat)
    requires ScramblesTo(w, s) && Number(k) == s && XorsTo(h, k, x)
    requires Number(x) == m && SpreadsTo(m, r) && Number(after) == r
    ensures StepsTo(h, w, after)
  {
    XorIs(h, k, x);
  }

  lemma MixingTail(h: Hex, w: nat, k: Hex, s: nat, x: Hex)
    requires ScramblesTo(w, s) && Number(k) == s && XorsTo(h, k, x)
    ensures TailTo(h, Some(w), x)
  {
    XorIs(h, k, x);
  }

  /** The words that come up at the end, and the result. */
  lemma End(h: Hex, l: Hex, length: nat, z: Hex, nz: nat, z16: Hex, x: Hex, nx: nat, a: Hex, na: nat, a13: Hex,
            y: Hex, ny: nat, b: Hex, nb: nat, b16: Hex, result: Hex)
    requires Number(l) == length && XorsTo(h, l, z)
    requires Number(z) == nz && Number(z16) == nz / 0x1_0000 && XorsTo(z, z16, x)
    requires Number(x) == nx && Number(a) == na == nx * 0x85ebca6b % 0x1_0000_0000
    requires Number(a13) == na / 0x2000 && XorsTo(a, a13, y)
    requires Number(y) == ny && Number(b) == nb == ny * 0xc2b2ae35 % 0x1_0000_0000
    requires Number(b16) == nb / 0x1_0000 && XorsTo(b, b16, result)
    ensures EndsTo(h, length, result)
  {
    XorIs(h, l, z);
    XorIs(z, z16, x);
    XorIs(a, a13, y);
    XorIs(b, b16, result);
    FinalizeIs(nz, nx, na, ny, nb, Number(result));
  }

  // -------------------------------------------------------------- the hash of a text

  lemma NextBlock(m: Mixer, seed: nat, s: seq<byte>, k: nat, next: nat, w: nat)
    requires next == k + 1 && 4 * next <= |s| && Word(s[4 * k..4 * next]) == w
    ensures Blocks(m, seed, s, next) == m.mixIn(Blocks(m, seed, s, k), m.scramble(w))
  {
    assert 4 * next - 4 == 4 * k;
  }

  lemma Stepped(h: Hex, w: nat, after: Hex)
    requires StepsTo(h, w, after)
    ensures MixIn(Number(h), Scramble(w)) == Number(after)
  {
    assert IsMurmur(Parts(Scramble, Spread, MixIn, Xor, Finalize));
  }

  lemma Tailed(h: Hex, tail: Option<nat>, after: Hex)
    requires TailTo(h, tail, after)
    ensures Number(after) == if tail.None? then Number(h) else Xor(Number(h), Scramble(tail.value))
  {
    assert IsMurmur(Parts(Scramble, Spread, MixIn, Xor, Finalize));
  }

  lemma Ended(p: Parts, h: Hex, length: nat, z: nat, result: Hex)
    requires EndsTo(h, length, result) && IsMurmur(p) && p.xor(Number(h), length) == z
    ensures p.finalize(z) == Number(result)
  {}

  /** One block more. */
  lemma OneMore(seed: nat, s: seq<byte>, k: nat, next: nat, h: Hex, block: seq<byte>, w: nat, after: Hex)
    requires next == k + 1 && 4 * next <= |s| && s[4 * k..4 * next] == block && Word(block) == w
    requires StepsTo(h, w, after) && Blocks(MURMUR, seed, s, k) == Number(h)
    ensures Blocks(MURMUR, seed, s, next) == Number(after)
  {
    NextBlock(MURMUR, seed, s, k, next, w);
    Stepped(h, w, after);
  }

  lemma Answer(seed: nat, s: seq<byte>, k: nat, h: nat, tail: seq<byte>)
    requires |s| == 4 * k + |tail| && |tail| < 4 && s[4 * k..] == tail && Blocks(MURMUR, seed, s, k) == h
    requires |s| < M32
    ensures Murmur(seed, s) == Finalize(Xor(if tail == [] then h else Xor(h, Scramble(Word(tail))), |s|))
  {
    var n, l := |tail|, |s|;
    DivModUnique(l, 4, k, n);
    SmallRemainder(l, M32);
    assert Tail(s) == tail;
  }

  function TailWord(bytes: seq<byte>): Option<nat> {
    if bytes == [] then None else Some(Word(bytes))
  }

  lemma Rest(seed: nat, s: seq<byte>, k: nat, h: Hex, bytes: seq<byte>, after: Hex, hash: Hex)
    requires |s| == 4 * k + |bytes| && |bytes| < 4 && s[4 * k..] == bytes && |s| < M32
    requires Blocks(MURMUR, seed, s, k) == Number(h) && TailTo(h, TailWord(bytes), after) && EndsTo(after, |s|, hash)
    ensures Murmur(seed, s) == Number(hash)
  {
    Answer(seed, s, k, Number(h), bytes);
    Tailed(h, TailWord(bytes), after);
    var p := Parts(Scramble, Spread, MixIn, Xor, Finalize);
    var z := Xor(Number(after), |s|);
    Ended(p, after, |s|, z, hash);
  }

  /** The answer for a seed and a text, in a form that keeps the definition of the hash out of sight. */
  ghost predicate Answers(seed: Hex, s: seq<byte>, hash: Hex) {
    forall f: (nat, seq<byte>) -> nat {:trigger IsHash(f)} :: IsHash(f) ==> f(Number(seed), s) == Number(hash)
  }

  ghost predicate IsHash(f: (nat, seq<byte>) -> nat) {
    f == Murmur
  }

  lemma Reads(seed: Hex, s: seq<byte>, hash: Hex, n: nat, r: nat)
    requires Answers(seed, s, hash) && Number(seed) == n && Number(hash) == r
    ensures Murmur(n, s) == r
  {
    assert IsHash(Murmur);
  }

  /** The hash of a text without a block ... */
  lemma NoBlock(seed: Hex, s: seq<byte>, after: Hex, hash: Hex)
    requires |s| < 4 && TailTo(seed, TailWord(s), after) && EndsTo(after, |s|, hash)
    ensures Answers(seed, s, hash)
  {
    assert s[0..] == s;
    Rest(Number(seed), s, 0, seed, s, after, hash);
  }

  /** The word that four bytes spell. */
  function Spelled(a: byte, b: byte, c: byte, d: byte): nat {
    a + 0x100 * b + 0x1_0000 * c + 0x100_0000 * d
  }

  /** ... with one ... */
  lemma AfterOne(seed: Hex, s: seq<byte>, a: byte, b: byte, c: byte, d: byte, w: nat, h: Hex, bytes: seq<byte>,
                 after: Hex, hash: Hex)
    requires s == [a, b, c, d] + bytes && |bytes| < 4 && w == Spelled(a, b, c, d)
    requires StepsTo(seed, w, h) && TailTo(h, TailWord(bytes), after) && EndsTo(after, |s|, hash)
    ensures Answers(seed, s, hash)
  {
    Words(a, b, c, d);
    assert s[0..4] == [a, b, c, d] && s[4..] == bytes;
    OneMore(Number(seed), s, 0, 1, seed, [a, b, c, d], w, h);
    Rest(Number(seed), s, 1, h, bytes, after, hash);
  }

  lemma ThreeSteps(seed: nat, s: seq<byte>, h: Hex, b0: seq<byte>, w0: nat, h0: Hex, b1: seq<byte>, w1: nat, h1: Hex,
                   b2: seq<byte>, w2: nat, h2: Hex)
    requires |s| >= 12 && s[0..4] == b0 && s[4..8] == b1 && s[8..12] == b2
    requires Word(b0) == w0 && Word(b1) == w1 && Word(b2) == w2
    requires StepsTo(h, w0, h0) && StepsTo(h0, w1, h1) && StepsTo(h1, w2, h2) && Number(h) == seed
    ensures Blocks(MURMUR, seed, s, 3) == Number(h2)
  {
    OneMore(seed, s, 0, 1, h, b0, w0, h0);
    OneMore(seed, s, 1, 2, h0, b1, w1, h1);
    OneMore(seed, s, 2, 3, h1, b2, w2, h2);
  }

  /** ... and with three. */
  lemma AfterThree(seed: Hex, s: seq<byte>, a: byte, b: byte, c: byte, d: byte, w: nat, h: Hex,
                   e: byte, f: byte, g: byte, i: byte, v: nat, m: Hex, j: byte, k: byte, l: byte, n: byte, u: nat,
                   o: Hex, bytes: seq<byte>, after: Hex, hash: Hex)
    requires s == [a, b, c, d] + [e, f, g, i] + [j, k, l, n] + bytes && |bytes| < 4
    requires w == Spelled(a, b, c, d) && v == Spelled(e, f, g, i) && u == Spelled(j, k, l, n)
    requires StepsTo(seed, w, h) && StepsTo(h, v, m) && StepsTo(m, u, o)
    requires TailTo(o, TailWord(bytes), after) && EndsTo(after, |s|, hash)
    ensures Answers(seed, s, hash)
  {
    Words(a, b, c, d);
    Words(e, f, g, i);
    Words(j, k, l, n);
    var b0, b1, b2 := [a, b, c, d], [e, f, g, i], [j, k, l, n];
    assert s[0..4] == b0 && s[4..8] == b1 && s[8..12] == b2 && s[12..] == bytes;
    ThreeSteps(Number(seed), s, seed, b0, w, h, b1, v, m, b2, u, o);
    Rest(Number(seed), s, 3, o, bytes, after, hash);
  }

  // -------------------------------------------------------------- known answers

  lemma NothingEnd()
    ensures EndsTo(Hex(0x00, 0x00, 0x00, 0x00), 0, Hex(0x00, 0x00, 0x00, 0x00))
  {
    End(Hex(0x00, 0x00, 0x00, 0x00), Hex(0x00, 0x00, 0x00, 0x00), 0, Hex(0x00, 0x00, 0x00, 0x00), 0,
        Hex(0x00, 0x00, 0x00, 0x00), Hex(0x00, 0x00, 0x00, 0x00), 0, Hex(0x00, 0x00, 0x00, 0x00), 0,
        Hex(0x00, 0x00, 0x00, 0x00), Hex(0x00, 0x00, 0x00, 0x00), 0, Hex(0x00, 0x00, 0x00, 0x00), 0,
        Hex(0x00, 0x00, 0x00, 0x00), Hex(0x00, 0x00, 0x00, 0x00));
  }

  lemma NothingAnswer(s: seq<byte>)
    requires s == Ascii("")
    ensures Answers(Hex(0x00, 0x00, 0x00, 0x00), s, Hex(0x00, 0x00, 0x00, 0x00))
  {
    NothingEnd();
    NoBlock(Hex(0x00, 0x00, 0x00, 0x00), s, Hex(0x00, 0x00, 0x00, 0x00), Hex(0x00, 0x00, 0x00, 0x00));
  }

  /** Finalization alone: of zero ... */
  lemma Nothing(s: seq<byte>)
    requires s == Ascii("")
    ensures Murmur(0, s) == 0
  {
    NothingAnswer(s);
    Reads(Hex(0x00, 0x00, 0x00, 0x00), s, Hex(0x00, 0x00, 0x00, 0x00), 0, 0);
  }

  lemma SeededEnd()
    ensures EndsTo(Hex(0x00, 0x00, 0x00, 0x01), 0, Hex(0x51, 0x4e, 0x28, 0xb7))
  {
    End(Hex(0x00, 0x00, 0x00, 0x01), Hex(0x00, 0x00, 0x00, 0x00), 0, Hex(0x00, 0x00, 0x00, 0x01), 1,
        Hex(0x00, 0x00, 0x00, 0x00), Hex(0x00, 0x00, 0x00, 0x01), 1, Hex(0x85, 0xeb, 0xca, 0x6b), 0x85ebca6b,
        Hex(0x00, 0x04, 0x2f, 0x5e), Hex(0x85, 0xef, 0xe5, 0x35), 0x85efe535, Hex(0x51, 0x4e, 0x79, 0xf9),
        0x514e79f9, Hex(0x00, 0x00, 0x51, 0x4e), Hex(0x51, 0x4e, 0x28, 0xb7));
  }

  lemma SeededAnswer(s: seq<byte>)
    requires s == Ascii("")
    ensures Answers(Hex(0x00, 0x00, 0x00, 0x01), s, Hex(0x51, 0x4e, 0x28, 0xb7))
  {
    SeededEnd();
    NoBlock(Hex(0x00, 0x00, 0x00, 0x01), s, Hex(0x00, 0x00, 0x00, 0x01), Hex(0x51, 0x4e, 0x28, 0xb7));
  }

  /** ... and of a seed. */
  lemma Seeded(s: seq<byte>)
    requires s == Ascii("")
    ensures Murmur(1, s) == 0x514e28b7
  {
    SeededAnswer(s);
    Reads(Hex(0x00, 0x00, 0x00, 0x01), s, Hex(0x51, 0x4e, 0x28, 0xb7), 1, 0x514e28b7);
  }

  lemma OneBlockText()
    ensures Ascii("test") == [0x74, 0x65, 0x73, 0x74] + []
  {}

  lemma OneBlockStepWord()
    ensures ScramblesTo(0x74736574, 0x465f51e8)
  {
    Scrambling(0x74736574, 0x5d13e8ae, 0x2ef07db4, 0x1778, 0x7db4, 0x3eda1778, 0x6c232a3, 0x465f51e8);
  }

  lemma OneBlockStepSpread()
    ensures SpreadsTo(0x465f51e8, 0x7985975b)
  {
    Spreading(0x465f51e8, 0x8cb, 0x751e8, 0xea3d08cb, 4, 0x93312bf7, 1, 0x7985975b);
  }

  lemma OneBlockStep()
    ensures StepsTo(Hex(0x00, 0x00, 0x00, 0x00), 0x74736574, Hex(0x79, 0x85, 0x97, 0x5b))
  {
    OneBlockStepWord();
    OneBlockStepSpread();
    Mixing(Hex(0x00, 0x00, 0x00, 0x00), 0x74736574, Hex(0x46, 0x5f, 0x51, 0xe8), 0x465f51e8,
           Hex(0x46, 0x5f, 0x51, 0xe8), 0x465f51e8, Hex(0x79, 0x85, 0x97, 0x5b), 0x7985975b);
  }

  lemma OneBlockEnd()
    ensures EndsTo(Hex(0x79, 0x85, 0x97, 0x5b), 4, Hex(0xba, 0x6b, 0xd2, 0x13))
  {
    End(Hex(0x79, 0x85, 0x97, 0x5b), Hex(0x00, 0x00, 0x00, 0x04), 4, Hex(0x79, 0x85, 0x97, 0x5f), 0x7985975f,
        Hex(0x00, 0x00, 0x79, 0x85), Hex(0x79, 0x85, 0xee, 0xda), 0x7985eeda, Hex(0xfd, 0x90, 0xd9, 0x1e),
        0xfd90d91e, Hex(0x00, 0x07, 0xec, 0x86), Hex(0xfd, 0x97, 0x35, 0x98), 0xfd973598,
        Hex(0xba, 0x6b, 0x68, 0x78), 0xba6b6878, Hex(0x00, 0x00, 0xba, 0x6b), Hex(0xba, 0x6b, 0xd2, 0x13));
  }

  lemma OneBlockAnswer(s: seq<byte>)
    requires s == Ascii("test")
    ensures Answers(Hex(0x00, 0x00, 0x00, 0x00), s, Hex(0xba, 0x6b, 0xd2, 0x13))
  {
    OneBlockText();
    OneBlockStep();
    OneBlockEnd();
    AfterOne(Hex(0x00, 0x00, 0x00, 0x00), s, 0x74, 0x65, 0x73, 0x74, 0x74736574, Hex(0x79, 0x85, 0x97, 0x5b), [],
             Hex(0x79, 0x85, 0x97, 0x5b), Hex(0xba, 0x6b, 0xd2, 0x13));
  }

  /** One block. */
  lemma OneBlock(s: seq<byte>)
    requires s == Ascii("test")
    ensures Murmur(0, s) == 0xba6bd213
  {
    OneBlockAnswer(s);
    Reads(Hex(0x00, 0x00, 0x00, 0x00), s, Hex(0xba, 0x6b, 0xd2, 0x13), 0, 0xba6bd213);
  }

  lemma BlockAndByteText()
    ensures Ascii("hello") == [0x68, 0x65, 0x6c, 0x6c] + [0x6f]
  {}

  lemma BlockAndByteStepWord()
    ensures ScramblesTo(0x6c6c6568, 0xa0ae7465)
  {
    Scrambling(0x6c6c6568, 0x56a95ee6, 0xd24f5de8, 0x6927, 0x15de8, 0xaef46927, 0x12d02e97, 0xa0ae7465);
  }

  lemma BlockAndByteStepSpread()
    ensures SpreadsTo(0xa0ae7465, 0xef13efcd)
  {
    Spreading(0xa0ae7465, 0x1415, 0x67465, 0xce8cb415, 4, 0x8bf8469, 0, 0xef13efcd);
  }

  lemma BlockAndByteStep()
    ensures StepsTo(Hex(0x00, 0x00, 0x00, 0x00), 0x6c6c6568, Hex(0xef, 0x13, 0xef, 0xcd))
  {
    BlockAndByteStepWord();
    BlockAndByteStepSpread();
    Mixing(Hex(0x00, 0x00, 0x00, 0x00), 0x6c6c6568, Hex(0xa0, 0xae, 0x74, 0x65), 0xa0ae7465,
           Hex(0xa0, 0xae, 0x74, 0x65), 0xa0ae7465, Hex(0xef, 0x13, 0xef, 0xcd), 0xef13efcd);
  }

  lemma BlockAndByteTailWord()
    ensures ScramblesTo(0x6f, 0x73bcd07e)
  {
    Scrambling(0x6f, 0x58, 0xb895a61f, 0x5c4a, 0x1a61f, 0xd30fdc4a, 0x16b225c4, 0x73bcd07e);
  }

  lemma BlockAndByteTail()
    ensures TailTo(Hex(0xef, 0x13, 0xef, 0xcd), TailWord([0x6f]), Hex(0x9c, 0xaf, 0x3f, 0xb3))
  {
    Words(0x6f, 0, 0, 0);
    BlockAndByteTailWord();
    MixingTail(Hex(0xef, 0x13, 0xef, 0xcd), 0x6f, Hex(0x73, 0xbc, 0xd0, 0x7e), 0x73bcd07e,
               Hex(0x9c, 0xaf, 0x3f, 0xb3));
  }

  lemma BlockAndByteEnd()
    ensures EndsTo(Hex(0x9c, 0xaf, 0x3f, 0xb3), 5, Hex(0x24, 0x8b, 0xfa, 0x47))
  {
    End(Hex(0x9c, 0xaf, 0x3f, 0xb3), Hex(0x00, 0x00, 0x00, 0x05), 5, Hex(0x9c, 0xaf, 0x3f, 0xb6), 0x9caf3fb6,
        Hex(0x00, 0x00, 0x9c, 0xaf), Hex(0x9c, 0xaf, 0xa3, 0x19), 0x9cafa319, Hex(0xc9, 0x0d, 0xe5, 0x73),
        0xc90de573, Hex(0x00, 0x06, 0x48, 0x6f), Hex(0xc9, 0x0b, 0xad, 0x1c), 0xc90bad1c,
        Hex(0x24, 0x8b, 0xde, 0xcc), 0x248bdecc, Hex(0x00, 0x00, 0x24, 0x8b), Hex(0x24, 0x8b, 0xfa, 0x47));
  }

  lemma BlockAndByteAnswer(s: seq<byte>)
    requires s == Ascii("hello")
    ensures Answers(Hex(0x00, 0x00, 0x00, 0x00), s, Hex(0x24, 0x8b, 0xfa, 0x47))
  {
    BlockAndByteText();
    BlockAndByteStep();
    BlockAndByteTail();
    BlockAndByteEnd();
    AfterOne(Hex(0x00, 0x00, 0x00, 0x00), s, 0x68, 0x65, 0x6c, 0x6c, 0x6c6c6568, Hex(0xef, 0x13, 0xef, 0xcd),
             [0x6f], Hex(0x9c, 0xaf, 0x3f, 0xb3), Hex(0x24, 0x8b, 0xfa, 0x47));
  }

  /** A block and a tail of one byte. */
  lemma BlockAndByte(s: seq<byte>)
    requires s == Ascii("hello")
    ensures Murmur(0, s) == 0x248bfa47
  {
    BlockAndByteAnswer(s);
    Reads(Hex(0x00, 0x00, 0x00, 0x00), s, Hex(0x24, 0x8b, 0xfa, 0x47), 0, 0x248bfa47);
  }

  lemma ThreeBytesText()
    ensures Ascii("aaa") == [0x61, 0x61, 0x61]
  {}

  lemma ThreeBytesTailWord()
    ensures ScramblesTo(0x616161, 0x539d25ff)
  {
    Scrambling(0x616161, 0x4dd5c4, 0xa2cbdcb1, 0x5165, 0x1dcb1, 0xee58d165, 0x19a140cd, 0x539d25ff);
  }

  lemma ThreeBytesTail()
    ensures TailTo(Hex(0x97, 0x47, 0xb2, 0x8c), TailWord([0x61, 0x61, 0x61]), Hex(0xc4, 0xda, 0x97, 0x73))
  {
    Words(0x61, 0x61, 0x61, 0);
    ThreeBytesTailWord();
    MixingTail(Hex(0x97, 0x47, 0xb2, 0x8c), 0x616161, Hex(0x53, 0x9d, 0x25, 0xff), 0x539d25ff,
               Hex(0xc4, 0xda, 0x97, 0x73));
  }

  lemma ThreeBytesEnd()
    ensures EndsTo(Hex(0xc4, 0xda, 0x97, 0x73), 3, Hex(0x28, 0x3e, 0x01, 0x30))
  {
    End(Hex(0xc4, 0xda, 0x97, 0x73), Hex(0x00, 0x00, 0x00, 0x03), 3, Hex(0xc4, 0xda, 0x97, 0x70), 0xc4da9770,
        Hex(0x00, 0x00, 0xc4, 0xda), Hex(0xc4, 0xda, 0x53, 0xaa), 0xc4da53aa, Hex(0xac, 0x53, 0x1c, 0x0e),
        0xac531c0e, Hex(0x00, 0x05, 0x62, 0x98), Hex(0xac, 0x56, 0x7e, 0x96), 0xac567e96,
        Hex(0x28, 0x3e, 0x29, 0x0e), 0x283e290e, Hex(0x00, 0x00, 0x28, 0x3e), Hex(0x28, 0x3e, 0x01, 0x30));
  }

  lemma ThreeBytesAnswer(s: seq<byte>)
    requires s == Ascii("aaa")
    ensures Answers(Hex(0x97, 0x47, 0xb2, 0x8c), s, Hex(0x28, 0x3e, 0x01, 0x30))
  {
    ThreeBytesText();
    ThreeBytesTail();
    ThreeBytesEnd();
    NoBlock(Hex(0x97, 0x47, 0xb2, 0x8c), s, Hex(0xc4, 0xda, 0x97, 0x73), Hex(0x28, 0x3e, 0x01, 0x30));
  }

  /** A tail of three bytes, and a seed. */
  lemma ThreeBytes(s: seq<byte>)
    requires s == Ascii("aaa")
    ensures Murmur(0x9747b28c, s) == 0x283e0130
  {
    ThreeBytesAnswer(s);
    Reads(Hex(0x97, 0x47, 0xb2, 0x8c), s, Hex(0x28, 0x3e, 0x01, 0x30), 0x9747b28c, 0x283e0130);
  }

  lemma ThreeBlocksText()
    ensures Ascii("Hello, world!")
         == [0x48, 0x65, 0x6c, 0x6c] + [0x6f, 0x2c, 0x20, 0x77] + [0x6f, 0x72, 0x6c, 0x64] + [0x21]
  {}

  lemma ThreeBlocksFirstWord()
    ensures ScramblesTo(0x6c6c6548, 0x153080c)
  {
    Scrambling(0x6c6c6548, 0x56a95ecd, 0x3e89b3c8, 0x1f44, 0x1b3c8, 0xd9e41f44, 0x176e2432, 0x153080c);
  }

  lemma ThreeBlocksFirstSpread()
    ensures SpreadsTo(0x9614ba80, 0xdae4c92e)
  {
    Spreading(0x9614ba80, 0x12c2, 0x4ba80, 0x975012c2, 2, 0xf4905dca, 1, 0xdae4c92e);
  }

  lemma ThreeBlocksFirst()
    ensures StepsTo(Hex(0x97, 0x47, 0xb2, 0x8c), 0x6c6c6548, Hex(0xda, 0xe4, 0xc9, 0x2e))
  {
    ThreeBlocksFirstWord();
    ThreeBlocksFirstSpread();
    Mixing(Hex(0x97, 0x47, 0xb2, 0x8c), 0x6c6c6548, Hex(0x01, 0x53, 0x08, 0x0c), 0x153080c,
           Hex(0x96, 0x14, 0xba, 0x80), 0x9614ba80, Hex(0xda, 0xe4, 0xc9, 0x2e), 0xdae4c92e);
  }

  lemma ThreeBlocksSecondWord()
    ensures ScramblesTo(0x77202c6f, 0x7d238cad)
  {
    Scrambling(0x77202c6f, 0x5f373e5a, 0x397f921f, 0x1cbf, 0x1921f, 0xc90f9cbf, 0x159ed6d7, 0x7d238cad);
  }

  lemma ThreeBlocksSecondSpread()
    ensures SpreadsTo(0xa7c74583, 0x71c6b43c)
  {
    Spreading(0xa7c74583, 0x14f8, 0x74583, 0xe8b074f8, 4, 0x8b7248d8, 1, 0x71c6b43c);
  }

  lemma ThreeBlocksSecond()
    ensures StepsTo(Hex(0xda, 0xe4, 0xc9, 0x2e), 0x77202c6f, Hex(0x71, 0xc6, 0xb4, 0x3c))
  {
    ThreeBlocksSecondWord();
    ThreeBlocksSecondSpread();
    Mixing(Hex(0xda, 0xe4, 0xc9, 0x2e), 0x77202c6f, Hex(0x7d, 0x23, 0x8c, 0xad), 0x7d238cad,
           Hex(0xa7, 0xc7, 0x45, 0x83), 0xa7c74583, Hex(0x71, 0xc6, 0xb4, 0x3c), 0x71c6b43c);
  }

  lemma ThreeBlocksThirdWord()
    ensures ScramblesTo(0x646c726f, 0xa9bc9655)
  {
    Scrambling(0x646c726f, 0x504477e5, 0xeaefb81f, 0x7577, 0x1b81f, 0xdc0ff577, 0x17a9e95b, 0xa9bc9655);
  }

  lemma ThreeBlocksThirdSpread()
    ensures SpreadsTo(0xd87a2269, 0x3bd692af)
  {
    Spreading(0xd87a2269, 0x1b0f, 0x22269, 0x444d3b0f, 1, 0x5582274b, 1, 0x3bd692af);
  }

  lemma ThreeBlocksThird()
    ensures StepsTo(Hex(0x71, 0xc6, 0xb4, 0x3c), 0x646c726f, Hex(0x3b, 0xd6, 0x92, 0xaf))
  {
    ThreeBlocksThirdWord();
    ThreeBlocksThirdSpread();
    Mixing(Hex(0x71, 0xc6, 0xb4, 0x3c), 0x646c726f, Hex(0xa9, 0xbc, 0x96, 0x55), 0xa9bc9655,
           Hex(0xd8, 0x7a, 0x22, 0x69), 0xd87a2269, Hex(0x3b, 0xd6, 0x92, 0xaf), 0x3bd692af);
  }

  lemma ThreeBlocksTailWord()
    ensures ScramblesTo(0x21, 0xac5e5123)
  {
    Scrambling(0x21, 0x1a, 0x6063d771, 0x3031, 0x1d771, 0xebb8b031, 0x1958fa4e, 0xac5e5123);
  }

  lemma ThreeBlocksTail()
    ensures TailTo(Hex(0x3b, 0xd6, 0x92, 0xaf), TailWord([0x21]), Hex(0x97, 0x88, 0xc3, 0x8c))
  {
    Words(0x21, 0, 0, 0);
    ThreeBlocksTailWord();
    MixingTail(Hex(0x3b, 0xd6, 0x92, 0xaf), 0x21, Hex(0xac, 0x5e, 0x51, 0x23), 0xac5e5123,
               Hex(0x97, 0x88, 0xc3, 0x8c));
  }

  lemma ThreeBlocksEnd()
    ensures EndsTo(Hex(0x97, 0x88, 0xc3, 0x8c), 13, Hex(0x24, 0x88, 0x4c, 0xba))
  {
    End(Hex(0x97, 0x88, 0xc3, 0x8c), Hex(0x00, 0x00, 0x00, 0x0d), 0xd, Hex(0x97, 0x88, 0xc3, 0x81), 0x9788c381,
        Hex(0x00, 0x00, 0x97, 0x88), Hex(0x97, 0x88, 0x54, 0x09), 0x97885409, Hex(0xb9, 0x8d, 0x39, 0xc3),
        0xb98d39c3, Hex(0x00, 0x05, 0xcc, 0x69), Hex(0xb9, 0x88, 0xf5, 0xaa), 0xb988f5aa,
        Hex(0x24, 0x88, 0x68, 0x32), 0x24886832, Hex(0x00, 0x00, 0x24, 0x88), Hex(0x24, 0x88, 0x4c, 0xba));
  }

  lemma ThreeBlocksAnswer(s: seq<byte>)
    requires s == Ascii("Hello, world!")
    ensures Answers(Hex(0x97, 0x47, 0xb2, 0x8c), s, Hex(0x24, 0x88, 0x4c, 0xba))
  {
    ThreeBlocksText();
    ThreeBlocksFirst();
    ThreeBlocksSecond();
    ThreeBlocksThird();
    ThreeBlocksTail();
    ThreeBlocksEnd();
    AfterThree(Hex(0x97, 0x47, 0xb2, 0x8c), s, 0x48, 0x65, 0x6c, 0x6c, 0x6c6c6548, Hex(0xda, 0xe4, 0xc9, 0x2e),
               0x6f, 0x2c, 0x20, 0x77, 0x77202c6f, Hex(0x71, 0xc6, 0xb4, 0x3c), 0x6f, 0x72, 0x6c, 0x64, 0x646c726f,
               Hex(0x3b, 0xd6, 0x92, 0xaf), [0x21], Hex(0x97, 0x88, 0xc3, 0x8c), Hex(0x24, 0x88, 0x4c, 0xba));
  }

  /** Three blocks, a tail and a seed. */
  lemma ThreeBlocks(s: seq<byte>)
    requires s == Ascii("Hello, world!")
    ensures Murmur(0x9747b28c, s) == 0x24884cba
  {
    ThreeBlocksAnswer(s);
    Reads(Hex(0x97, 0x47, 0xb2, 0x8c), s, Hex(0x24, 0x88, 0x4c, 0xba), 0x9747b28c, 0x24884cba);
  }
}
