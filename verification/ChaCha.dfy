/**
 The ChaCha generator: the block function of RFC 8439, worked out in place, and the operations of the generator on
 its buffers, each shown to do what the model of the keystream says it does.

 Words are bit vectors while a block is mixed; in the state they are numbers, as the counter is one.
 */
module ChaCha {
  import opened Arithmetic
  import opened Bits
  import opened ChaChaKeystream
  import opened LittleEndian

  // -------------------------------------------------------------- the block function

  type Words = s: seq<bv32> | |s| == 16 witness seq(16, _ => 0)

  datatype Quad = Quad(a: bv32, b: bv32, c: bv32, d: bv32)

  /** The state as a square of words, column by column. */
  datatype Square = Square(c0: Quad, c1: Quad, c2: Quad, c3: Quad)

  function Columns(s: Words): Square {
    Square(Quad(s[0], s[4], s[8], s[12]), Quad(s[1], s[5], s[9], s[13]),
           Quad(s[2], s[6], s[10], s[14]), Quad(s[3], s[7], s[11], s[15]))
  }

  function Rows(m: Square): Words {
    [m.c0.a, m.c1.a, m.c2.a, m.c3.a, m.c0.b, m.c1.b, m.c2.b, m.c3.b,
     m.c0.c, m.c1.c, m.c2.c, m.c3.c, m.c0.d, m.c1.d, m.c2.d, m.c3.d]
  }

  /** Each row moved left by its number, which makes diagonals columns. */
  function Sheared(m: Square): Square {
    Square(Quad(m.c0.a, m.c1.b, m.c2.c, m.c3.d), Quad(m.c1.a, m.c2.b, m.c3.c, m.c0.d),
           Quad(m.c2.a, m.c3.b, m.c0.c, m.c1.d), Quad(m.c3.a, m.c0.b, m.c1.c, m.c2.d))
  }

  function Unsheared(m: Square): Square {
    Square(Quad(m.c0.a, m.c3.b, m.c2.c, m.c1.d), Quad(m.c1.a, m.c0.b, m.c3.c, m.c2.d),
           Quad(m.c2.a, m.c1.b, m.c0.c, m.c3.d), Quad(m.c3.a, m.c2.b, m.c1.c, m.c0.d))
  }

  function Add(x: bv32, y: bv32): bv32 {
    x + y
  }

  function Flipped(x: bv32, y: bv32): bv32 {
    x ^ y
  }

  function Rotl(x: bv32, left: nat): bv32
    requires left < 32
  {
    x.RotateLeft(left)
  }

  /** Section 2.1 of RFC 8439. */
  function QuarterRound(q: Quad): Quad {
    var a := Add(q.a, q.b);
    var d := Rotl(Flipped(q.d, a), 16);
    var c := Add(q.c, d);
    var b := Rotl(Flipped(q.b, c), 12);
    var a' := Add(a, b);
    var d' := Rotl(Flipped(d, a'), 8);
    var c' := Add(c, d');
    Quad(a', Rotl(Flipped(b, c'), 7), c', d')
  }

  /** What is said of the rounds below holds for any function of four words. */
  type Quarter = Quad -> Quad

  function ColumnRound(f: Quarter, m: Square): Square {
    Square(f(m.c0), f(m.c1), f(m.c2), f(m.c3))
  }

  /** Section 2.3 of RFC 8439: a round on the columns, and one on the diagonals. */
  function DoubleRound(f: Quarter, m: Square): Square {
    Unsheared(ColumnRound(f, Sheared(ColumnRound(f, m))))
  }

  function Repeated(d: Square -> Square, m: Square, n: nat): Square {
    if n == 0 then m else d(Repeated(d, m, n - 1))
  }

  const DOUBLE_ROUND: Square -> Square := m => DoubleRound(QuarterRound, m)

  function AsBits(x: uint32): bv32 {
    x as bv32
  }

  function AsNumber(x: bv32): uint32 {
    x as nat
  }

  function BitsOf(s: State): Words {
    seq(16, i requires 0 <= i < 16 => AsBits(s[i]))
  }

  /** The words of a block: the mixed state added to the state; d is the double round. */
  function Mixed(d: Square -> Square, rounds: nat, s: Words): Words {
    Sum(Rounded(d, rounds, s), s)
  }

  function Rounded(d: Square -> Square, rounds: nat, s: Words): Words {
    Rows(Repeated(d, Columns(s), rounds / 2))
  }

  function Sum(s: Words, t: Words): Words {
    seq(16, i requires 0 <= i < 16 => Add(s[i], t[i]))
  }

  /** Two words to a result, the lower one first; number is how a word is read. */
  function Paired(number: bv32 -> uint32, s: Words): Block {
    seq(8, i requires 0 <= i < 8 => number(s[2 * i]) + number(s[2 * i + 1]) * M32)
  }

  function ChaChaBlock(rounds: nat, s: State): Block {
    Paired(AsNumber, Mixed(DOUBLE_ROUND, rounds, BitsOf(s)))
  }

  /** The block function as the model of the keystream takes it. */
  ghost predicate IsChaCha(c: Cipher, rounds: nat) {
    forall s: State {:trigger ChaChaBlock(rounds, s)} :: c(s) == ChaChaBlock(rounds, s)
  }

  lemma SameCipher(c: Cipher, d: Cipher, rounds: nat, g: Generator)
    requires IsChaCha(c, rounds) && IsChaCha(d, rounds) && Consistent(c, g)
    ensures Consistent(d, g)
  {
    var s := g.state[12 := Buffered(g.state[12])];
    assert c(s) == ChaChaBlock(rounds, s) == d(s);
  }

  // -------------------------------------------------------------- results and bytes

  /** A word in bytes, lowest first. */
  function Bytes(x: uint32): (b: seq<byte>)
    ensures |b| == 4 && Word(b) == x
  {
    var y := x / 0x100;
    var z := y / 0x100;
    LittleEndian.Words(x % 0x100, y % 0x100, z % 0x100, z / 0x100);
    [x % 0x100, y % 0x100, z % 0x100, z / 0x100]
  }

  /** The keystream block of section 2.3 of RFC 8439: the words serialized one after the other. */
  function Serialized(number: bv32 -> uint32, s: Words): seq<byte> {
    seq(64, k requires 0 <= k < 64 => Bytes(number(s[k / 4]))[k % 4])
  }

  lemma WordAppend(a: seq<byte>, b: seq<byte>)
    requires |a| == 4
    ensures Word(a + b) == Word(a) + M32 * Word(b)
  {
    var t3, t2, t1 := [a[3]] + b, [a[2]] + ([a[3]] + b), [a[1]] + ([a[2]] + ([a[3]] + b));
    assert a + b == [a[0]] + t1;
    WordCons(a[0], t1);
    WordCons(a[1], t2);
    WordCons(a[2], t3);
    WordCons(a[3], b);
    LittleEndian.Words(a[0], a[1], a[2], a[3]);
    assert a == [a[0], a[1], a[2], a[3]];
  }

  lemma SerializedWord(number: bv32 -> uint32, s: Words, j: nat)
    requires j < 16
    ensures Serialized(number, s)[4 * j..4 * j + 4] == Bytes(number(s[j]))
  {
    forall m | 0 <= m < 4
      ensures Serialized(number, s)[4 * j + m] == Bytes(number(s[j]))[m]
    {
      DivModUnique(4 * j + m, 4, j, m);
    }
  }

  /** A result is eight bytes of that block, as the generator's tests put them together. */
  lemma ResultIsBytes(number: bv32 -> uint32, s: Words, i: nat)
    requires i < 8
    ensures Paired(number, s)[i] == Word(Serialized(number, s)[8 * i..8 * i + 8])
  {
    SerializedWord(number, s, 2 * i);
    SerializedWord(number, s, 2 * i + 1);
    EightBytes(Serialized(number, s), 8 * i);
  }

  lemma EightBytes(all: seq<byte>, k: nat)
    requires k + 8 <= |all|
    ensures Word(all[k..k + 8]) == Word(all[k..k + 4]) + M32 * Word(all[k + 4..k + 8])
  {
    assert all[k..k + 8] == all[k..k + 4] + all[k + 4..k + 8];
    WordAppend(all[k..k + 4], all[k + 4..k + 8]);
  }

  // -------------------------------------------------------------- the block function in place

  function QuarterAt(f: Quarter, s: Words, i: nat, j: nat, k: nat, l: nat): Words
    requires i < 16 && j < 16 && k < 16 && l < 16
  {
    var q := f(Quad(s[i], s[j], s[k], s[l]));
    s[i := q.a][j := q.b][k := q.c][l := q.d]
  }

  lemma FourColumns(f: Quarter, s: Words, t: Words)
    requires t == QuarterAt(f, QuarterAt(f, QuarterAt(f, QuarterAt(f, s, 0, 4, 8, 12), 1, 5, 9, 13), 2, 6, 10, 14),
      3, 7, 11, 15)
    ensures Columns(t) == ColumnRound(f, Columns(s))
  {}

  lemma FourDiagonals(f: Quarter, s: Words, t: Words)
    requires t == QuarterAt(f, QuarterAt(f, QuarterAt(f, QuarterAt(f, s, 0, 5, 10, 15), 1, 6, 11, 12), 2, 7, 8, 13),
      3, 4, 9, 14)
    ensures Columns(t) == Unsheared(ColumnRound(f, Sheared(Columns(s))))
  {}

  /** The four words are references in the original. */
  method QuarterRoundOf(a0: bv32, b0: bv32, c0: bv32, d0: bv32) returns (a: bv32, b: bv32, c: bv32, d: bv32)
    ensures Quad(a, b, c, d) == QuarterRound(Quad(a0, b0, c0, d0))
  {
    a, b, c, d := a0, b0, c0, d0;
    a := Add(a, b);
    d := Flipped(d, a);
    d := Rotl(d, 16);
    c := Add(c, d);
    b := Flipped(b, c);
    b := Rotl(b, 12);
    a := Add(a, b);
    d := Flipped(d, a);
    d := Rotl(d, 8);
    c := Add(c, d);
    b := Flipped(b, c);
    b := Rotl(b, 7);
  }

  /** f is the quarter round. */
  ghost predicate IsQuarterRound(f: Quarter) {
    forall q: Quad {:trigger QuarterRound(q)} :: f(q) == QuarterRound(q)
  }

  method QuarterRoundAt(ghost f: Quarter, x: array<bv32>, i: nat, j: nat, k: nat, l: nat)
    requires x.Length == 16 && i < j < k < 16 && l < 16 && l !in {i, j, k} && IsQuarterRound(f)
    modifies x
    ensures x[..] == QuarterAt(f, old(x[..]), i, j, k, l)
  {
    x[i], x[j], x[k], x[l] := QuarterRoundOf(x[i], x[j], x[k], x[l]);
  }

  method DoubleRoundInPlace(ghost f: Quarter, x: array<bv32>)
    requires x.Length == 16 && IsQuarterRound(f)
    modifies x
    ensures Columns(x[..]) == DoubleRound(f, Columns(old(x[..])))
  {
    ghost var s := x[..];
    QuarterRoundAt(f, x, 0, 4, 8, 12);
    QuarterRoundAt(f, x, 1, 5, 9, 13);
    QuarterRoundAt(f, x, 2, 6, 10, 14);
    QuarterRoundAt(f, x, 3, 7, 11, 15);
    ghost var t := x[..];
    FourColumns(f, s, t);
    QuarterRoundAt(f, x, 0, 5, 10, 15);
    QuarterRoundAt(f, x, 1, 6, 11, 12);
    QuarterRoundAt(f, x, 2, 7, 8, 13);
    QuarterRoundAt(f, x, 3, 4, 9, 14);
    FourDiagonals(f, t, x[..]);
  }

  /** d is the double round. */
  ghost predicate IsDoubleRound(d: Square -> Square) {
    forall m: Square {:trigger DoubleRound(QuarterRound, m)} :: d(m) == DoubleRound(QuarterRound, m)
  }

  method DoubleRoundOf(ghost d: Square -> Square, x: array<bv32>)
    requires x.Length == 16 && IsDoubleRound(d)
    modifies x
    ensures Columns(x[..]) == d(Columns(old(x[..])))
  {
    DoubleRoundInPlace(QuarterRound, x);
  }

  method MixRounds(ghost d: Square -> Square, ghost m: Square, x: array<bv32>, rounds: nat)
    requires x.Length == 16 && rounds % 2 == 0 && IsDoubleRound(d) && m == Columns(x[..])
    modifies x
    ensures Columns(x[..]) == Repeated(d, m, rounds / 2)
  {
    ghost var n := 0;
    var i := 0;
    while i < rounds
      invariant i == 2 * n <= rounds
      invariant Columns(x[..]) == Repeated(d, m, n)
    {
      DoubleRoundOf(d, x);
      i, n := i + 2, n + 1;
    }
  }

  lemma RowsOfColumns(s: Words)
    ensures Rows(Columns(s)) == s
  {}

  method RoundsInPlace(x: array<bv32>, rounds: nat)
    requires x.Length == 16 && rounds % 2 == 0
    modifies x
    ensures x[..] == Rounded(DOUBLE_ROUND, rounds, old(x[..]))
  {
    MixRounds(DOUBLE_ROUND, Columns(x[..]), x, rounds);
    RowsOfColumns(x[..]);
  }

  /** The first word is in the low half. */
  lemma LongIsOr(low: nat, high: nat)
    requires low < M32
    ensures Or(low, high * M32) == low + high * M32
  {
    Pow2Bytes();
    OrDisjoint(low, high, 32);
  }

  // -------------------------------------------------------------- keys, nonces and the initial state

  /** The words of the constants. */
  const SIGMA: seq<uint32> := [0x61707865, 0x3320646e, 0x79622d32, 0x6b206574]

  /** They spell what section 2.3 of RFC 8439 says. */
  lemma SigmaSpells()
    ensures SIGMA == [Word(Ascii("expa")), Word(Ascii("nd 3")), Word(Ascii("2-by")), Word(Ascii("te k"))]
  {
    LittleEndian.Words(0x65, 0x78, 0x70, 0x61);
    LittleEndian.Words(0x6e, 0x64, 0x20, 0x33);
    LittleEndian.Words(0x32, 0x2d, 0x62, 0x79);
    LittleEndian.Words(0x74, 0x65, 0x20, 0x6b);
    assert Ascii("expa") == [0x65, 0x78, 0x70, 0x61];
    assert Ascii("nd 3") == [0x6e, 0x64, 0x20, 0x33];
    assert Ascii("2-by") == [0x32, 0x2d, 0x62, 0x79];
    assert Ascii("te k") == [0x74, 0x65, 0x20, 0x6b];
  }

  type Key = k: seq<byte> | |k| == 32 witness seq(32, _ => 0)
  type Nonce = n: seq<byte> | |n| == 12 witness seq(12, _ => 0)

  /** load_le32 */
  function LoadLe32(bytes: seq<byte>, at: nat): (w: uint32)
    requires at + 4 <= |bytes|
    ensures w == Word(bytes[at..at + 4])
  {
    assert bytes[at..at + 4] == [bytes[at], bytes[at + 1], bytes[at + 2], bytes[at + 3]];
    LittleEndian.Words(bytes[at], bytes[at + 1], bytes[at + 2], bytes[at + 3]);
    var a: nat, b: nat, c: nat, d: nat := bytes[at], bytes[at + 1], bytes[at + 2], bytes[at + 3];
    a + 0x100 * b + 0x1_0000 * c + 0x100_0000 * d
  }

  /** Section 2.3 of RFC 8439: constants, key, block counter, nonce. */
  function Layout(key: Key, nonce: Nonce, counter: uint32): State {
    SIGMA + seq(8, i requires 0 <= i < 8 => LoadLe32(key, 4 * i)) + [counter]
    + seq(3, i requires 0 <= i < 3 => LoadLe32(nonce, 4 * i))
  }

  // -------------------------------------------------------------- the generator

  class Engine {
    const rounds: nat
    const state: array<uint32>
    const keystream: array<nat>
    var keystreamIndex: nat

    ghost const cipher: Cipher

    ghost predicate Shape()
      reads this, state, keystream
    {
      && state.Length == 16 && keystream.Length == 8 && keystreamIndex <= 8
      && rounds > 0 && rounds % 2 == 0 && IsChaCha(cipher, rounds)
    }

    ghost function Now(): Generator
      requires Shape()
      reads this, state, keystream
    {
      Generator(state[..], keystream[..], keystreamIndex)
    }

    ghost predicate Valid()
      reads this, state, keystream
    {
      Shape() && Consistent(cipher, Now()) && Base(Now())[..4] == SIGMA
    }

    method GenerateBlock()
      requires Shape()
      modifies `keystreamIndex, state, keystream
      ensures Shape() && Now() == Refilled(cipher, old(Now()))
    {
      ghost var s: State := state[..];
      FillKeystream();
      state[12] := (state[12] + 1) % M32;
      keystreamIndex := 0;
      assert state[..] == s[12 := (s[12] + 1) % M32];
    }

    method FillKeystream()
      requires Shape()
      modifies keystream
      ensures keystream[..] == cipher(state[..])
    {
      WorkOutBlock();
    }

    method WorkOutBlock()
      requires Shape()
      modifies keystream
      ensures keystream[..] == ChaChaBlock(rounds, state[..])
    {
      var local := new bv32[16];
      CopyState(local);
      RoundsInPlace(local, rounds);
      AddState(local);
      Pair(local, AsNumber);
    }

    method CopyState(local: array<bv32>)
      requires local.Length == 16 && state.Length == 16 && local as object != state
      modifies local
      ensures local[..] == BitsOf(state[..])
    {
      var i := 0;
      while i < 16
        invariant i <= 16
        invariant forall k :: 0 <= k < i ==> local[k] == AsBits(state[k])
      {
        local[i] := AsBits(state[i]);
        i := i + 1;
      }
    }

    method AddState(local: array<bv32>)
      requires local.Length == 16 && state.Length == 16 && local as object != state
      modifies local
      ensures local[..] == Sum(old(local[..]), BitsOf(state[..]))
    {
      var i := 0;
      while i < 16
        invariant i <= 16
        invariant forall k :: 0 <= k < i ==> local[k] == Add(old(local[k]), AsBits(state[k]))
        invariant forall k :: i <= k < 16 ==> local[k] == old(local[k])
      {
        local[i] := Add(local[i], AsBits(state[i]));
        i := i + 1;
      }
    }

    method Pair(local: array<bv32>, number: bv32 -> uint32)
      requires local.Length == 16 && keystream.Length == 8 && local as object != keystream
      modifies keystream
      ensures keystream[..] == Paired(number, local[..])
    {
      var i := 0;
      while i < 8
        invariant i <= 8
        invariant forall k :: 0 <= k < i ==> keystream[k] == number(local[2 * k]) + number(local[2 * k + 1]) * M32
      {
        LongIsOr(number(local[2 * i]), number(local[2 * i + 1]));
        keystream[i] := Or(number(local[2 * i]), number(local[2 * i + 1]) * M32);
        i := i + 1;
      }
    }

    constructor (rounds: nat, key: Key, nonce: Nonce)
      requires rounds > 0 && rounds % 2 == 0
      ensures Valid() && fresh(state) && fresh(keystream)
      ensures this.rounds == rounds && Now().state == Layout(key, nonce, 0) && Now().index == 8
    {
      this.rounds := rounds;
      cipher := (s: State) => ChaChaBlock(rounds, s);
      state := new uint32[16](i => if 0 <= i < 4 then SIGMA[i] else 0);
      keystream := new nat[8](_ => 0);
      keystreamIndex := 0;
      new;
      Seed(key, nonce);
    }

    method Seed(key: Key, nonce: Nonce)
      requires Shape() && Base(Now())[..4] == SIGMA
      modifies `keystreamIndex, state
      ensures Valid()
      ensures Now().state == Layout(key, nonce, 0) && Now().index == 8
    {
      LoadWords(key, 4, 8);
      state[12] := 0;
      LoadWords(nonce, 13, 3);
      keystreamIndex := 8;
    }

    method LoadWords(bytes: seq<byte>, first: nat, count: nat)
      requires state.Length == 16 && first + count <= 16 && |bytes| == 4 * count
      modifies state
      ensures forall k :: 0 <= k < 16 && !(first <= k < first + count) ==> state[k] == old(state[k])
      ensures forall k :: 0 <= k < count ==> state[first + k] == LoadLe32(bytes, 4 * k)
    {
      var i := 0;
      while i < count
        invariant i <= count
        invariant forall k :: 0 <= k < 16 && !(first <= k < first + i) ==> state[k] == old(state[k])
        invariant forall k :: 0 <= k < i ==> state[first + k] == LoadLe32(bytes, 4 * k)
      {
        state[first + i] := LoadLe32(bytes, 4 * i);
        i := i + 1;
      }
    }

    /** operator() */
    method Next() returns (r: nat)
      requires Valid()
      modifies `keystreamIndex, state, keystream
      ensures Valid() && Now() == Called(cipher, old(Now()))
      ensures r == Keystream(cipher, Base(old(Now())), Position(old(Now())))
    {
      ghost var c, g := cipher, Now();
      CallMoves(c, g);
      if keystreamIndex >= 8 {
        GenerateBlock();
      }
      ghost var b := Now();
      assert b == Ready(c, g);
      r := keystream[keystreamIndex];
      keystreamIndex := keystreamIndex + 1;
      assert Now() == b.(index := b.index + 1);
    }

    method Discard(count: nat)
      requires Valid() && count < 0x1_0000_0000_0000_0000
      modifies `keystreamIndex, state, keystream
      ensures Valid() && Now() == Discarded(cipher, old(Now()), count)
      ensures Same(Now(), Calls(cipher, old(Now()), count))
    {
      DiscardMoves(cipher, Now(), count);
      DiscardIsCalls(cipher, Now(), count);
      var buffered := 8 - keystreamIndex;
      if count < buffered {
        keystreamIndex := keystreamIndex + count;
        return;
      }
      ghost var s := state[..];
      var beyond := count - buffered;
      state[12] := (state[12] + beyond / 8 % M32) % M32;
      assert state[..] == s[12 := (s[12] + beyond / 8 % M32) % M32];
      var remainder := beyond % 8;
      if remainder == 0 {
        keystreamIndex := 8;
      } else {
        GenerateBlock();
        keystreamIndex := remainder;
      }
    }

    method SetCounter(block: uint32)
      requires Valid()
      modifies `keystreamIndex, state
      ensures Valid() && Now() == WithCounter(old(Now()), block)
      ensures Position(Now()) == 8 * block
    {
      WithCounterMoves(cipher, Now(), block);
      ghost var s := state[..];
      state[12] := block;
      keystreamIndex := 8;
      assert state[..] == s[12 := block];
    }

    method GetCounter() returns (block: nat)
      requires Valid()
      ensures block == (Position(Now()) + 7) / 8 % M32
    {
      CounterIsCurrent(cipher, Now());
      block := state[12];
    }

    /** operator== */
    method Equals(other: Engine) returns (same: bool)
      requires Valid() && other.Valid() && other.rounds == rounds
      ensures same <==> Base(Now()) == Base(other.Now()) && Position(Now()) == Position(other.Now())
    {
      SameCipher(other.cipher, cipher, rounds, other.Now());
      SameIffPosition(cipher, Now(), other.Now());
      same := state[..] == other.state[..] && keystreamIndex == other.keystreamIndex
           && keystream[keystreamIndex..] == other.keystream[other.keystreamIndex..];
    }
  }
}
