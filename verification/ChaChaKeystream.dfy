/**
 Seeking in the ChaCha keystream.  A generator buffers one block of eight results and counts the next block in word
 12 of its state; the results themselves come from a block function, for which everything here holds whatever it is.

 What a generator does is told by two things: its state with the counter taken out, and a position among the
 8 * 2^32 results of the keystream.
 */
module ChaChaKeystream {
  import opened Arithmetic
  import opened LittleEndian

  /** The results of the keystream before the 32-bit counter repeats. */
  const PERIOD: nat := 8 * M32

  type State = s: seq<uint32> | |s| == 16 witness seq(16, _ => 0)
  type Block = b: seq<nat> | |b| == 8 witness seq(8, _ => 0)
  type Cipher = State -> Block

  datatype Generator = Generator(state: State, keystream: Block, index: nat)

  // -------------------------------------------------------------- the operations

  /** generate_block */
  function Refilled(c: Cipher, g: Generator): Generator {
    Generator(g.state[12 := (g.state[12] + 1) % M32], c(g.state), 0)
  }

  /** The buffer that a call reads. */
  function Ready(c: Cipher, g: Generator): (r: Generator)
    ensures r.index < 8
  {
    if g.index >= 8 then Refilled(c, g) else g
  }

  function Called(c: Cipher, g: Generator): Generator {
    var r := Ready(c, g);
    r.(index := r.index + 1)
  }

  function Output(c: Cipher, g: Generator): nat {
    var r := Ready(c, g);
    r.keystream[r.index]
  }

  function Discarded(c: Cipher, g: Generator, count: nat): Generator
    requires g.index <= 8
  {
    var buffered := 8 - g.index;
    if count < buffered then g.(index := g.index + count) else
      var beyond := count - buffered;
      var jumped := g.(state := g.state[12 := (g.state[12] + beyond / 8 % M32) % M32]);
      if beyond % 8 == 0 then jumped.(index := 8) else Refilled(c, jumped).(index := beyond % 8)
  }

  function WithCounter(g: Generator, block: uint32): Generator {
    Generator(g.state[12 := block], g.keystream, 8)
  }

  /** operator== */
  predicate Same(g: Generator, h: Generator) {
    && g.state == h.state
    && g.index == h.index <= 8
    && g.keystream[g.index..] == h.keystream[h.index..]
  }

  /** count calls. */
  function Calls(c: Cipher, g: Generator, count: nat): Generator {
    if count == 0 then g else Called(c, Calls(c, g, count - 1))
  }

  // -------------------------------------------------------------- the keystream

  /** What the keystream depends on besides the position: constants, key and nonce. */
  function Base(g: Generator): State {
    g.state[12 := 0]
  }

  /** The block before the counted one, which is the one in the buffer. */
  function Buffered(counter: uint32): uint32 {
    if counter == 0 then M32 - 1 else counter - 1
  }

  function Place(counter: uint32, index: nat): (p: nat)
    requires index <= 8
    ensures p < PERIOD
  {
    if index == 8 then 8 * counter else 8 * Buffered(counter) + index
  }

  /** The number of the next result. */
  function Position(g: Generator): (p: nat)
    requires g.index <= 8
    ensures p < PERIOD
  {
    Place(g.state[12], g.index)
  }

  /** Result p of the keystream: block p / 8 of section 2.3 of RFC 8439, in which word 12 is the block counter. */
  function Keystream(c: Cipher, base: State, p: nat): nat
    requires p < PERIOD
  {
    c(base[12 := p / 8])[p % 8]
  }

  /** What is left in the buffer comes from the block before the counted one. */
  predicate Consistent(c: Cipher, g: Generator) {
    && 1 <= g.index <= 8
    && forall i :: g.index <= i < 8 ==> g.keystream[i] == c(g.state[12 := Buffered(g.state[12])])[i]
  }

  lemma PlaceDetermines(m: uint32, i: nat, n: uint32, j: nat)
    requires 1 <= i <= 8 && 1 <= j <= 8 && Place(m, i) == Place(n, j)
    ensures m == n && i == j
  {}

  lemma PlaceOfNext(counter: uint32, index: nat)
    requires index < 8
    ensures Place(counter, index + 1) == (8 * Buffered(counter) + index + 1) % PERIOD
    ensures Place(counter, index) / 8 == Buffered(counter) && Place(counter, index) % 8 == index
  {}

  /** Whole blocks jumped over, and results read in the next. */
  lemma PlaceBeyond(counter: uint32, q: nat, r: nat)
    requires r < 8
    ensures (8 * (counter + q) + r) % PERIOD == 8 * ((counter + q % M32) % M32) + r
  {
    SumRemainder(counter, q, M32);
    var t := (counter + q) / M32;
    DivModUnique(8 * (counter + q) + r, PERIOD, t, 8 * ((counter + q) % M32) + r);
  }

  lemma SumRemainder(a: nat, b: nat, m: nat)
    requires m >= 1
    ensures (a + b % m) % m == (a + b) % m
  {
    DivModLaw(b, m);
    DivModUnique(b / m * m, m, b / m, 0);
    SameRemainder(a + b, a + b % m, m);
  }

  lemma PlaceAfter(counter: uint32, index: nat, count: nat)
    requires 1 <= index <= 8
    ensures count < 8 - index ==> Place(counter, index + count) == (Place(counter, index) + count) % PERIOD
    ensures count >= 8 - index ==>
      (Place(counter, index) + count) % PERIOD == (8 * counter + (count - (8 - index))) % PERIOD
  {
    if counter == 0 && index < 8 && count >= 8 - index {
      DivModLaw(count - (8 - index), PERIOD);
      DivModUnique(Place(counter, index) + count, PERIOD,
                   (count - (8 - index)) / PERIOD + 1, (count - (8 - index)) % PERIOD);
    }
  }

  /** Generators are equal exactly when they have the same constants, key and nonce and stand at the same position. */
  lemma SameIffPosition(c: Cipher, g: Generator, h: Generator)
    requires Consistent(c, g) && Consistent(c, h)
    ensures Same(g, h) <==> Base(g) == Base(h) && Position(g) == Position(h)
  {
    if Base(g) == Base(h) && Position(g) == Position(h) {
      PlaceDetermines(g.state[12], g.index, h.state[12], h.index);
      assert g.state == Base(g)[12 := g.state[12]] && h.state == Base(h)[12 := h.state[12]];
    }
  }

  /** A call gives the result at the position and moves on by one, round to the beginning after the last. */
  lemma CallMoves(c: Cipher, g: Generator)
    requires Consistent(c, g)
    ensures Consistent(c, Called(c, g))
    ensures Output(c, g) == Keystream(c, Base(g), Position(g))
    ensures Base(Called(c, g)) == Base(g)
    ensures Position(Called(c, g)) == (Position(g) + 1) % PERIOD
  {
    var r := Ready(c, g);
    var counter := g.state[12];
    assert r.state[12 := Buffered(r.state[12])] == Base(g)[12 := Buffered(r.state[12])];
    assert Base(r) == Base(g);
    PlaceOfNext(r.state[12], r.index);
    if g.index == 8 {
      Unwrap(g.state[12]);
      assert r.state[12 := counter] == g.state;
    } else {
      assert r == g;
    }
  }

  lemma Unwrap(counter: uint32)
    ensures Buffered((counter + 1) % M32) == counter
  {}

  lemma CallsMove(c: Cipher, g: Generator, count: nat)
    requires Consistent(c, g)
    ensures Consistent(c, Calls(c, g, count))
    ensures Base(Calls(c, g, count)) == Base(g)
    ensures Position(Calls(c, g, count)) == (Position(g) + count) % PERIOD
  {
    if count > 0 {
      var h := Calls(c, g, count - 1);
      CallsMove(c, g, count - 1);
      CallMoves(c, h);
      SumRemainder(1, Position(g) + (count - 1), PERIOD);
    } else {
      SmallRemainder(Position(g), PERIOD);
    }
  }

  lemma DiscardMoves(c: Cipher, g: Generator, count: nat)
    requires Consistent(c, g)
    ensures Consistent(c, Discarded(c, g, count))
    ensures Base(Discarded(c, g, count)) == Base(g)
    ensures Position(Discarded(c, g, count)) == (Position(g) + count) % PERIOD
  {
    var d := Discarded(c, g, count);
    assert Base(d) == Base(g);
    PlaceAfter(g.state[12], g.index, count);
    if count >= 8 - g.index {
      var beyond := count - (8 - g.index);
      var q, r := beyond / 8, beyond % 8;
      var counter := (g.state[12] + q % M32) % M32;
      PlaceBeyond(g.state[12], q, r);
      assert 8 * g.state[12] + beyond == 8 * (g.state[12] + q) + r;
      if r != 0 {
        Unwrap(counter);
        assert d.state[12 := counter] == g.state[12 := counter];
      }
    }
  }

  /** The position before the first result of a block. */
  lemma WithCounterMoves(c: Cipher, g: Generator, block: uint32)
    ensures Consistent(c, WithCounter(g, block))
    ensures Base(WithCounter(g, block)) == Base(g)
    ensures Position(WithCounter(g, block)) == 8 * block
  {}

  // -------------------------------------------------------------- main results

  /** Discarding any number of results is calling that often, from every buffer position and past counter wrap. */
  lemma DiscardIsCalls(c: Cipher, g: Generator, count: nat)
    requires Consistent(c, g)
    ensures Same(Discarded(c, g, count), Calls(c, g, count))
  {
    DiscardMoves(c, g, count);
    CallsMove(c, g, count);
    SameIffPosition(c, Discarded(c, g, count), Calls(c, g, count));
  }

  /** Discards add up. */
  lemma DiscardTwice(c: Cipher, g: Generator, m: nat, n: nat)
    requires Consistent(c, g)
    ensures Discarded(c, g, m).index <= 8
    ensures Same(Discarded(c, Discarded(c, g, m), n), Discarded(c, g, m + n))
  {
    DiscardMoves(c, g, m);
    DiscardMoves(c, Discarded(c, g, m), n);
    DiscardMoves(c, g, m + n);
    SumRemainder(n, Position(g) + m, PERIOD);
    SameIffPosition(c, Discarded(c, Discarded(c, g, m), n), Discarded(c, g, m + n));
  }

  /** Setting the counter is seeding again and discarding the blocks before. */
  lemma SetCounterIsDiscard(c: Cipher, g: Generator, seeded: Generator, block: uint32)
    requires seeded.state == Base(g) && seeded.index == 8
    ensures Same(WithCounter(g, block), Discarded(c, seeded, 8 * block))
  {
    assert seeded.state[12] == 0;
    assert Base(seeded) == Base(g);
    assert Consistent(c, seeded);
    WithCounterMoves(c, g, block);
    DiscardMoves(c, seeded, 8 * block);
    SameIffPosition(c, WithCounter(g, block), Discarded(c, seeded, 8 * block));
  }

  /** The generator comes back to where it was after 8 * 2^32 results, and not before. */
  lemma PeriodIsExact(c: Cipher, g: Generator, count: nat)
    requires Consistent(c, g)
    ensures Same(Calls(c, g, count), g) <==> count % PERIOD == 0
  {
    CallsMove(c, g, count);
    SmallRemainder(Position(g), PERIOD);
    SameRemainder(Position(g) + count, Position(g), PERIOD);
    SameIffPosition(c, Calls(c, g, count), g);
  }

  /** The counter is the block of the next result exactly when no result of a block is left in the buffer. */
  lemma CounterIsCurrent(c: Cipher, g: Generator)
    requires Consistent(c, g)
    ensures g.state[12] == Position(g) / 8 <==> g.index == 8
    ensures g.index == 8 <==> Position(g) % 8 == 0
    ensures g.state[12] == (Position(g) + 7) / 8 % M32
  {
    if g.index == 8 {
      SmallRemainder(g.state[12], M32);
    } else {
      PlaceOfNext(g.state[12], g.index);
    }
  }

  // -------------------------------------------------------------- runs

  datatype Op = Call | GetCounter | Discard(count: nat) | SetCounter(block: uint32)

  function Apply(c: Cipher, g: Generator, op: Op): Generator
    requires g.index <= 8
  {
    match op
    case Call => Called(c, g)
    case GetCounter => g
    case Discard(count) => Discarded(c, g, count)
    case SetCounter(block) => WithCounter(g, block)
  }

  function Shown(c: Cipher, g: Generator, op: Op): seq<nat> {
    match op
    case Call => [Output(c, g)]
    case GetCounter => [g.state[12]]
    case _ => []
  }

  function After(c: Cipher, g: Generator, ops: seq<Op>): (r: Generator)
    requires g.index <= 8
    ensures r.index <= 8
    decreases ops
  {
    if ops == [] then g else After(c, Apply(c, g, ops[0]), ops[1..])
  }

  /** Everything a caller sees in a run. */
  function Seen(c: Cipher, g: Generator, ops: seq<Op>): seq<nat>
    requires g.index <= 8
    decreases ops
  {
    if ops == [] then [] else Shown(c, g, ops[0]) + Seen(c, Apply(c, g, ops[0]), ops[1..])
  }

  /** The same run of a caller that keeps only a position and reads the keystream there. */
  function Moved(p: nat, op: Op): (q: nat)
    requires p < PERIOD
    ensures q < PERIOD
  {
    match op
    case Call => (p + 1) % PERIOD
    case GetCounter => p
    case Discard(count) => (p + count) % PERIOD
    case SetCounter(block) => 8 * block
  }

  function Read(c: Cipher, base: State, p: nat, op: Op): seq<nat>
    requires p < PERIOD
  {
    match op
    case Call => [Keystream(c, base, p)]
    case GetCounter => [(p + 7) / 8 % M32]
    case _ => []
  }

  function SeenFrom(c: Cipher, base: State, p: nat, ops: seq<Op>): seq<nat>
    requires p < PERIOD
    decreases ops
  {
    if ops == [] then [] else Read(c, base, p, ops[0]) + SeenFrom(c, base, Moved(p, ops[0]), ops[1..])
  }

  lemma OpMoves(c: Cipher, g: Generator, op: Op)
    requires Consistent(c, g)
    ensures Consistent(c, Apply(c, g, op))
    ensures Base(Apply(c, g, op)) == Base(g)
    ensures Position(Apply(c, g, op)) == Moved(Position(g), op)
    ensures Shown(c, g, op) == Read(c, Base(g), Position(g), op)
  {
    match op {
      case Call => CallMoves(c, g);
      case GetCounter => CounterIsCurrent(c, g);
      case Discard(count) => DiscardMoves(c, g, count);
      case SetCounter(block) => WithCounterMoves(c, g, block);
    }
  }

  /** Buffering cannot be seen: every run shows what reading the keystream by position shows. */
  lemma {:induction false} RunReadsKeystream(c: Cipher, g: Generator, ops: seq<Op>)
    requires Consistent(c, g)
    ensures Consistent(c, After(c, g, ops))
    ensures Seen(c, g, ops) == SeenFrom(c, Base(g), Position(g), ops)
    decreases ops
  {
    if ops != [] {
      OpMoves(c, g, ops[0]);
      RunReadsKeystream(c, Apply(c, g, ops[0]), ops[1..]);
    }
  }

  lemma SameAfterOp(c: Cipher, g: Generator, h: Generator, op: Op)
    requires Same(g, h)
    ensures Same(Apply(c, g, op), Apply(c, h, op)) && Shown(c, g, op) == Shown(c, h, op)
  {
    if g.index < 8 {
      assert g.keystream[g.index] == g.keystream[g.index..][0] == h.keystream[h.index..][0];
    }
    match op {
      case Call => SameBuffer(Ready(c, g), Ready(c, h), 1);
      case Discard(count) =>
        if count < 8 - g.index {
          SameBuffer(g, h, count);
        }
      case _ =>
    }
  }

  lemma SameBuffer(g: Generator, h: Generator, count: nat)
    requires Same(g, h) && g.index + count <= 8
    ensures Same(g.(index := g.index + count), h.(index := h.index + count))
  {
    assert g.keystream[g.index + count..] == g.keystream[g.index..][count..];
    assert h.keystream[h.index + count..] == h.keystream[h.index..][count..];
  }

  /** Equality is kept by every operation, and equal generators show the same for ever. */
  lemma {:induction false} SameForever(c: Cipher, g: Generator, h: Generator, ops: seq<Op>)
    requires Same(g, h)
    ensures Same(After(c, g, ops), After(c, h, ops)) && Seen(c, g, ops) == Seen(c, h, ops)
    decreases ops
  {
    if ops != [] {
      SameAfterOp(c, g, h, ops[0]);
      SameForever(c, Apply(c, g, ops[0]), Apply(c, h, ops[0]), ops[1..]);
    }
  }
}
