/** The streaming hasher: what its two words hold after any input, and that the end result is the one-shot hash. */
module MurmurHash3Stream {
  import opened Arithmetic
  import opened Bits
  import opened LittleEndian
  import opened MurmurHash3
  import opened Wrappers

  /** The partial hash covers the k whole blocks of the input; the carry has exactly the n bytes of its tail. */
  ghost predicate Holds(m: Mixer, seed: nat, s: seq<byte>, k: nat, h: nat, c: nat, n: nat) {
    |s| == 4 * k + n && n < 4 && h == Blocks(m, seed, s, k) && Carries(c, s[4 * k..])
  }

  lemma {:induction false} BlocksPrefix(m: Mixer, seed: nat, s: seq<byte>, t: seq<byte>, k: nat)
    requires 4 * k <= |s|
    ensures Blocks(m, seed, s + t, k) == Blocks(m, seed, s, k)
  {
    if k > 0 {
      BlocksPrefix(m, seed, s, t, k - 1);
      assert (s + t)[4 * k - 4..4 * k] == s[4 * k - 4..4 * k];
    }
  }

  /** The next whole block: the tail and the first bytes of what follows. */
  lemma NextBlock(m: Mixer, seed: nat, s: seq<byte>, t: seq<byte>, k: nat, next: nat)
    requires next == k + 1 && 4 * k <= |s| && 4 * next <= |s + t|
    ensures |s[4 * k..] + t| >= 4
    ensures Blocks(m, seed, s + t, next) == m.mixIn(Blocks(m, seed, s, k), m.scramble(Word((s[4 * k..] + t)[..4])))
  {
    BlocksPrefix(m, seed, s, t, k);
    NextFour(s, t, 4 * k, 4 * next);
  }

  lemma NextFour(s: seq<byte>, t: seq<byte>, a: nat, b: nat)
    requires a <= |s| && b == a + 4 <= |s + t|
    ensures |s[a..] + t| >= 4 && (s + t)[a..b] == (s[a..] + t)[..4]
  {
    assert s + t == s[..a] + (s[a..] + t);
  }

  /** A byte that leaves the carry short of a block. */
  lemma AppendByte(m: Mixer, seed: nat, s: seq<byte>, b: byte, k: nat, h: nat, c: nat, n: nat)
    requires Holds(m, seed, s, k, h, c, n) && n < 3
    ensures Holds(m, seed, s + [b], k, h, ShiftIn(c, b), n + 1)
  {
    ShiftedIn(c, s[4 * k..], b);
    BlocksPrefix(m, seed, s, [b], k);
    assert (s + [b])[4 * k..] == s[4 * k..] + [b];
  }

  /** A byte that completes it: the carry is the block, and whatever it becomes there is nothing in it. */
  lemma CompleteBlock(m: Mixer, seed: nat, s: seq<byte>, b: byte, k: nat, h: nat, c: nat, rest: uint32)
    requires Holds(m, seed, s, k, h, c, 3)
    ensures Holds(m, seed, s + [b], k + 1, m.mixIn(h, m.scramble(ShiftIn(c, b))), rest, 0)
  {
    var t := s[4 * k..];
    NextBlock(m, seed, s, [b], k, k + 1);
    assert (t + [b])[..4] == t + [b];
    FullCarry(c, t, b);
    assert (s + [b])[4 * (k + 1)..] == [];
  }

  lemma FullCarry(c: nat, t: seq<byte>, b: byte)
    requires |t| == 3 && Carries(c, t)
    ensures ShiftIn(c, b) == Word(t + [b])
  {
    ShiftedIn(c, t, b);
  }

  lemma DropAppend(s: seq<byte>, w: seq<byte>, a: nat, b: nat)
    requires a <= |s| && b <= |s| - a + |w|
    ensures (s + w)[a + b..] == (s[a..] + w)[b..]
  {}

  /** A word read when the carry is empty ... */
  lemma AppendWord(m: Mixer, seed: nat, s: seq<byte>, w: seq<byte>, k: nat, h: nat, c: nat, next: nat)
    requires |w| == 4 && Holds(m, seed, s, k, h, c, 0) && next == k + 1
    ensures Holds(m, seed, s + w, next, m.mixIn(h, m.scramble(Word(w))), c, 0)
  {
    NextBlock(m, seed, s, w, k, next);
    DropAppend(s, w, 4 * k, 4);
    assert s[4 * k..] == [] && [] + w == w && w[..4] == w && w[4..] == [];
  }

  /** ... and one read behind the bytes carried. */
  lemma JoinWord(m: Mixer, seed: nat, s: seq<byte>, w: seq<byte>, k: nat, h: nat, c: nat, n: nat, next: nat)
    requires |w| == 4 && Holds(m, seed, s, k, h, c, n) && n > 0 && next == k + 1
    ensures Holds(m, seed, s + w, next, m.mixIn(h, m.scramble(Join(c, n, Word(w)))), Word(w), n)
  {
    var t := s[4 * k..];
    NextBlock(m, seed, s, w, k, next);
    Joined(c, t, w);
    DropAppend(s, w, 4 * k, 4);
    assert Join(c, n, Word(w)) == Word((t + w)[..4]);
    assert 4 * next == 4 * k + 4;
  }

  // -------------------------------------------------------------- processing a buffer

  /** DOBYTES: bytes shifted into the carry one at a time, with a block whenever it is full. */
  method DoBytes(m: Mixer, count: nat, h0: nat, c0: nat, n0: nat, data: seq<byte>, start: nat,
                 ghost seed: nat, ghost s: seq<byte>, ghost k0: nat)
    returns (h: nat, c: nat, n: nat, ghost k: nat)
    requires start + count <= |data| && Holds(m, seed, s + data[..start], k0, h0, c0, n0)
    ensures Holds(m, seed, s + data[..start + count], k, h, c, n)
  {
    h, c, n, k := h0, c0, n0, k0;
    var ptr := start;
    while ptr < start + count
      invariant start <= ptr <= start + count && Holds(m, seed, s + data[..ptr], k, h, c, n)
    {
      h, c, n, k := DoByte(m, h, c, n, data[ptr], seed, s + data[..ptr], k);
      assert s + data[..ptr + 1] == (s + data[..ptr]) + [data[ptr]];
      ptr := ptr + 1;
    }
  }

  method DoByte(m: Mixer, h0: nat, c0: nat, n0: nat, b: byte, ghost seed: nat, ghost s: seq<byte>, ghost k0: nat)
    returns (h: nat, c: nat, n: nat, ghost k: nat)
    requires Holds(m, seed, s, k0, h0, c0, n0)
    ensures Holds(m, seed, s + [b], k, h, c, n)
  {
    ShiftInIsOr(c0, b);
    h, c, n, k := h0, Or(c0 / 0x100, b * 0x100_0000), n0 + 1, k0;
    if n == 4 {
      CompleteBlock(m, seed, s, b, k0, h0, c0, m.scramble(c));
      c := m.scramble(c);
      h := m.mixIn(h, c);
      n, k := 0, k + 1;
    } else {
      AppendByte(m, seed, s, b, k0, h0, c0, n0);
    }
  }

  /** For a processor that reads words anywhere: fill the carry first, then whole words. */
  method ProcessUnaligned(m: Mixer, h0: nat, c0: nat, data: seq<byte>, ghost seed: nat, ghost s: seq<byte>,
                          ghost k0: nat) returns (h: nat, c: nat, ghost k: nat)
    requires Holds(m, seed, s, k0, h0, c0, c0 % 4)
    ensures Holds(m, seed, s + data, k, h, c, c % 4)
  {
    var n, ptr;
    h, c, n, ptr, k := FillCarry(m, h0, c0, data, seed, s, k0);
    h, ptr, k := WholeWords(m, h, c, n, data, ptr, seed, s, k);
    h, c, k := Leave(m, h, c, n, data, ptr, seed, s, k);
  }

  lemma MissingBytes(n: nat)
    requires n < 4
    ensures And(4 - n, 3) == if n == 0 then 0 else 4 - n
  {
    CountIsMasked(4 - n);
  }

  /** The bytes that complete the carried ones to a block, if there are enough. */
  method FillCarry(m: Mixer, h0: nat, c0: nat, data: seq<byte>, ghost seed: nat, ghost s: seq<byte>, ghost k0: nat)
    returns (h: nat, c: nat, n: nat, ptr: nat, ghost k: nat)
    requires Holds(m, seed, s, k0, h0, c0, c0 % 4)
    ensures ptr <= |data| && Holds(m, seed, s + data[..ptr], k, h, c, n) && (n == 0 || |data| - ptr < 4)
  {
    CountIsMasked(c0);
    h, c, n, ptr, k := h0, c0, And(c0, 3), 0, k0;
    MissingBytes(n);
    var i := And(4 - n, 3);
    assert s + data[..0] == s;
    if i != 0 && i <= |data| {
      ghost var size, n1 := |s|, n;
      h, c, n, k := DoBytes(m, i, h, c, n, data, 0, seed, s, k);
      ptr := i;
      assert size == 4 * k0 + n1 && size + i == 4 * k + n;
    }
  }

  lemma WordRead(m: Mixer, seed: nat, s: seq<byte>, data: seq<byte>, ptr: nat, next: nat, k: nat, h: nat, c: nat)
    requires next == ptr + 4 <= |data| && Holds(m, seed, s + data[..ptr], k, h, c, 0)
    ensures Holds(m, seed, s + data[..next], k + 1, m.mixIn(h, m.scramble(Word(data[ptr..next]))), c, 0)
  {
    AppendWord(m, seed, s + data[..ptr], data[ptr..next], k, h, c, k + 1);
    assert s + data[..next] == (s + data[..ptr]) + data[ptr..next];
  }

  /** The 32-bit chunks, when nothing is carried or too little is left for one. */
  method WholeWords(m: Mixer, h0: nat, ghost c: nat, ghost n: nat, data: seq<byte>, start: nat,
                    ghost seed: nat, ghost s: seq<byte>, ghost k0: nat) returns (h: nat, ptr: nat, ghost k: nat)
    requires start <= |data| && Holds(m, seed, s + data[..start], k0, h0, c, n) && (n == 0 || |data| - start < 4)
    ensures start <= ptr <= |data| && |data| - ptr < 4 && Holds(m, seed, s + data[..ptr], k, h, c, n)
  {
    h, ptr, k := h0, start, k0;
    var words := (|data| - start) / 4;
    ghost var i := 0;
    while ptr < start + words * 4
      invariant 0 <= i <= words && ptr == start + i * 4 && (i < words ==> n == 0)
      invariant Holds(m, seed, s + data[..ptr], k, h, c, n)
      decreases words - i
    {
      WordRead(m, seed, s, data, ptr, ptr + 4, k, h, c);
      h := m.mixIn(h, m.scramble(Word(data[ptr..ptr + 4])));
      ptr, i, k := ptr + 4, i + 1, k + 1;
    }
  }

  /** -ptr, of which only the low bits are looked at. */
  function Negated(address: nat): nat {
    M32 - address % M32
  }

  lemma Misaligned(address: nat, i: nat)
    requires i == And(Negated(address), 3)
    ensures i < 4 && (address + i) % 4 == 0
  {
    var x, q := Negated(address), address / M32;
    CountIsMasked(x);
    var k := x / 4;
    assert address + i == (q + 1) * M32 - 4 * k;
    assert (address + i) % 4 == 0 by {
      DivModUnique(address + i, 4, (q + 1) * (M32 / 4) - k, 0);
    }
  }

  /** For a processor that reads words at aligned addresses only: align first, then join each word to the carry. */
  method ProcessAligned(m: Mixer, h0: nat, c0: nat, data: seq<byte>, address: nat, ghost seed: nat, ghost s: seq<byte>,
                        ghost k0: nat) returns (h: nat, c: nat, ghost k: nat)
    requires Holds(m, seed, s, k0, h0, c0, c0 % 4)
    ensures Holds(m, seed, s + data, k, h, c, c % 4)
  {
    h, c, k := h0, c0, k0;
    CountIsMasked(c);
    var n, ptr := And(c, 3), 0;
    var i := And(Negated(address), 3);
    Misaligned(address, i);
    assert s + data[..0] == s;
    if i != 0 && i <= |data| {
      h, c, n, k := DoBytes(m, i, h, c, n, data, 0, seed, s, k);
      ptr := i;
    }
    h, c, ptr, k := AlignedWords(m, h, c, n, data, ptr, address, seed, s, k);
    h, c, k := Leave(m, h, c, n, data, ptr, seed, s, k);
  }

  /** The aligned blocks, for each possible count of carried bytes.  Every word is read at an aligned address. */
  method AlignedWords(m: Mixer, h0: nat, c0: nat, n: nat, data: seq<byte>, start: nat, ghost address: nat,
                      ghost seed: nat, ghost s: seq<byte>, ghost k0: nat)
    returns (h: nat, c: nat, ptr: nat, ghost k: nat)
    requires start <= |data| && Holds(m, seed, s + data[..start], k0, h0, c0, n)
    requires (address + start) % 4 == 0 || |data| - start < 4
    ensures start <= ptr <= |data| && |data| - ptr < 4 && Holds(m, seed, s + data[..ptr], k, h, c, n)
  {
    h, c, ptr, k := h0, c0, start, k0;
    var words := (|data| - start) / 4;
    ghost var i := 0;
    while ptr < start + words * 4
      invariant 0 <= i <= words && ptr == start + i * 4
      invariant Holds(m, seed, s + data[..ptr], k, h, c, n)
      decreases words - i
    {
      assert (address + start) % 4 == 0 && (address + ptr) % 4 == 0;
      h, c, k := AlignedWord(m, h, c, n, data[ptr..ptr + 4], seed, s + data[..ptr], k);
      assert s + data[..ptr + 4] == (s + data[..ptr]) + data[ptr..ptr + 4];
      ptr, i := ptr + 4, i + 1;
    }
  }

  method AlignedWord(m: Mixer, h0: nat, c0: nat, n: nat, bytes: seq<byte>, ghost seed: nat, ghost s: seq<byte>,
                     ghost k0: nat) returns (h: nat, c: nat, ghost k: nat)
    requires |bytes| == 4 && Holds(m, seed, s, k0, h0, c0, n)
    ensures Holds(m, seed, s + bytes, k, h, c, n)
  {
    k := k0 + 1;
    var k1;
    if n == 0 {
      AppendWord(m, seed, s, bytes, k0, h0, c0, k);
      k1, c := Word(bytes), c0;
    } else {
      JoinWord(m, seed, s, bytes, k0, h0, c0, n, k);
      c := Word(bytes);
      JoinIsOr(c0, n, c);
      k1 := match n
        case 1 => Or(c0 / 0x100_0000, c * 0x100 % M32)
        case 2 => Or(c0 / 0x1_0000, c * 0x1_0000 % M32)
        case _ => Or(c0 / 0x100, c * 0x100_0000 % M32);
    }
    h := m.mixIn(h0, m.scramble(k1));
  }

  /** What is left of the buffer goes into the carry, which is stored with its count. */
  method Leave(m: Mixer, h0: nat, c0: nat, n0: nat, data: seq<byte>, ptr: nat, ghost seed: nat, ghost s: seq<byte>,
               ghost k0: nat) returns (h: nat, c: nat, ghost k: nat)
    requires ptr <= |data| && Holds(m, seed, s + data[..ptr], k0, h0, c0, n0)
    ensures Holds(m, seed, s + data, k, h, c, c % 4)
  {
    var n;
    h, c, n, k := DoBytes(m, |data| - ptr, h0, c0, n0, data, ptr, seed, s, k0);
    assert data[..|data|] == data;
    StoredKeeps(c, (s + data)[4 * k..]);
    StoredIsMasked(c, n);
    c := Or(And(c, 0xffff_ff00), n);
  }

  // -------------------------------------------------------------- the hasher

  class Hasher {
    var hash: nat
    var carry: nat
    var length: nat  // a std::uint32_t

    ghost const seed: nat
    ghost var seen: seq<byte>
    ghost var blocks: nat

    ghost predicate Valid()
      reads this
    {
      Holds(MURMUR, seed, seen, blocks, hash, carry, carry % 4) && length == |seen| % M32
    }

    constructor (seed: nat)
      ensures Valid() && seen == [] && this.seed == seed
    {
      this.seed := seed;
      hash, carry, length, seen, blocks := seed, 0, 0, [], 0;
    }

    method Process(data: seq<byte>, unaligned: bool, address: nat)
      requires Holds(MURMUR, seed, seen, blocks, hash, carry, carry % 4)
      modifies `hash, `carry, `blocks
      ensures Holds(MURMUR, seed, seen + data, blocks, hash, carry, carry % 4)
    {
      if unaligned {
        hash, carry, blocks := ProcessUnaligned(MURMUR, hash, carry, data, seed, seen, blocks);
      } else {
        hash, carry, blocks := ProcessAligned(MURMUR, hash, carry, data, address, seed, seen, blocks);
      }
    }

    /** write, on either kind of processor; `address` is where the buffer is. */
    method Write(data: seq<byte>, unaligned: bool, address: nat)
      requires Valid()
      modifies this
      ensures Valid() && seen == old(seen) + data
    {
      Process(data, unaligned, address);
      Lengths(|seen|, |data|);
      length := (length + |data| % M32) % M32;
      seen := seen + data;
    }

    lemma Lengths(a: nat, b: nat)
      ensures (a % M32 + b % M32) % M32 == (a + b) % M32
    {}

    /** finish: the hash of everything written. */
    method Finish() returns (h: nat)
      requires Valid()
      ensures h == Murmur(seed, seen)
    {
      CountIsMasked(carry);
      var n := And(carry, 3);
      assert Tail(seen) == seen[4 * blocks..] && |seen| / 4 == blocks;
      h := Result(hash, if n != 0 then Some(carry / Below(n)) else None, length);
    }
  }

  function Concat(chunks: seq<seq<byte>>): seq<byte> {
    if chunks == [] then [] else Concat(chunks[..|chunks| - 1]) + chunks[|chunks| - 1]
  }

  /** Any way of cutting the input, any buffer addresses, either processor: the one-shot hash of the whole. */
  method HashChunks(seed: nat, chunks: seq<seq<byte>>, addresses: seq<nat>, unaligned: bool) returns (h: nat)
    requires |addresses| == |chunks|
    ensures h == Murmur(seed, Concat(chunks))
  {
    var hasher := new Hasher(seed);
    for i := 0 to |chunks|
      invariant hasher.Valid() && hasher.seed == seed && fresh(hasher) && hasher.seen == Concat(chunks[..i])
    {
      hasher.Write(chunks[i], unaligned, addresses[i]);
      assert chunks[..i + 1][..i] == chunks[..i];
    }
    assert chunks[..|chunks|] == chunks;
    h := hasher.Finish();
  }
}
