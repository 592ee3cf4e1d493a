/** Bytes, 32-bit words, and numbers written in bytes with the lowest byte first. */
module LittleEndian {
  const M32: nat := 0x1_0000_0000

  type byte = b: nat | b < 256
  type uint32 = x: nat | x < M32

  function Ascii(text: string): seq<byte> {
    seq(|text|, i requires 0 <= i < |text| => (text[i] as nat % 256) as byte)
  }

  function Word(bytes: seq<byte>): nat {
    if bytes == [] then 0 else bytes[0] + 256 * Word(bytes[1..])
  }

  lemma WordCons(b: byte, t: seq<byte>)
    ensures Word([b] + t) == b + 256 * Word(t)
  {
    assert ([b] + t)[1..] == t;
  }

  lemma Words(a: byte, b: byte, c: byte, d: byte)
    ensures Word([a]) == a
    ensures Word([a, b]) == a + 256 * b
    ensures Word([a, b, c]) == a + 256 * b + 0x1_0000 * c
    ensures Word([a, b, c, d]) == a + 256 * b + 0x1_0000 * c + 0x100_0000 * d
  {
    One(a);
    One(b);
    One(c);
    One(d);
    WordCons(a, [b]);
    WordCons(b, [c]);
    WordCons(c, [d]);
    assert [a] + [b] == [a, b] && [b] + [c] == [b, c] && [c] + [d] == [c, d];
    WordCons(a, [b, c]);
    WordCons(b, [c, d]);
    assert [a] + [b, c] == [a, b, c] && [b] + [c, d] == [b, c, d];
    WordCons(a, [b, c, d]);
    assert [a] + [b, c, d] == [a, b, c, d];
  }

  lemma One(a: byte)
    ensures Word([a]) == a
  {
    WordCons(a, []);
    assert [a] + [] == [a];
  }
}
