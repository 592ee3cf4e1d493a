/**
 The example of section 2.3.2 of RFC 8439, with which the generator's own tests compare it, worked out: twenty rounds
 on the state printed there, and the words printed for the end.
 */
module ChaChaExample {
  import opened ChaCha
  import opened ChaChaKeystream
  import opened LittleEndian

  const T0: Square :=
    Square(Quad(0x61707865, 0x03020100, 0x13121110, 0x00000001), Quad(0x3320646e, 0x07060504, 0x17161514, 0x09000000),
           Quad(0x79622d32, 0x0b0a0908, 0x1b1a1918, 0x4a000000), Quad(0x6b206574, 0x0f0e0d0c, 0x1f1e1d1c, 0x00000000))
  const T1: Square :=
    Square(Quad(0xcd52e917, 0xc4b7cd22, 0x7bf7d740, 0x6b0d58a3), Quad(0x85ab03b4, 0x5c2e187a, 0x7eddd644, 0x6798471a),
           Quad(0xb3457395, 0xc95eb461, 0xf1a1bdf5, 0xd737f167), Quad(0xf96de7dd, 0x316c801a, 0x761246ca, 0xf173888d))
  const T2: Square :=
    Square(Quad(0xcf1a7584, 0x901d2f40, 0x2dafb216, 0x10aef18d), Quad(0x048927ec, 0x7974b81c, 0x27c89cd6, 0x16218765),
           Quad(0x54051fda, 0x378dcfb4, 0xcd3c9aa0, 0x68f76705), Quad(0xc244ff28, 0xcd47fd0e, 0x79fc89c7, 0x04d6ee22))
  const T3: Square :=
    Square(Quad(0x03a14032, 0xa7143ae0, 0xc90c6b18, 0xba35d777), Quad(0x66b15927, 0xa09b33dd, 0x5a202413, 0xb360f1bf),
           Quad(0x9d6b6b42, 0xa5daaf88, 0xc20e01b6, 0x8178315b), Quad(0xb84c4109, 0x2fd91a73, 0x72cd6b74, 0x2cd11b1a))
  const T4: Square :=
    Square(Quad(0x9a2d3589, 0x0a1bffc6, 0xe46c6354, 0x2687d476), Quad(0x0b23fc4e, 0x5e5993f7, 0xc9503229, 0x54e65231),
           Quad(0x40af3b6b, 0x9904c2e7, 0x04fef5aa, 0x3594ffc5), Quad(0xceea8144, 0x0d334718, 0xf8933f72, 0x2b3bb2ca))
  const T5: Square :=
    Square(Quad(0xc53318c5, 0x26d7cf73, 0xae2ca8db, 0x9e5ec228), Quad(0xca325d96, 0x6088d379, 0x42f67c72, 0x7d85a9f3),
           Quad(0x7e7d11cb, 0xc0f0e9bd, 0x71669aca, 0x201d0756), Quad(0x3404e2ca, 0xe310cdb9, 0x975c171d, 0x63fa6953))
  const T6: Square :=
    Square(Quad(0x04a3131a, 0x36cc86c7, 0x07d13aca, 0x33b6686d), Quad(0x66176309, 0xbf8a4465, 0xeb0be9af, 0x795cc671),
           Quad(0x0415bab1, 0xf77dd720, 0x61599491, 0xc0049972), Quad(0x61b880a2, 0xfc0bdc90, 0x918512dc, 0xa0a81bde))
  const T7: Square :=
    Square(Quad(0x9b70f51f, 0x93b08686, 0xd839165e, 0xa609f555), Quad(0x7ea8ac11, 0x6a4c50ae, 0x4c06e28a, 0x2c246549),
           Quad(0x21e54da9, 0x19212a5a, 0xd3fde99e, 0x95151853), Quad(0xca393b2f, 0x9b032958, 0x26acc13d, 0x2c847a0d))
  const T8: Square :=
    Square(Quad(0xca5c85dd, 0x982563f8, 0x1c25931a, 0xa9b751fb), Quad(0x93a4f90e, 0x712aa9ff, 0x5180bb10, 0x382f3ce2),
           Quad(0xd9f0df58, 0x279a61e8, 0x779c27e7, 0x8db1757d), Quad(0x26dd82dd, 0x970f72bd, 0x54077e08, 0xcc38080b))
  const T9: Square :=
    Square(Quad(0xb6b87de6, 0xdc33c122, 0x28c1fcb3, 0x21078b22), Quad(0x9a016148, 0x98e18fa3, 0xc4b38f9d, 0xb193e7a3),
           Quad(0x93859815, 0x5ffbe8fc, 0x83e2f5d7, 0xb2f49389), Quad(0x4915e6cc, 0xf7154b8b, 0x7d24b98b, 0x6cde6026))
  const T10: Square :=
    Square(Quad(0x837778ab, 0xc4f2d0c7, 0x335271c2, 0xd19c12b4), Quad(0xe238d763, 0xfc62bb2f, 0xf29489f3, 0xb04e16de),
           Quad(0xa67ae21e, 0x8fa018fc, 0xeabda8fc, 0x9e83d0cb), Quad(0x5950bb2f, 0x3f5ec7b7, 0x82e46ebd, 0x4e3c50a2))

  lemma Traced0(d: Square -> Square)
    requires IsDoubleRound(d)
    ensures d(T0) == T1
  {
    assert DoubleRound(QuarterRound, T0) == T1;
  }

  lemma Traced1(d: Square -> Square)
    requires IsDoubleRound(d)
    ensures d(T1) == T2
  {
    assert DoubleRound(QuarterRound, T1) == T2;
  }

  lemma Traced2(d: Square -> Square)
    requires IsDoubleRound(d)
    ensures d(T2) == T3
  {
    assert DoubleRound(QuarterRound, T2) == T3;
  }

  lemma Traced3(d: Square -> Square)
    requires IsDoubleRound(d)
    ensures d(T3) == T4
  {
    assert DoubleRound(QuarterRound, T3) == T4;
  }

  lemma Traced4(d: Square -> Square)
    requires IsDoubleRound(d)
    ensures d(T4) == T5
  {
    assert DoubleRound(QuarterRound, T4) == T5;
  }

  lemma Traced5(d: Square -> Square)
    requires IsDoubleRound(d)
    ensures d(T5) == T6
  {
    assert DoubleRound(QuarterRound, T5) == T6;
  }

  lemma Traced6(d: Square -> Square)
    requires IsDoubleRound(d)
    ensures d(T6) == T7
  {
    assert DoubleRound(QuarterRound, T6) == T7;
  }

  lemma Traced7(d: Square -> Square)
    requires IsDoubleRound(d)
    ensures d(T7) == T8
  {
    assert DoubleRound(QuarterRound, T7) == T8;
  }

  lemma Traced8(d: Square -> Square)
    requires IsDoubleRound(d)
    ensures d(T8) == T9
  {
    assert DoubleRound(QuarterRound, T8) == T9;
  }

  lemma Traced9(d: Square -> Square)
    requires IsDoubleRound(d)
    ensures d(T9) == T10
  {
    assert DoubleRound(QuarterRound, T9) == T10;
  }

  lemma TenRounds(d: Square -> Square)
    requires IsDoubleRound(d)
    ensures Repeated(d, T0, 10) == T10
  {
    Traced0(d);
    Traced1(d);
    Traced2(d);
    Traced3(d);
    Traced4(d);
    Traced5(d);
    Traced6(d);
    Traced7(d);
    Traced8(d);
    Traced9(d);
    assert Repeated(d, T0, 5) == T5;
  }

  const START: Words :=
    [0x61707865, 0x3320646e, 0x79622d32, 0x6b206574, 0x03020100, 0x07060504, 0x0b0a0908, 0x0f0e0d0c,
     0x13121110, 0x17161514, 0x1b1a1918, 0x1f1e1d1c, 0x00000001, 0x09000000, 0x4a000000, 0x00000000]

  const END: Words :=
    [0xe4e7f110, 0x15593bd1, 0x1fdd0f50, 0xc47120a3, 0xc7f4d1c7, 0x0368c033, 0x9aaa2204, 0x4e6cd4c3,
     0x466482d2, 0x09aa9f07, 0x05d7c214, 0xa2028bd9, 0xd19c12b5, 0xb94e16de, 0xe883d0cb, 0x4e3c50a2]

  lemma StartColumns()
    ensures Columns(START) == T0
  {}

  lemma Sums()
    ensures Sum(Rows(T10), START) == END
  {
    var s := Sum(Rows(T10), START);
    assert s[0] == Add(0x837778ab, 0x61707865) == 0xe4e7f110;
    assert s[1] == Add(0xe238d763, 0x3320646e) == 0x15593bd1;
    assert s[2] == Add(0xa67ae21e, 0x79622d32) == 0x1fdd0f50;
    assert s[3] == Add(0x5950bb2f, 0x6b206574) == 0xc47120a3;
    assert s[4] == Add(0xc4f2d0c7, 0x03020100) == 0xc7f4d1c7;
    assert s[5] == Add(0xfc62bb2f, 0x07060504) == 0x0368c033;
    assert s[6] == Add(0x8fa018fc, 0x0b0a0908) == 0x9aaa2204;
    assert s[7] == Add(0x3f5ec7b7, 0x0f0e0d0c) == 0x4e6cd4c3;
    assert s[8] == Add(0x335271c2, 0x13121110) == 0x466482d2;
    assert s[9] == Add(0xf29489f3, 0x17161514) == 0x09aa9f07;
    assert s[10] == Add(0xeabda8fc, 0x1b1a1918) == 0x05d7c214;
    assert s[11] == Add(0x82e46ebd, 0x1f1e1d1c) == 0xa2028bd9;
    assert s[12] == Add(0xd19c12b4, 0x00000001) == 0xd19c12b5;
    assert s[13] == Add(0xb04e16de, 0x09000000) == 0xb94e16de;
    assert s[14] == Add(0x9e83d0cb, 0x4a000000) == 0xe883d0cb;
    assert s[15] == Add(0x4e3c50a2, 0x00000000) == 0x4e3c50a2;
  }

  lemma Example(d: Square -> Square)
    requires IsDoubleRound(d)
    ensures Mixed(d, 20, START) == END
  {
    StartColumns();
    TenRounds(d);
    Sums();
  }

  // -------------------------------------------------------------- from the key and the nonce to the results

  lemma SameBlock(rounds: nat, s: State, w: Words, e: Words)
    requires BitsOf(s) == w && Mixed(DOUBLE_ROUND, rounds, w) == e
    ensures ChaChaBlock(rounds, s) == Paired(AsNumber, e)
  {}

  lemma SameBits(s: State, w: Words)
    requires forall i :: 0 <= i < 16 ==> AsBits(s[i]) == w[i]
    ensures BitsOf(s) == w
  {}

  function Long(low: nat, high: nat): nat {
    low + 0x1_0000_0000 * high
  }

  lemma SameResults(number: bv32 -> uint32, s: Words, n: State)
    requires forall i :: 0 <= i < 16 ==> number(s[i]) == n[i]
    ensures Paired(number, s) == Longs(n)
  {}

  function Longs(n: State): Block {
    [Long(n[0], n[1]), Long(n[2], n[3]), Long(n[4], n[5]), Long(n[6], n[7]),
     Long(n[8], n[9]), Long(n[10], n[11]), Long(n[12], n[13]), Long(n[14], n[15])]
  }

  const KEY: Key := seq(32, i requires 0 <= i < 32 => i)

  const NONCE: Nonce := [0, 0, 0, 9, 0, 0, 0, 0x4a, 0, 0, 0, 0]

  const STATE: State :=
    [0x61707865, 0x3320646e, 0x79622d32, 0x6b206574, 0x03020100, 0x07060504, 0x0b0a0908, 0x0f0e0d0c,
     0x13121110, 0x17161514, 0x1b1a1918, 0x1f1e1d1c, 0x00000001, 0x09000000, 0x4a000000, 0x00000000]

  lemma KeyWords()
    ensures LoadLe32(KEY, 0) == 0x03020100
    ensures LoadLe32(KEY, 4) == 0x07060504
    ensures LoadLe32(KEY, 8) == 0x0b0a0908
    ensures LoadLe32(KEY, 12) == 0x0f0e0d0c
    ensures LoadLe32(KEY, 16) == 0x13121110
    ensures LoadLe32(KEY, 20) == 0x17161514
    ensures LoadLe32(KEY, 24) == 0x1b1a1918
    ensures LoadLe32(KEY, 28) == 0x1f1e1d1c
  {}

  lemma NonceWords()
    ensures LoadLe32(NONCE, 0) == 0x09000000 && LoadLe32(NONCE, 4) == 0x4a000000 && LoadLe32(NONCE, 8) == 0
  {}

  lemma SampleState()
    ensures Layout(KEY, NONCE, 1) == STATE
  {
    KeyWords();
    NonceWords();
  }

  lemma SampleBits0()
    ensures AsBits(0x61707865) == 0x61707865 && AsBits(0x3320646e) == 0x3320646e
    ensures AsBits(0x79622d32) == 0x79622d32 && AsBits(0x6b206574) == 0x6b206574
  {}

  lemma SampleBits1()
    ensures AsBits(0x03020100) == 0x03020100 && AsBits(0x07060504) == 0x07060504
    ensures AsBits(0x0b0a0908) == 0x0b0a0908 && AsBits(0x0f0e0d0c) == 0x0f0e0d0c
  {}

  lemma SampleBits2()
    ensures AsBits(0x13121110) == 0x13121110 && AsBits(0x17161514) == 0x17161514
    ensures AsBits(0x1b1a1918) == 0x1b1a1918 && AsBits(0x1f1e1d1c) == 0x1f1e1d1c
  {}

  lemma SampleBits3()
    ensures AsBits(0x00000001) == 0x00000001 && AsBits(0x09000000) == 0x09000000
    ensures AsBits(0x4a000000) == 0x4a000000 && AsBits(0x00000000) == 0x00000000
  {}

  lemma SampleBits()
    ensures BitsOf(STATE) == START
  {
    SampleBits0();
    SampleBits1();
    SampleBits2();
    SampleBits3();
    SameBits(STATE, START);
  }

  lemma SampleNumbers0()
    ensures AsNumber(0xe4e7f110) == 0xe4e7f110 && AsNumber(0x15593bd1) == 0x15593bd1
    ensures AsNumber(0x1fdd0f50) == 0x1fdd0f50 && AsNumber(0xc47120a3) == 0xc47120a3
  {}

  lemma SampleNumbers1()
    ensures AsNumber(0xc7f4d1c7) == 0xc7f4d1c7 && AsNumber(0x0368c033) == 0x0368c033
    ensures AsNumber(0x9aaa2204) == 0x9aaa2204 && AsNumber(0x4e6cd4c3) == 0x4e6cd4c3
  {}

  lemma SampleNumbers2()
    ensures AsNumber(0x466482d2) == 0x466482d2 && AsNumber(0x09aa9f07) == 0x09aa9f07
    ensures AsNumber(0x05d7c214) == 0x05d7c214 && AsNumber(0xa2028bd9) == 0xa2028bd9
  {}

  lemma SampleNumbers3()
    ensures AsNumber(0xd19c12b5) == 0xd19c12b5 && AsNumber(0xb94e16de) == 0xb94e16de
    ensures AsNumber(0xe883d0cb) == 0xe883d0cb && AsNumber(0x4e3c50a2) == 0x4e3c50a2
  {}

  const SAMPLE_NUMBERS: State :=
    [0xe4e7f110, 0x15593bd1, 0x1fdd0f50, 0xc47120a3, 0xc7f4d1c7, 0x0368c033, 0x9aaa2204, 0x4e6cd4c3,
     0x466482d2, 0x09aa9f07, 0x05d7c214, 0xa2028bd9, 0xd19c12b5, 0xb94e16de, 0xe883d0cb, 0x4e3c50a2]

  lemma SampleLongs()
    ensures Longs(SAMPLE_NUMBERS)
         == [0x15593bd1e4e7f110, 0xc47120a31fdd0f50, 0x0368c033c7f4d1c7, 0x4e6cd4c39aaa2204,
             0x09aa9f07466482d2, 0xa2028bd905d7c214, 0xb94e16ded19c12b5, 0x4e3c50a2e883d0cb]
  {}

  lemma SampleResults()
    ensures Paired(AsNumber, END)
         == [0x15593bd1e4e7f110, 0xc47120a31fdd0f50, 0x0368c033c7f4d1c7, 0x4e6cd4c39aaa2204,
             0x09aa9f07466482d2, 0xa2028bd905d7c214, 0xb94e16ded19c12b5, 0x4e3c50a2e883d0cb]
  {
    SampleNumbers0();
    SampleNumbers1();
    SampleNumbers2();
    SampleNumbers3();
    SameResults(AsNumber, END, SAMPLE_NUMBERS);
    SampleLongs();
  }

  /** What the generator's tests expect of the block of counter 1 for the sample key and nonce. */
  lemma Sample()
    ensures ChaChaBlock(20, Layout(KEY, NONCE, 1))
         == [0x15593bd1e4e7f110, 0xc47120a31fdd0f50, 0x0368c033c7f4d1c7, 0x4e6cd4c39aaa2204,
             0x09aa9f07466482d2, 0xa2028bd905d7c214, 0xb94e16ded19c12b5, 0x4e3c50a2e883d0cb]
  {
    SampleState();
    SampleBits();
    Example(DOUBLE_ROUND);
    SampleResults();
    SameBlock(20, STATE, START, END);
  }
}
