/**
 The blocks that the generator's tests compare with published ones for the key and the nonce of all zeros, after
 eight, twelve and twenty rounds, worked out.
 */
module ChaChaZeroKey {
  import opened ChaCha
  import opened ChaChaExample
  import opened ChaChaKeystream
  import opened LittleEndian

  const Z0: Square :=
    Square(Quad(0x61707865, 0x00000000, 0x00000000, 0x00000000), Quad(0x3320646e, 0x00000000, 0x00000000, 0x00000000),
           Quad(0x79622d32, 0x00000000, 0x00000000, 0x00000000), Quad(0x6b206574, 0x00000000, 0x00000000, 0x00000000))
  const Z1: Square :=
    Square(Quad(0xe45fd249, 0x2a3bf673, 0x538dca0e, 0x6bbf8b09), Quad(0x1bb820a6, 0x86bf4098, 0x0c439641, 0xc33013d6),
           Quad(0xe31a88ea, 0x460b500a, 0x00fa16bc, 0xbb9f9849), Quad(0xe667a9fe, 0xfa169886, 0x8a08812a, 0x87c62165))
  const Z2: Square :=
    Square(Quad(0xb20e0da6, 0x28bfa54e, 0x69727d19, 0x601c8a8d), Quad(0x21219e43, 0x0e8a389f, 0x12e796ec, 0x18cf3767),
           Quad(0x79c69196, 0x7919a4b4, 0xd1875d88, 0x60d10ebc), Quad(0x8eb9d107, 0x323f2639, 0x602bb1ec, 0x17aa36ca))
  const Z3: Square :=
    Square(Quad(0x0287a2a1, 0x9276b821, 0xd7b18523, 0x5c427a5f), Quad(0xd2dc39ef, 0x37ccb7a7, 0xa0952ff2, 0x1d928d7b),
           Quad(0xf2ecf51e, 0x1fe6c459, 0x131f6ff5, 0xf4d2b4da), Quad(0xc3876afe, 0xe5f95617, 0x6f38a9cc, 0x1a640884))
  const Z4: Square :=
    Square(Quad(0xce7e87d9, 0xc30e842c, 0x72e14c98, 0xa3424a31), Quad(0xa31ffb1b, 0x3b7f9ace, 0x416f21b9, 0x01b086da),
           Quad(0x6f562e4d, 0x88e11b18, 0x6753449f, 0xb8fd7b38), Quad(0x3684a3ab, 0x1e1a71ef, 0x19566d45, 0x42fe0c0e))
  const Z5: Square :=
    Square(Quad(0x4e03490c, 0x50b4761b, 0x4f9f9d79, 0xb1f55cb5), Quad(0x97eebef9, 0xea7c9cf0, 0x44f52393, 0x05110aed),
           Quad(0xf682bb04, 0xb3a3e583, 0xabbfaf66, 0x561c5907), Quad(0x2f47e3b0, 0xe5bad8a8, 0x5efd347a, 0xd41d25b4))
  const Z6: Square :=
    Square(Quad(0x092a7c36, 0xbbc32904, 0x79f86405, 0x2c9f623a), Quad(0x20d8f099, 0x1474e049, 0xc0e37ad2, 0x1969dea0),
           Quad(0x996bf24f, 0xa589007e, 0x3428e82c, 0x2fe80b61), Quad(0x6a62c0eb, 0x5f15ae2e, 0x798cfaac, 0xbe261341))
  const Z7: Square :=
    Square(Quad(0x6ddf4b98, 0xdda3ea19, 0x46d58770, 0xaf4ad6e3), Quad(0x5fde0110, 0x46da35f5, 0xc0c8e4e6, 0xe6947902),
           Quad(0xd9ddb632, 0x31fb36ca, 0xba4b1657, 0x2681e5bb), Quad(0x7418250b, 0x70e56323, 0xc4702b5e, 0x28344e52))
  const Z8: Square :=
    Square(Quad(0xf6eb4385, 0x71db97dd, 0x9e5243f3, 0x6b96a006), Quad(0x0f5070cf, 0x60cd994d, 0x16d0ee25, 0x477a37f7),
           Quad(0x824ac4d4, 0xad805036, 0x82e92b96, 0xd244fa8c), Quad(0xff026184, 0x89d591ce, 0xd0da8654, 0xb24c5c63))
  const Z9: Square :=
    Square(Quad(0x0a49d0bb, 0x7c188159, 0x5b48a341, 0xc5d89a0b), Quad(0xfd73bfeb, 0x390f8b4d, 0x0861dff7, 0x9df1402c),
           Quad(0xc24392d4, 0x0a23271f, 0x5d33cdbb, 0xb08ab5e0), Quad(0xe110766d, 0x0e051682, 0x17d4372d, 0x85488580))
  const Z10: Square :=
    Square(Quad(0x4c704011, 0xb819d2bd, 0x7c5941da, 0xf4b8436a), Quad(0x5d1d8d32, 0x1aed8da0, 0x8d485751, 0x1ca11815),
           Quad(0x6c08300e, 0xccef36a8, 0x3fe02477, 0x69b687c3), Quad(0xbd9d20df, 0xc70d778b, 0x374ad8b8, 0x8665eeb2))

  lemma Traced0(d: Square -> Square)
    requires IsDoubleRound(d)
    ensures d(Z0) == Z1
  {
    assert DoubleRound(QuarterRound, Z0) == Z1;
  }

  lemma Traced1(d: Square -> Square)
    requires IsDoubleRound(d)
    ensures d(Z1) == Z2
  {
    assert DoubleRound(QuarterRound, Z1) == Z2;
  }

  lemma Traced2(d: Square -> Square)
    requires IsDoubleRound(d)
    ensures d(Z2) == Z3
  {
    assert DoubleRound(QuarterRound, Z2) == Z3;
  }

  lemma Traced3(d: Square -> Square)
    requires IsDoubleRound(d)
    ensures d(Z3) == Z4
  {
    assert DoubleRound(QuarterRound, Z3) == Z4;
  }

  lemma Traced4(d: Square -> Square)
    requires IsDoubleRound(d)
    ensures d(Z4) == Z5
  {
    assert DoubleRound(QuarterRound, Z4) == Z5;
  }

  lemma Traced5(d: Square -> Square)
    requires IsDoubleRound(d)
    ensures d(Z5) == Z6
  {
    assert DoubleRound(QuarterRound, Z5) == Z6;
  }

  lemma Traced6(d: Square -> Square)
    requires IsDoubleRound(d)
    ensures d(Z6) == Z7
  {
    assert DoubleRound(QuarterRound, Z6) == Z7;
  }

  lemma Traced7(d: Square -> Square)
    requires IsDoubleRound(d)
    ensures d(Z7) == Z8
  {
    assert DoubleRound(QuarterRound, Z7) == Z8;
  }

  lemma Traced8(d: Square -> Square)
    requires IsDoubleRound(d)
    ensures d(Z8) == Z9
  {
    assert DoubleRound(QuarterRound, Z8) == Z9;
  }

  lemma Traced9(d: Square -> Square)
    requires IsDoubleRound(d)
    ensures d(Z9) == Z10
  {
    assert DoubleRound(QuarterRound, Z9) == Z10;
  }

  lemma Rounds8(d: Square -> Square)
    requires IsDoubleRound(d)
    ensures Repeated(d, Z0, 4) == Z4
  {
    Traced0(d);
    Traced1(d);
    Traced2(d);
    Traced3(d);
  }

  lemma Rounds12(d: Square -> Square)
    requires IsDoubleRound(d)
    ensures Repeated(d, Z0, 6) == Z6
  {
    Rounds8(d);
    Traced4(d);
    Traced5(d);
  }

  lemma Rounds20(d: Square -> Square)
    requires IsDoubleRound(d)
    ensures Repeated(d, Z0, 10) == Z10
  {
    Rounds12(d);
    Traced6(d);
    Traced7(d);
    Traced8(d);
    Traced9(d);
  }

  const WORDS: Words :=
    [0x61707865, 0x3320646e, 0x79622d32, 0x6b206574, 0x00000000, 0x00000000, 0x00000000, 0x00000000,
     0x00000000, 0x00000000, 0x00000000, 0x00000000, 0x00000000, 0x00000000, 0x00000000, 0x00000000]

  const STATE0: State :=
    [0x61707865, 0x3320646e, 0x79622d32, 0x6b206574, 0x00000000, 0x00000000, 0x00000000, 0x00000000,
     0x00000000, 0x00000000, 0x00000000, 0x00000000, 0x00000000, 0x00000000, 0x00000000, 0x00000000]

  lemma WordsColumns()
    ensures Columns(WORDS) == Z0
  {}

  predicate IsZero(bytes: seq<byte>) {
    forall i :: 0 <= i < |bytes| ==> bytes[i] == 0
  }

  lemma ZeroState(key: Key, nonce: Nonce)
    requires IsZero(key) && IsZero(nonce)
    ensures Layout(key, nonce, 0) == STATE0
  {}

  lemma ZeroBits0()
    ensures AsBits(0x61707865) == 0x61707865 && AsBits(0x3320646e) == 0x3320646e
    ensures AsBits(0x79622d32) == 0x79622d32 && AsBits(0x6b206574) == 0x6b206574
  {}

  lemma ZeroBits1()
    ensures AsBits(0x00000000) == 0x00000000
  {}

  lemma ZeroBits()
    ensures BitsOf(STATE0) == WORDS
  {
    ZeroBits0();
    ZeroBits1();
    SameBits(STATE0, WORDS);
  }

  const END8: Words :=
    [0x2fef003e, 0xd6405f89, 0xe8b85b7f, 0xa1a5091f, 0xc30e842c, 0x3b7f9ace, 0x88e11b18, 0x1e1a71ef,
     0x72e14c98, 0x416f21b9, 0x6753449f, 0x19566d45, 0xa3424a31, 0x01b086da, 0xb8fd7b38, 0x42fe0c0e]

  lemma Sums8()
    ensures Sum(Rows(Z4), WORDS) == END8
  {
    var s := Sum(Rows(Z4), WORDS);
    assert s[0] == Add(0xce7e87d9, 0x61707865) == 0x2fef003e;
    assert s[1] == Add(0xa31ffb1b, 0x3320646e) == 0xd6405f89;
    assert s[2] == Add(0x6f562e4d, 0x79622d32) == 0xe8b85b7f;
    assert s[3] == Add(0x3684a3ab, 0x6b206574) == 0xa1a5091f;
    assert s[4] == Add(0xc30e842c, 0x00000000) == 0xc30e842c;
    assert s[5] == Add(0x3b7f9ace, 0x00000000) == 0x3b7f9ace;
    assert s[6] == Add(0x88e11b18, 0x00000000) == 0x88e11b18;
    assert s[7] == Add(0x1e1a71ef, 0x00000000) == 0x1e1a71ef;
    assert s[8] == Add(0x72e14c98, 0x00000000) == 0x72e14c98;
    assert s[9] == Add(0x416f21b9, 0x00000000) == 0x416f21b9;
    assert s[10] == Add(0x6753449f, 0x00000000) == 0x6753449f;
    assert s[11] == Add(0x19566d45, 0x00000000) == 0x19566d45;
    assert s[12] == Add(0xa3424a31, 0x00000000) == 0xa3424a31;
    assert s[13] == Add(0x01b086da, 0x00000000) == 0x01b086da;
    assert s[14] == Add(0xb8fd7b38, 0x00000000) == 0xb8fd7b38;
    assert s[15] == Add(0x42fe0c0e, 0x00000000) == 0x42fe0c0e;
  }

  lemma Mixed8Numbers0()
    ensures AsNumber(0x2fef003e) == 0x2fef003e && AsNumber(0xd6405f89) == 0xd6405f89
    ensures AsNumber(0xe8b85b7f) == 0xe8b85b7f && AsNumber(0xa1a5091f) == 0xa1a5091f
  {}

  lemma Mixed8Numbers1()
    ensures AsNumber(0xc30e842c) == 0xc30e842c && AsNumber(0x3b7f9ace) == 0x3b7f9ace
    ensures AsNumber(0x88e11b18) == 0x88e11b18 && AsNumber(0x1e1a71ef) == 0x1e1a71ef
  {}

  lemma Mixed8Numbers2()
    ensures AsNumber(0x72e14c98) == 0x72e14c98 && AsNumber(0x416f21b9) == 0x416f21b9
    ensures AsNumber(0x6753449f) == 0x6753449f && AsNumber(0x19566d45) == 0x19566d45
  {}

  lemma Mixed8Numbers3()
    ensures AsNumber(0xa3424a31) == 0xa3424a31 && AsNumber(0x01b086da) == 0x01b086da
    ensures AsNumber(0xb8fd7b38) == 0xb8fd7b38 && AsNumber(0x42fe0c0e) == 0x42fe0c0e
  {}

  const MIXED8_NUMBERS: State :=
    [0x2fef003e, 0xd6405f89, 0xe8b85b7f, 0xa1a5091f, 0xc30e842c, 0x3b7f9ace, 0x88e11b18, 0x1e1a71ef,
     0x72e14c98, 0x416f21b9, 0x6753449f, 0x19566d45, 0xa3424a31, 0x01b086da, 0xb8fd7b38, 0x42fe0c0e]

  lemma Mixed8Longs()
    ensures Longs(MIXED8_NUMBERS)
         == [0xd6405f892fef003e, 0xa1a5091fe8b85b7f, 0x3b7f9acec30e842c, 0x1e1a71ef88e11b18,
             0x416f21b972e14c98, 0x19566d456753449f, 0x01b086daa3424a31, 0x42fe0c0eb8fd7b38]
  {}

  lemma Mixed8Results()
    ensures Paired(AsNumber, END8)
         == [0xd6405f892fef003e, 0xa1a5091fe8b85b7f, 0x3b7f9acec30e842c, 0x1e1a71ef88e11b18,
             0x416f21b972e14c98, 0x19566d456753449f, 0x01b086daa3424a31, 0x42fe0c0eb8fd7b38]
  {
    Mixed8Numbers0();
    Mixed8Numbers1();
    Mixed8Numbers2();
    Mixed8Numbers3();
    SameResults(AsNumber, END8, MIXED8_NUMBERS);
    Mixed8Longs();
  }

  lemma Ends8(d: Square -> Square)
    requires IsDoubleRound(d)
    ensures Mixed(d, 8, WORDS) == END8
  {
    WordsColumns();
    Rounds8(d);
    Sums8();
  }

  lemma Zero8(rounds: nat)
    requires rounds == 8
    ensures ChaChaBlock(rounds, STATE0)
         == [0xd6405f892fef003e, 0xa1a5091fe8b85b7f, 0x3b7f9acec30e842c, 0x1e1a71ef88e11b18,
             0x416f21b972e14c98, 0x19566d456753449f, 0x01b086daa3424a31, 0x42fe0c0eb8fd7b38]
  {
    ZeroBits();
    Ends8(DOUBLE_ROUND);
    Mixed8Results();
    SameBlock(rounds, STATE0, WORDS, END8);
  }

  /** What the tests expect of chacha8 first. */
  lemma ChaCha8(key: Key, nonce: Nonce)
    requires IsZero(key) && IsZero(nonce)
    ensures ChaChaBlock(8, Layout(key, nonce, 0))
         == [0xd6405f892fef003e, 0xa1a5091fe8b85b7f, 0x3b7f9acec30e842c, 0x1e1a71ef88e11b18,
             0x416f21b972e14c98, 0x19566d456753449f, 0x01b086daa3424a31, 0x42fe0c0eb8fd7b38]
  {
    ZeroState(key, nonce);
    Zero8(8);
  }

  const END12: Words :=
    [0x6a9af49b, 0x53f95507, 0x12ce1f81, 0xd583265f, 0xbbc32904, 0x1474e049, 0xa589007e, 0x5f15ae2e,
     0x79f86405, 0xc0e37ad2, 0x3428e82c, 0x798cfaac, 0x2c9f623a, 0x1969dea0, 0x2fe80b61, 0xbe261341]

  lemma Sums12()
    ensures Sum(Rows(Z6), WORDS) == END12
  {
    var s := Sum(Rows(Z6), WORDS);
    assert s[0] == Add(0x092a7c36, 0x61707865) == 0x6a9af49b;
    assert s[1] == Add(0x20d8f099, 0x3320646e) == 0x53f95507;
    assert s[2] == Add(0x996bf24f, 0x79622d32) == 0x12ce1f81;
    assert s[3] == Add(0x6a62c0eb, 0x6b206574) == 0xd583265f;
    assert s[4] == Add(0xbbc32904, 0x00000000) == 0xbbc32904;
    assert s[5] == Add(0x1474e049, 0x00000000) == 0x1474e049;
    assert s[6] == Add(0xa589007e, 0x00000000) == 0xa589007e;
    assert s[7] == Add(0x5f15ae2e, 0x00000000) == 0x5f15ae2e;
    assert s[8] == Add(0x79f86405, 0x00000000) == 0x79f86405;
    assert s[9] == Add(0xc0e37ad2, 0x00000000) == 0xc0e37ad2;
    assert s[10] == Add(0x3428e82c, 0x00000000) == 0x3428e82c;
    assert s[11] == Add(0x798cfaac, 0x00000000) == 0x798cfaac;
    assert s[12] == Add(0x2c9f623a, 0x00000000) == 0x2c9f623a;
    assert s[13] == Add(0x1969dea0, 0x00000000) == 0x1969dea0;
    assert s[14] == Add(0x2fe80b61, 0x00000000) == 0x2fe80b61;
    assert s[15] == Add(0xbe261341, 0x00000000) == 0xbe261341;
  }

  lemma Mixed12Numbers0()
    ensures AsNumber(0x6a9af49b) == 0x6a9af49b && AsNumber(0x53f95507) == 0x53f95507
    ensures AsNumber(0x12ce1f81) == 0x12ce1f81 && AsNumber(0xd583265f) == 0xd583265f
  {}

  lemma Mixed12Numbers1()
    ensures AsNumber(0xbbc32904) == 0xbbc32904 && AsNumber(0x1474e049) == 0x1474e049
    ensures AsNumber(0xa589007e) == 0xa589007e && AsNumber(0x5f15ae2e) == 0x5f15ae2e
  {}

  lemma Mixed12Numbers2()
    ensures AsNumber(0x79f86405) == 0x79f86405 && AsNumber(0xc0e37ad2) == 0xc0e37ad2
    ensures AsNumber(0x3428e82c) == 0x3428e82c && AsNumber(0x798cfaac) == 0x798cfaac
  {}

  lemma Mixed12Numbers3()
    ensures AsNumber(0x2c9f623a) == 0x2c9f623a && AsNumber(0x1969dea0) == 0x1969dea0
    ensures AsNumber(0x2fe80b61) == 0x2fe80b61 && AsNumber(0xbe261341) == 0xbe261341
  {}

  const MIXED12_NUMBERS: State :=
    [0x6a9af49b, 0x53f95507, 0x12ce1f81, 0xd583265f, 0xbbc32904, 0x1474e049, 0xa589007e, 0x5f15ae2e,
     0x79f86405, 0xc0e37ad2, 0x3428e82c, 0x798cfaac, 0x2c9f623a, 0x1969dea0, 0x2fe80b61, 0xbe261341]

  lemma Mixed12Longs()
    ensures Longs(MIXED12_NUMBERS)
         == [0x53f955076a9af49b, 0xd583265f12ce1f81, 0x1474e049bbc32904, 0x5f15ae2ea589007e,
             0xc0e37ad279f86405, 0x798cfaac3428e82c, 0x1969dea02c9f623a, 0xbe2613412fe80b61]
  {}

  lemma Mixed12Results()
    ensures Paired(AsNumber, END12)
         == [0x53f955076a9af49b, 0xd583265f12ce1f81, 0x1474e049bbc32904, 0x5f15ae2ea589007e,
             0xc0e37ad279f86405, 0x798cfaac3428e82c, 0x1969dea02c9f623a, 0xbe2613412fe80b61]
  {
    Mixed12Numbers0();
    Mixed12Numbers1();
    Mixed12Numbers2();
    Mixed12Numbers3();
    SameResults(AsNumber, END12, MIXED12_NUMBERS);
    Mixed12Longs();
  }

  lemma Ends12(d: Square -> Square)
    requires IsDoubleRound(d)
    ensures Mixed(d, 12, WORDS) == END12
  {
    WordsColumns();
    Rounds12(d);
    Sums12();
  }

  lemma Zero12(rounds: nat)
    requires rounds == 12
    ensures ChaChaBlock(rounds, STATE0)
         == [0x53f955076a9af49b, 0xd583265f12ce1f81, 0x1474e049bbc32904, 0x5f15ae2ea589007e,
             0xc0e37ad279f86405, 0x798cfaac3428e82c, 0x1969dea02c9f623a, 0xbe2613412fe80b61]
  {
    ZeroBits();
    Ends12(DOUBLE_ROUND);
    Mixed12Results();
    SameBlock(rounds, STATE0, WORDS, END12);
  }

  /** What the tests expect of chacha12 first. */
  lemma ChaCha12(key: Key, nonce: Nonce)
    requires IsZero(key) && IsZero(nonce)
    ensures ChaChaBlock(12, Layout(key, nonce, 0))
         == [0x53f955076a9af49b, 0xd583265f12ce1f81, 0x1474e049bbc32904, 0x5f15ae2ea589007e,
             0xc0e37ad279f86405, 0x798cfaac3428e82c, 0x1969dea02c9f623a, 0xbe2613412fe80b61]
  {
    ZeroState(key, nonce);
    Zero12(12);
  }

  const END20: Words :=
    [0xade0b876, 0x903df1a0, 0xe56a5d40, 0x28bd8653, 0xb819d2bd, 0x1aed8da0, 0xccef36a8, 0xc70d778b,
     0x7c5941da, 0x8d485751, 0x3fe02477, 0x374ad8b8, 0xf4b8436a, 0x1ca11815, 0x69b687c3, 0x8665eeb2]

  lemma Sums20()
    ensures Sum(Rows(Z10), WORDS) == END20
  {
    var s := Sum(Rows(Z10), WORDS);
    assert s[0] == Add(0x4c704011, 0x61707865) == 0xade0b876;
    assert s[1] == Add(0x5d1d8d32, 0x3320646e) == 0x903df1a0;
    assert s[2] == Add(0x6c08300e, 0x79622d32) == 0xe56a5d40;
    assert s[3] == Add(0xbd9d20df, 0x6b206574) == 0x28bd8653;
    assert s[4] == Add(0xb819d2bd, 0x00000000) == 0xb819d2bd;
    assert s[5] == Add(0x1aed8da0, 0x00000000) == 0x1aed8da0;
    assert s[6] == Add(0xccef36a8, 0x00000000) == 0xccef36a8;
    assert s[7] == Add(0xc70d778b, 0x00000000) == 0xc70d778b;
    assert s[8] == Add(0x7c5941da, 0x00000000) == 0x7c5941da;
    assert s[9] == Add(0x8d485751, 0x00000000) == 0x8d485751;
    assert s[10] == Add(0x3fe02477, 0x00000000) == 0x3fe02477;
    assert s[11] == Add(0x374ad8b8, 0x00000000) == 0x374ad8b8;
    assert s[12] == Add(0xf4b8436a, 0x00000000) == 0xf4b8436a;
    assert s[13] == Add(0x1ca11815, 0x00000000) == 0x1ca11815;
    assert s[14] == Add(0x69b687c3, 0x00000000) == 0x69b687c3;
    assert s[15] == Add(0x8665eeb2, 0x00000000) == 0x8665eeb2;
  }

  lemma Mixed20Numbers0()
    ensures AsNumber(0xade0b876) == 0xade0b876 && AsNumber(0x903df1a0) == 0x903df1a0
    ensures AsNumber(0xe56a5d40) == 0xe56a5d40 && AsNumber(0x28bd8653) == 0x28bd8653
  {}

  lemma Mixed20Numbers1()
    ensures AsNumber(0xb819d2bd) == 0xb819d2bd && AsNumber(0x1aed8da0) == 0x1aed8da0
    ensures AsNumber(0xccef36a8) == 0xccef36a8 && AsNumber(0xc70d778b) == 0xc70d778b
  {}

  lemma Mixed20Numbers2()
    ensures AsNumber(0x7c5941da) == 0x7c5941da && AsNumber(0x8d485751) == 0x8d485751
    ensures AsNumber(0x3fe02477) == 0x3fe02477 && AsNumber(0x374ad8b8) == 0x374ad8b8
  {}

  lemma Mixed20Numbers3()
    ensures AsNumber(0xf4b8436a) == 0xf4b8436a && AsNumber(0x1ca11815) == 0x1ca11815
    ensures AsNumber(0x69b687c3) == 0x69b687c3 && AsNumber(0x8665eeb2) == 0x8665eeb2
  {}

  const MIXED20_NUMBERS: State :=
    [0xade0b876, 0x903df1a0, 0xe56a5d40, 0x28bd8653, 0xb819d2bd, 0x1aed8da0, 0xccef36a8, 0xc70d778b,
     0x7c5941da, 0x8d485751, 0x3fe02477, 0x374ad8b8, 0xf4b8436a, 0x1ca11815, 0x69b687c3, 0x8665eeb2]

  lemma Mixed20Longs()
    ensures Longs(MIXED20_NUMBERS)
         == [0x903df1a0ade0b876, 0x28bd8653e56a5d40, 0x1aed8da0b819d2bd, 0xc70d778bccef36a8,
             0x8d4857517c5941da, 0x374ad8b83fe02477, 0x1ca11815f4b8436a, 0x8665eeb269b687c3]
  {}

  lemma Mixed20Results()
    ensures Paired(AsNumber, END20)
         == [0x903df1a0ade0b876, 0x28bd8653e56a5d40, 0x1aed8da0b819d2bd, 0xc70d778bccef36a8,
             0x8d4857517c5941da, 0x374ad8b83fe02477, 0x1ca11815f4b8436a, 0x8665eeb269b687c3]
  {
    Mixed20Numbers0();
    Mixed20Numbers1();
    Mixed20Numbers2();
    Mixed20Numbers3();
    SameResults(AsNumber, END20, MIXED20_NUMBERS);
    Mixed20Longs();
  }

  lemma Ends20(d: Square -> Square)
    requires IsDoubleRound(d)
    ensures Mixed(d, 20, WORDS) == END20
  {
    WordsColumns();
    Rounds20(d);
    Sums20();
  }

  lemma Zero20(rounds: nat)
    requires rounds == 20
    ensures ChaChaBlock(rounds, STATE0)
         == [0x903df1a0ade0b876, 0x28bd8653e56a5d40, 0x1aed8da0b819d2bd, 0xc70d778bccef36a8,
             0x8d4857517c5941da, 0x374ad8b83fe02477, 0x1ca11815f4b8436a, 0x8665eeb269b687c3]
  {
    ZeroBits();
    Ends20(DOUBLE_ROUND);
    Mixed20Results();
    SameBlock(rounds, STATE0, WORDS, END20);
  }

  /** What the tests expect of chacha20 first. */
  lemma ChaCha20(key: Key, nonce: Nonce)
    requires IsZero(key) && IsZero(nonce)
    ensures ChaChaBlock(20, Layout(key, nonce, 0))
         == [0x903df1a0ade0b876, 0x28bd8653e56a5d40, 0x1aed8da0b819d2bd, 0xc70d778bccef36a8,
             0x8d4857517c5941da, 0x374ad8b83fe02477, 0x1ca11815f4b8436a, 0x8665eeb269b687c3]
  {
    ZeroState(key, nonce);
    Zero20(20);
  }
}
