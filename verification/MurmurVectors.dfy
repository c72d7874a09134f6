/**
 * Reference values of the hash (internal/hash/murmur3_test.go), worked out step by step: keys with a full block, with
 * two, with a block and a tail, and with tails of one word and of two, sign-extended bytes included.
 */
module MurmurVectors {
  import opened Murmur

  lemma ShiftIs(x: bv64)
    ensures ShiftBytes(x, 0) == x && ShiftBytes(x, 1) == x << 8 && ShiftBytes(x, 2) == x << 16
    ensures ShiftBytes(x, 3) == x << 24 && ShiftBytes(x, 4) == x << 32 && ShiftBytes(x, 5) == x << 40
    ensures ShiftBytes(x, 6) == x << 48 && ShiftBytes(x, 7) == x << 56
  {
    EightShifts(x);
    assert ShiftBytes(x, 1) == x << 8;
    assert ShiftBytes(x, 2) == x << 16;
    assert ShiftBytes(x, 3) == x << 24;
    assert ShiftBytes(x, 4) == x << 32;
    assert ShiftBytes(x, 5) == x << 40;
    assert ShiftBytes(x, 6) == x << 48;
  }

  // ---------- words ----------

  /** "01234567" and "89abcdef". */
  const LOW: Octets := [0x30, 0x31, 0x32, 0x33, 0x34, 0x35, 0x36, 0x37]
  const HIGH: Octets := [0x38, 0x39, 0x61, 0x62, 0x63, 0x64, 0x65, 0x66]
  const SIXTEEN: Octets := LOW + HIGH

  /** "infinisp" and "an". */
  const INFINISP: Octets := [0x69, 0x6E, 0x66, 0x69, 0x6E, 0x69, 0x73, 0x70]
  const AN: Octets := [0x61, 0x6E]

  lemma LowWord()
    ensures LittleEndian(LOW) == 0x3736353433323130
  {
    var b := LOW;
    ShiftIs(0x30);
    ShiftIs(0x31);
    ShiftIs(0x32);
    ShiftIs(0x33);
    ShiftIs(0x34);
    ShiftIs(0x35);
    ShiftIs(0x36);
    ShiftIs(0x37);
    assert PackFrom(b, false, 8) == 0;
    assert PackFrom(b, false, 7) == 0x3700000000000000;
    assert PackFrom(b, false, 6) == 0x3736000000000000;
    assert PackFrom(b, false, 5) == 0x3736350000000000;
    assert PackFrom(b, false, 4) == 0x3736353400000000;
    assert PackFrom(b, false, 3) == 0x3736353433000000;
    assert PackFrom(b, false, 2) == 0x3736353433320000;
    assert PackFrom(b, false, 1) == 0x3736353433323100;
  }

  lemma HighWord()
    ensures LittleEndian(HIGH) == 0x6665646362613938
  {
    var b := HIGH;
    ShiftIs(0x38);
    ShiftIs(0x39);
    ShiftIs(0x61);
    ShiftIs(0x62);
    ShiftIs(0x63);
    ShiftIs(0x64);
    ShiftIs(0x65);
    ShiftIs(0x66);
    assert PackFrom(b, false, 8) == 0;
    assert PackFrom(b, false, 7) == 0x6600000000000000;
    assert PackFrom(b, false, 6) == 0x6665000000000000;
    assert PackFrom(b, false, 5) == 0x6665640000000000;
    assert PackFrom(b, false, 4) == 0x6665646300000000;
    assert PackFrom(b, false, 3) == 0x6665646362000000;
    assert PackFrom(b, false, 2) == 0x6665646362610000;
    assert PackFrom(b, false, 1) == 0x6665646362613900;
  }

  lemma InfinispWord()
    ensures TailWord(INFINISP) == 0x7073696e69666e69
  {
    var b := INFINISP;
    ShiftIs(0x69);
    ShiftIs(0x6e);
    ShiftIs(0x66);
    ShiftIs(0x73);
    ShiftIs(0x70);
    assert PackFrom(b, true, 8) == 0;
    assert PackFrom(b, true, 7) == 0x7000000000000000;
    assert PackFrom(b, true, 6) == 0x7073000000000000;
    assert PackFrom(b, true, 5) == 0x7073690000000000;
    assert PackFrom(b, true, 4) == 0x7073696e00000000;
    assert PackFrom(b, true, 3) == 0x7073696e69000000;
    assert PackFrom(b, true, 2) == 0x7073696e69660000;
    assert PackFrom(b, true, 1) == 0x7073696e69666e00;
  }

  lemma AnWord()
    ensures TailWord(AN) == 0x6e61
  {
    var b := AN;
    ShiftIs(0x61);
    ShiftIs(0x6e);
    assert PackFrom(b, true, 2) == 0;
    assert PackFrom(b, true, 1) == 0x6e00;
  }

  lemma LetterWord()
    ensures TailWord([0x67]) == 0x67
  {
    var b: Octets := [0x67];
    ShiftIs(0x67);
    assert PackFrom(b, true, 1) == 0;
  }

  lemma HelloWord()
    ensures TailWord([0x68, 0x65, 0x6C, 0x6C, 0x6F]) == 0x6f6c6c6568
  {
    var b: Octets := [0x68, 0x65, 0x6C, 0x6C, 0x6F];
    ShiftIs(0x68);
    ShiftIs(0x65);
    ShiftIs(0x6c);
    ShiftIs(0x6f);
    assert PackFrom(b, true, 5) == 0;
    assert PackFrom(b, true, 4) == 0x6f00000000;
    assert PackFrom(b, true, 3) == 0x6f6c000000;
    assert PackFrom(b, true, 2) == 0x6f6c6c0000;
    assert PackFrom(b, true, 1) == 0x6f6c6c6500;
  }

  lemma HighBytesWord()
    ensures TailWord([0x80, 0xFE, 0x7F, 0x01]) == 0x17f0180
  {
    var b: Octets := [0x80, 0xFE, 0x7F, 0x01];
    ShiftIs(0xffffffffffffff80);
    ShiftIs(0xfffffffffffffffe);
    ShiftIs(0x7f);
    ShiftIs(0x1);
    assert PackFrom(b, true, 4) == 0;
    assert PackFrom(b, true, 3) == 0x1000000;
    assert PackFrom(b, true, 2) == 0x17f0000;
    assert PackFrom(b, true, 1) == 0xfffffffffe80fe00;
  }

  // ---------- finishing ----------

  /** The last steps, given every value on the way. */
  lemma Finished(key: Octets, m: Mixer, n: bv64, h2: bv64, h1: bv64, g2: bv64, f1: bv64, f2: bv64)
    requires Absorb(Start(DEFAULT_SEED), key) == m && LengthWord(|key|) == n
    requires h2 == Xor(m.h2, n) && h1 == Plus(m.h1, h2) && g2 == Plus(h2, h1) && f1 == Fmix(h1) && f2 == Fmix(g2)
    ensures HashOf(key, DEFAULT_SEED) == Truncate(Plus(f1, f2))
  {
  }

  lemma Lengths()
    ensures LengthWord(4) == 4 && LengthWord(5) == 5 && LengthWord(10) == 10
    ensures LengthWord(16) == 16 && LengthWord(17) == 17 && LengthWord(32) == 32
  {
    assert forall n: nat :: n < 64 ==> n % 0x1_0000_0000_0000_0000 == n;
  }

  // ---------- keys ----------

  lemma FirstBlock()
    ensures Bmix(Start(DEFAULT_SEED), 0x3736353433323130, 0x6665646362613938)
            == Mixer(0xed27b2b8c2e489fe, 0xed7881fd11e5c126, 0xa6d169d5d1c8b8c5, 0x80cc6250302a4511)
  {
  }

  /** A block of SIXTEEN, wherever it stands. */
  lemma BlockOf(m: Mixer, key: Octets, i: nat)
    requires 16 * i + 16 <= |key| && key[16 * i..16 * i + 16] == SIXTEEN
    ensures MixBlock(m, key, i) == Bmix(m, 0x3736353433323130, 0x6665646362613938)
  {
    assert key[16 * i..16 * i + 8] == key[16 * i..16 * i + 16][..8] == LOW;
    assert key[16 * i + 8..16 * i + 16] == key[16 * i..16 * i + 16][8..] == HIGH;
    LowWord();
    HighWord();
  }

  lemma OneBlock(key: Octets)
    requires 16 <= |key| < 32 && key[..16] == SIXTEEN
    ensures Blocks(Start(DEFAULT_SEED), key)
            == Mixer(0xed27b2b8c2e489fe, 0xed7881fd11e5c126, 0xa6d169d5d1c8b8c5, 0x80cc6250302a4511)
  {
    var m := Start(DEFAULT_SEED);
    BlockOf(m, key, 0);
    FirstBlock();
    assert Fold(BlockStep(key), MixBlock(m, key, 0), 1, 1) == MixBlock(m, key, 0);
  }

  lemma SixteenAbsorbed()
    ensures Absorb(Start(DEFAULT_SEED), SIXTEEN)
            == Mixer(0xed27b2b8c2e489fe, 0xed7881fd11e5c126, 0xa6d169d5d1c8b8c5, 0x80cc6250302a4511)
  {
    OneBlock(SIXTEEN);
    assert SIXTEEN[16..] == [];
  }

  /** "0123456789abcdef". */
  lemma SixteenBytes()
    ensures HashOf(SIXTEEN, DEFAULT_SEED) == 26898387
  {
    var m := Mixer(0xed27b2b8c2e489fe, 0xed7881fd11e5c126, 0xa6d169d5d1c8b8c5, 0x80cc6250302a4511);
    SixteenAbsorbed();
    Lengths();
    assert Fmix(0xdaa034b5d4ca4b34) == 0xa0c9ed6de5a60c79;
    assert Fmix(0xc818b6b2e6b00c6a) == 0x60d082654663089b;
    Finished(SIXTEEN, m, 16, 0xed7881fd11e5c136, 0xdaa034b5d4ca4b34, 0xc818b6b2e6b00c6a,
             0xa0c9ed6de5a60c79, 0x60d082654663089b);
    assert Plus(0xa0c9ed6de5a60c79, 0x60d082654663089b) == 0x19a6fd32c091514;
  }

  lemma SecondBlock(m: Mixer)
    requires m == Mixer(0xed27b2b8c2e489fe, 0xed7881fd11e5c126, 0xa6d169d5d1c8b8c5, 0x80cc6250302a4511)
    ensures Bmix(m, 0x3736353433323130, 0x6665646362613938)
            == Mixer(0x94cdac4aec555d63, 0xe1590bfc21d602da, 0x4217112d9468b175, 0x83fdeb915ca1bceb)
  {
  }

  lemma ThirtytwoAbsorbed(key: Octets, m1: Mixer, m: Mixer)
    requires key == SIXTEEN + SIXTEEN
    requires m1 == MixBlock(Start(DEFAULT_SEED), key, 0) && m == MixBlock(m1, key, 1)
    ensures Absorb(Start(DEFAULT_SEED), key) == m
  {
    assert Fold(BlockStep(key), m, 2, 2) == m;
    assert Fold(BlockStep(key), m1, 1, 2) == m;
    assert key[32..] == [];
  }

  /** The same twice. */
  lemma ThirtytwoBytes(key: Octets)
    requires key == SIXTEEN + SIXTEEN
    ensures HashOf(key, DEFAULT_SEED) == 1705745350
  {
    var m1 := Mixer(0xed27b2b8c2e489fe, 0xed7881fd11e5c126, 0xa6d169d5d1c8b8c5, 0x80cc6250302a4511);
    var m := Mixer(0x94cdac4aec555d63, 0xe1590bfc21d602da, 0x4217112d9468b175, 0x83fdeb915ca1bceb);
    BlockOf(Start(DEFAULT_SEED), key, 0);
    FirstBlock();
    BlockOf(m1, key, 1);
    SecondBlock(m1);
    ThirtytwoAbsorbed(key, m1, m);
    Lengths();
    assert Fmix(0x7626b8470e2b605d) == 0xaebff66ad14f587e;
    assert Fmix(0x577fc44330016357) == 0xb6eba55bf2b9878e;
    Finished(key, m, 32, 0xe1590bfc21d602fa, 0x7626b8470e2b605d, 0x577fc44330016357,
             0xaebff66ad14f587e, 0xb6eba55bf2b9878e);
    assert Plus(0xaebff66ad14f587e, 0xb6eba55bf2b9878e) == 0x65ab9bc6c408e00c;
  }

  lemma SeventeenthByte(m: Mixer)
    requires m == Mixer(0xed27b2b8c2e489fe, 0xed7881fd11e5c126, 0xa6d169d5d1c8b8c5, 0x80cc6250302a4511)
    ensures Bmix(m, 0x67, 0)
            == Mixer(0x56bfc096716b6e57, 0xb946aa2729e3d04c, 0x4217112d9468b175, 0x83fdeb915ca1bceb)
  {
  }

  lemma OneByteTail(m: Mixer, t: Octets)
    requires |t| == 1
    ensures Tail(m, t) == Bmix(m, TailWord(t), 0)
  {
    assert t[..1] == t && t[1..] == [];
  }

  lemma SeventeenAbsorbed(key: Octets, m1: Mixer, tail: Octets)
    requires |key| == 17 && key[16..] == tail && Blocks(Start(DEFAULT_SEED), key) == m1
    ensures Absorb(Start(DEFAULT_SEED), key) == Bmix(m1, TailWord(tail), 0)
  {
    OneByteTail(m1, tail);
  }

  /** A block and a tail of one byte, "g". */
  lemma SeventeenBytes(key: Octets)
    requires key == SIXTEEN + [0x67]
    ensures HashOf(key, DEFAULT_SEED) == -1536414354
  {
    var m1 := Mixer(0xed27b2b8c2e489fe, 0xed7881fd11e5c126, 0xa6d169d5d1c8b8c5, 0x80cc6250302a4511);
    var m := Mixer(0x56bfc096716b6e57, 0xb946aa2729e3d04c, 0x4217112d9468b175, 0x83fdeb915ca1bceb);
    OneBlock(key);
    SeventeenthByte(m1);
    LetterWord();
    SeventeenAbsorbed(key, m1, [0x67]);
    Lengths();
    assert Fmix(0x10066abd9b4f3eb4) == 0xe418b20e295fb912;
    assert Fmix(0xc94d14e4c5330f11) == 0xc0537b60d0b6845e;
    Finished(key, m, 17, 0xb946aa2729e3d05d, 0x10066abd9b4f3eb4, 0xc94d14e4c5330f11,
             0xe418b20e295fb912, 0xc0537b60d0b6845e);
    assert Plus(0xe418b20e295fb912, 0xc0537b60d0b6845e) == 0xa46c2d6efa163d70;
  }

  lemma TailOfTwoWords()
    ensures Bmix(Start(DEFAULT_SEED), 0x7073696e69666e69, 0x6e61)
            == Mixer(0xb7dda693318281ff, 0x7a1ae90f441a0e25, 0xa6d169d5d1c8b8c5, 0x80cc6250302a4511)
  {
  }

  /** A tail of more than eight bytes fills one word and begins the next. */
  lemma TenBytesAbsorbed(m: Mixer, key: Octets)
    requires |key| == 10
    ensures Absorb(m, key) == Bmix(m, TailWord(key[..8]), TailWord(key[8..]))
  {
    assert Blocks(m, key) == m && key[0..] == key;
  }

  lemma InfinispanAbsorbed(key: Octets)
    requires key == INFINISP + AN
    ensures Absorb(Start(DEFAULT_SEED), key)
            == Mixer(0xb7dda693318281ff, 0x7a1ae90f441a0e25, 0xa6d169d5d1c8b8c5, 0x80cc6250302a4511)
  {
    InfinispWord();
    AnWord();
    TailOfTwoWords();
    TenBytesAbsorbed(Start(DEFAULT_SEED), key);
    assert key[..8] == INFINISP && key[8..] == AN;
  }

  /** "infinispan". */
  lemma Infinispan(key: Octets)
    requires key == INFINISP + AN
    ensures HashOf(key, DEFAULT_SEED) == -2031786003
  {
    var m := Mixer(0xb7dda693318281ff, 0x7a1ae90f441a0e25, 0xa6d169d5d1c8b8c5, 0x80cc6250302a4511);
    InfinispanAbsorbed(key);
    Lengths();
    assert Fmix(0x31f88fa2759c902e) == 0x247a9a8d9d13b314;
    assert Fmix(0xac1378b1b9b69e5d) == 0x626acd6014117543;
    Finished(key, m, 10, 0x7a1ae90f441a0e2f, 0x31f88fa2759c902e, 0xac1378b1b9b69e5d,
             0x247a9a8d9d13b314, 0x626acd6014117543);
    assert Plus(0x247a9a8d9d13b314, 0x626acd6014117543) == 0x86e567edb1252857;
  }

  lemma HighBytesMixed()
    ensures Bmix(Start(DEFAULT_SEED), 0x17f0180, 0)
            == Mixer(0x87fed54c89e83547, 0x75a3cf5f02236c2d, 0xa6d169d5d1c8b8c5, 0x80cc6250302a4511)
  {
  }

  /** Bytes of which the sign is extended. */
  lemma HighBytes(key: Octets)
    requires key == [0x80, 0xFE, 0x7F, 0x01]
    ensures HashOf(key, DEFAULT_SEED) == -99048400
  {
    var m := Mixer(0x87fed54c89e83547, 0x75a3cf5f02236c2d, 0xa6d169d5d1c8b8c5, 0x80cc6250302a4511);
    HighBytesWord();
    HighBytesMixed();
    ShortKey(Start(DEFAULT_SEED), key);
    Lengths();
    assert Fmix(0xfda2a4ab8c0ba170) == 0x335cfdbbd4ca365e;
    assert Fmix(0x7346740a8e2f0d99) == 0xc6bba6745a4249ed;
    Finished(key, m, 4, 0x75a3cf5f02236c29, 0xfda2a4ab8c0ba170, 0x7346740a8e2f0d99,
             0x335cfdbbd4ca365e, 0xc6bba6745a4249ed);
    assert Plus(0x335cfdbbd4ca365e, 0xc6bba6745a4249ed) == 0xfa18a4302f0c804b;
  }

  lemma HelloMixed()
    ensures Bmix(Start(DEFAULT_SEED), 0x6f6c6c6568, 0)
            == Mixer(0xd3dc5d334b1aae17, 0xc1815745c355e4fd, 0xa6d169d5d1c8b8c5, 0x80cc6250302a4511)
  {
  }

  /** "hello". */
  lemma Hello(key: Octets)
    requires key == [0x68, 0x65, 0x6C, 0x6C, 0x6F]
    ensures HashOf(key, DEFAULT_SEED) == 1671093224
  {
    var m := Mixer(0xd3dc5d334b1aae17, 0xc1815745c355e4fd, 0xa6d169d5d1c8b8c5, 0x80cc6250302a4511);
    HelloWord();
    HelloMixed();
    ShortKey(Start(DEFAULT_SEED), key);
    Lengths();
    assert Fmix(0x955db4790e70930f) == 0x447653e773f99be0;
    assert Fmix(0x56df0bbed1c67807) == 0x1f24880179ad4b22;
    Finished(key, m, 5, 0xc1815745c355e4f8, 0x955db4790e70930f, 0x56df0bbed1c67807,
             0x447653e773f99be0, 0x1f24880179ad4b22);
    assert Plus(0x447653e773f99be0, 0x1f24880179ad4b22) == 0x639adbe8eda6e702;
  }
}
