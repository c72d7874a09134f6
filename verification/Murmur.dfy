/**
 * MurmurHash3 x64, as the servers compute it (internal/hash/murmur3.go). Before the result is cut to 32 bits
 * nothing is lost: each step can be undone, so two keys that differ in one block end in different states.
 */
module Murmur {
  type Octets = seq<bv8>

  const DEFAULT_SEED: bv64 := 9001

  /** The running hash and the two multipliers, which every block changes too. */
  datatype Mixer = Mixer(h1: bv64, h2: bv64, c1: bv64, c2: bv64) {
    predicate Odd() {
      c1 & 1 == 1 && c2 & 1 == 1
    }
  }

  // Named operations on words: proofs about whole rounds treat them as black boxes.

  function Plus(x: bv64, y: bv64): bv64 {
    x + y
  }

  function Times(x: bv64, c: bv64): bv64 {
    x * c
  }

  function Xor(x: bv64, y: bv64): bv64 {
    x ^ y
  }

  function RotateLeft23(x: bv64): bv64 {
    (x << 23) | (x >> 41)
  }

  function RotateLeft41(x: bv64): bv64 {
    (x << 41) | (x >> 23)
  }

  /** h * 3 + k. */
  function Triple(h: bv64, k: bv64): bv64 {
    Plus(Times(h, 3), k)
  }

  /** The multipliers' own step. */
  function Quintuple(c: bv64, k: bv64): bv64 {
    c * 5 + k
  }

  /** Java's cast of a signed byte to long. */
  function SignExtend(b: bv8): bv64 {
    if b & 0x80 == 0 then b as bv64 else 0xFFFF_FFFF_FFFF_FF00 | (b as bv64)
  }

  function Scramble(k: bv64, c: bv64, d: bv64): bv64 {
    Times(RotateLeft23(Times(k, c)), d)
  }

  /** One half of a round: the scrambled word goes into h, and the other half's value a is added. */
  function Absorbed(h: bv64, s: bv64, a: bv64): bv64 {
    Plus(Xor(h, s), a)
  }

  function Bmix(m: Mixer, k1: bv64, k2: bv64): Mixer {
    var h1 := Absorbed(m.h1, Scramble(k1, m.c1, m.c2), m.h2);
    var h2 := Absorbed(RotateLeft41(m.h2), Scramble(k2, m.c2, m.c1), h1);
    Mixer(Triple(h1, 0x52dce729), Triple(h2, 0x38495ab5), Quintuple(m.c1, 0x7b7d159c), Quintuple(m.c2, 0x6bce6396))
  }

  function ShiftMix(k: bv64): bv64 {
    k ^ (k >> 33)
  }

  function Fmix(k: bv64): bv64 {
    ShiftMix(Times(ShiftMix(Times(ShiftMix(k), 0xff51afd7ed558ccd)), 0xc4ceb9fe1a85ec53))
  }

  // ---------- bytes to words ----------

  function Shift8(x: bv64): bv64 {
    x << 8
  }

  /** x << 8 * n. */
  function ShiftBytes(x: bv64, n: nat): bv64 {
    if n == 0 then x else Shift8(ShiftBytes(x, n - 1))
  }

  /** A whole word takes its bytes as they are; the tail sign-extends each over the ones above it. */
  function Lane(b: bv8, signed: bool): bv64 {
    if signed then SignExtend(b) else b as bv64
  }

  /** Bytes j and on, each in its place, combined from the last one down; unsigned ones do not overlap. */
  function PackFrom(b: Octets, signed: bool, j: nat): bv64
    decreases |b| - j
  {
    if j >= |b| then 0 else Xor(PackFrom(b, signed, j + 1), ShiftBytes(Lane(b[j], signed), j))
  }

  function LittleEndian(b: Octets): bv64 {
    PackFrom(b, false, 0)
  }

  function TailWord(b: Octets): bv64 {
    PackFrom(b, true, 0)
  }

  function Half(n: nat): nat {
    if n < 8 then n else 8
  }

  // ---------- the whole hash ----------

  function MixBlock(m: Mixer, key: Octets, i: nat): Mixer
    requires 16 * i + 16 <= |key|
  {
    Bmix(m, LittleEndian(key[16 * i..16 * i + 8]), LittleEndian(key[16 * i + 8..16 * i + 16]))
  }

  function Fold<S>(f: (S, nat) -> S, s: S, i: nat, n: nat): S
    decreases n - i
  {
    if i >= n then s else Fold(f, f(s, i), i + 1, n)
  }

  function BlockStep(key: Octets): (Mixer, nat) -> Mixer {
    (m: Mixer, i: nat) => if 16 * i + 16 <= |key| then MixBlock(m, key, i) else m
  }

  /** All full blocks of sixteen bytes. */
  function Blocks(m: Mixer, key: Octets): Mixer {
    Fold(BlockStep(key), m, 0, |key| / 16)
  }

  /** What is left after the blocks, if anything, is mixed like a block. */
  function Tail(m: Mixer, t: Octets): Mixer
    requires |t| < 16
  {
    if t == [] then m else Bmix(m, TailWord(t[..Half(|t|)]), TailWord(t[Half(|t|)..]))
  }

  function Absorb(m: Mixer, key: Octets): Mixer {
    Tail(Blocks(m, key), key[|key| / 16 * 16..])
  }

  function Start(seed: bv64): Mixer {
    Mixer(0x9368e53c2f6af274 ^ seed, 0x586dcd208f7cd3fd ^ seed, 0x87c37b91114253d5, 0x4cf5ad432745937f)
  }

  function LengthWord(n: nat): bv64 {
    (n % 0x1_0000_0000_0000_0000) as bv64
  }

  /** The last values of h1 and h2. */
  function Finish(m: Mixer, n: nat): (bv64, bv64) {
    var h2 := Xor(m.h2, LengthWord(n));
    var h1 := Plus(m.h1, h2);
    var f1, f2 := Fmix(h1), Fmix(Plus(h2, h1));
    (Plus(f1, f2), f2)
  }

  function FinalPair(key: Octets, seed: bv64): (bv64, bv64) {
    Finish(Absorb(Start(seed), key), |key|)
  }

  /** The top 32 bits of h1, as a signed number. */
  function Truncate(h1: bv64): (h: int)
    ensures -0x8000_0000 <= h < 0x8000_0000
  {
    var u := ((h1 >> 32) as bv32) as int;
    if u < 0x8000_0000 then u else u - 0x1_0000_0000
  }

  function HashOf(key: Octets, seed: bv64): (h: int)
    ensures -0x8000_0000 <= h < 0x8000_0000
  {
    Truncate(FinalPair(key, seed).0)
  }

  // ---------- the client's loop ----------

  /** The switch falls through from the last byte to the first. */
  method CombineTail(b: Octets) returns (k: bv64)
    requires |b| <= 8
    ensures k == TailWord(b)
  {
    k := 0;
    for j := |b| downto 0
      invariant k == PackFrom(b, true, j)
    {
      k := Xor(k, ShiftBytes(SignExtend(b[j]), j));
    }
  }

  method MixBlocks(start: Mixer, key: Octets) returns (m: Mixer)
    ensures m == Blocks(start, key)
  {
    m := start;
    for i := 0 to |key| / 16
      invariant Fold(BlockStep(key), m, i, |key| / 16) == Blocks(start, key)
    {
      m := MixBlock(m, key, i);
    }
  }

  method MixTail(m: Mixer, t: Octets) returns (n: Mixer)
    requires |t| < 16
    ensures n == Tail(m, t)
  {
    if t == [] {
      return m;
    }
    var k2 := CombineTail(t[Half(|t|)..]);
    var k1 := CombineTail(t[..Half(|t|)]);
    n := Bmix(m, k1, k2);
  }

  method Hash64(key: Octets, seed: bv64) returns (r: bv64)
    ensures r == FinalPair(key, seed).0
  {
    var m := MixBlocks(Start(seed), key);
    m := MixTail(m, key[|key| / 16 * 16..]);
    r := Finish(m, |key|).0;
  }

  method HashWithSeed(key: Octets, seed: bv64) returns (h: int)
    ensures h == HashOf(key, seed)
  {
    var h1 := Hash64(key, seed);
    h := Truncate(h1);
  }

  // ---------- single steps can be undone ----------

  lemma TimesIs(x: bv64, c: bv64)
    ensures Times(x, c) == x * c
  {
  }

  lemma SumTimes(y: bv64, z: bv64, c: bv64)
    ensures Times(y + z, c) == y * c + z * c
  {
  }

  lemma Distribute(y: bv64, z: bv64, c: bv64)
    ensures Times(Plus(y, z), c) == Plus(Times(y, c), Times(z, c))
  {
    SumTimes(y, z, c);
    TimesIs(y, c);
    TimesIs(z, c);
    assert Times(Plus(y, z), c) == y * c + z * c;
    assert Plus(Times(y, c), Times(z, c)) == y * c + z * c;
  }

  lemma ZeroProduct(z: bv64, c: bv64)
    requires c & 1 == 1 && Times(z, c) == 0
    ensures z == 0
  {
  }

  function Minus(x: bv64, y: bv64): bv64 {
    x - y
  }

  lemma Difference(x: bv64, y: bv64)
    ensures Plus(y, Minus(x, y)) == x
    ensures Minus(x, y) == 0 ==> x == y
  {
  }

  lemma NothingAdded(a: bv64, b: bv64)
    requires Plus(a, b) == a
    ensures b == 0
  {
  }

  /** Multiplying by an odd number loses nothing modulo 2^64. */
  lemma OddCancel(x: bv64, y: bv64, c: bv64)
    requires c & 1 == 1 && Times(x, c) == Times(y, c)
    ensures x == y
  {
    Difference(x, y);
    Distribute(y, Minus(x, y), c);
    NothingAdded(Times(y, c), Times(Minus(x, y), c));
    ZeroProduct(Minus(x, y), c);
  }

  lemma Rotate23Injective(x: bv64, y: bv64)
    requires RotateLeft23(x) == RotateLeft23(y)
    ensures x == y
  {
  }

  lemma Rotate41Injective(x: bv64, y: bv64)
    requires RotateLeft41(x) == RotateLeft41(y)
    ensures x == y
  {
  }

  lemma MinusUndoes(x: bv64, a: bv64)
    ensures Minus(x + a, a) == x
  {
  }

  lemma PlusInjective(x: bv64, y: bv64, a: bv64)
    requires Plus(x, a) == Plus(y, a)
    ensures x == y
  {
    MinusUndoes(x, a);
    MinusUndoes(y, a);
  }

  lemma XorCommutes(x: bv64, y: bv64)
    ensures Xor(x, y) == Xor(y, x)
  {
  }

  lemma XorUndoes(x: bv64, y: bv64)
    ensures Xor(x ^ y, y) == x
  {
  }

  lemma XorInjective(x: bv64, y: bv64, a: bv64)
    requires Xor(x, a) == Xor(y, a)
    ensures x == y
  {
    XorUndoes(x, a);
    XorUndoes(y, a);
  }

  lemma TripleInjective(x: bv64, y: bv64, k: bv64)
    requires Triple(x, k) == Triple(y, k)
    ensures x == y
  {
    PlusInjective(Times(x, 3), Times(y, 3), k);
    OddCancel(x, y, 3);
  }

  lemma ScrambleInjective(x: bv64, y: bv64, c: bv64, d: bv64)
    requires c & 1 == 1 && d & 1 == 1 && Scramble(x, c, d) == Scramble(y, c, d)
    ensures x == y
  {
    OddCancel(RotateLeft23(Times(x, c)), RotateLeft23(Times(y, c)), d);
    Rotate23Injective(Times(x, c), Times(y, c));
    OddCancel(x, y, c);
  }

  lemma QuintupleOdd(c: bv64, k: bv64)
    requires c & 1 == 1 && k & 1 == 0
    ensures Quintuple(c, k) & 1 == 1
  {
  }

  /** The multipliers stay odd through every block. */
  lemma BmixKeepsOdd(m: Mixer, k1: bv64, k2: bv64)
    requires m.Odd()
    ensures Bmix(m, k1, k2).Odd()
  {
    QuintupleOdd(m.c1, 0x7b7d159c);
    QuintupleOdd(m.c2, 0x6bce6396);
  }

  lemma AbsorbedInjective(h: bv64, g: bv64, s: bv64, t: bv64, a: bv64)
    requires Absorbed(h, s, a) == Absorbed(g, t, a)
    ensures h == g <==> s == t
  {
    PlusInjective(Xor(h, s), Xor(g, t), a);
    if h == g {
      XorCommutes(h, s);
      XorCommutes(h, t);
      XorInjective(s, t, h);
    } else if s == t {
      XorInjective(h, g, s);
    }
  }

  lemma BmixKeepsDifferences(m: Mixer, n: Mixer, k1: bv64, k2: bv64, l1: bv64, l2: bv64)
    requires Bmix(m, k1, k2) == Bmix(n, l1, l2)
    ensures Absorbed(m.h1, Scramble(k1, m.c1, m.c2), m.h2) == Absorbed(n.h1, Scramble(l1, n.c1, n.c2), n.h2)
    ensures RotateLeft41(m.h2) == RotateLeft41(n.h2) <==> Scramble(k2, m.c2, m.c1) == Scramble(l2, n.c2, n.c1)
  {
    var mid, mid' := Absorbed(m.h1, Scramble(k1, m.c1, m.c2), m.h2), Absorbed(n.h1, Scramble(l1, n.c1, n.c2), n.h2);
    TripleInjective(mid, mid', 0x52dce729);
    var s2, t2 := Scramble(k2, m.c2, m.c1), Scramble(l2, n.c2, n.c1);
    TripleInjective(Absorbed(RotateLeft41(m.h2), s2, mid), Absorbed(RotateLeft41(n.h2), t2, mid'), 0x38495ab5);
    AbsorbedInjective(RotateLeft41(m.h2), RotateLeft41(n.h2), s2, t2, mid);
  }

  /** Mixing is injective in the words it absorbs. */
  lemma BmixInjectiveInWords(m: Mixer, k1: bv64, k2: bv64, l1: bv64, l2: bv64)
    requires m.Odd() && Bmix(m, k1, k2) == Bmix(m, l1, l2)
    ensures (k1, k2) == (l1, l2)
  {
    BmixKeepsDifferences(m, m, k1, k2, l1, l2);
    AbsorbedInjective(m.h1, m.h1, Scramble(k1, m.c1, m.c2), Scramble(l1, m.c1, m.c2), m.h2);
    ScrambleInjective(k1, l1, m.c1, m.c2);
    ScrambleInjective(k2, l2, m.c2, m.c1);
  }

  /** Mixing is injective in the state it starts from. */
  lemma BmixInjectiveInState(m: Mixer, n: Mixer, k1: bv64, k2: bv64)
    requires m.c1 == n.c1 && m.c2 == n.c2 && Bmix(m, k1, k2) == Bmix(n, k1, k2)
    ensures m == n
  {
    BmixKeepsDifferences(m, n, k1, k2, k1, k2);
    Rotate41Injective(m.h2, n.h2);
    AbsorbedInjective(m.h1, n.h1, Scramble(k1, m.c1, m.c2), Scramble(k1, m.c1, m.c2), m.h2);
  }

  lemma ShiftMixTwice(k: bv64)
    ensures ShiftMix(k ^ (k >> 33)) == k
  {
  }

  lemma ShiftMixInjective(x: bv64, y: bv64)
    requires ShiftMix(x) == ShiftMix(y)
    ensures x == y
  {
    ShiftMixTwice(x);
    ShiftMixTwice(y);
  }

  lemma FmixInjective(x: bv64, y: bv64)
    requires Fmix(x) == Fmix(y)
    ensures x == y
  {
    var x1, y1 := Times(ShiftMix(x), 0xff51afd7ed558ccd), Times(ShiftMix(y), 0xff51afd7ed558ccd);
    ShiftMixInjective(Times(ShiftMix(x1), 0xc4ceb9fe1a85ec53), Times(ShiftMix(y1), 0xc4ceb9fe1a85ec53));
    OddCancel(ShiftMix(x1), ShiftMix(y1), 0xc4ceb9fe1a85ec53);
    ShiftMixInjective(x1, y1);
    OddCancel(ShiftMix(x), ShiftMix(y), 0xff51afd7ed558ccd);
    ShiftMixInjective(x, y);
  }

  function Unfmix(k: bv64): bv64 {
    ShiftMix(Times(ShiftMix(Times(ShiftMix(k), 0x9cb4b2f8129337db)), 0x4f74430c22a54005))
  }

  lemma FirstInverseRaw(x: bv64)
    ensures Times(x * 0x4f74430c22a54005, 0xff51afd7ed558ccd) == x
  {
  }

  lemma SecondInverseRaw(x: bv64)
    ensures Times(x * 0x9cb4b2f8129337db, 0xc4ceb9fe1a85ec53) == x
  {
  }

  lemma FmixInverses(x: bv64)
    ensures Times(Times(x, 0x4f74430c22a54005), 0xff51afd7ed558ccd) == x
    ensures Times(Times(x, 0x9cb4b2f8129337db), 0xc4ceb9fe1a85ec53) == x
  {
    FirstInverseRaw(x);
    SecondInverseRaw(x);
    TimesIs(x, 0x4f74430c22a54005);
    TimesIs(x, 0x9cb4b2f8129337db);
  }

  lemma ShiftMixInvolution(k: bv64)
    ensures ShiftMix(ShiftMix(k)) == k
  {
    ShiftMixTwice(k);
  }

  /** Every word is the finalisation of another one: with FmixInjective, a bijection. */
  lemma FmixOnto(k: bv64)
    ensures Fmix(Unfmix(k)) == k
  {
    var x := ShiftMix(k);
    var y := ShiftMix(Times(x, 0x9cb4b2f8129337db));
    ShiftMixInvolution(k);
    FmixInverses(x);
    ShiftMixInvolution(Times(x, 0x9cb4b2f8129337db));
    FmixInverses(y);
    ShiftMixInvolution(Times(y, 0x4f74430c22a54005));
  }

  // ---------- packing bytes into words loses nothing ----------

  lemma {:induction false} ShiftSum(x: bv64, m: nat, n: nat)
    ensures ShiftBytes(ShiftBytes(x, m), n) == ShiftBytes(x, m + n)
  {
    if n > 0 {
      ShiftSum(x, m, n - 1);
    }
  }

  lemma ShiftXorRaw(x: bv64, y: bv64)
    ensures Shift8(x ^ y) == (x << 8) ^ (y << 8)
  {
  }

  lemma ShiftXorOnce(x: bv64, y: bv64)
    ensures Shift8(Xor(x, y)) == Xor(Shift8(x), Shift8(y))
  {
    ShiftXorRaw(x, y);
  }

  lemma {:induction false} ShiftXor(x: bv64, y: bv64, n: nat)
    ensures ShiftBytes(Xor(x, y), n) == Xor(ShiftBytes(x, n), ShiftBytes(y, n))
  {
    if n > 0 {
      ShiftXor(x, y, n - 1);
      ShiftXorOnce(ShiftBytes(x, n - 1), ShiftBytes(y, n - 1));
    }
  }

  lemma {:induction false} ShiftZero(n: nat)
    ensures ShiftBytes(0, n) == 0
  {
    if n > 0 {
      ShiftZero(n - 1);
    }
  }

  lemma EightShifts(x: bv64)
    ensures Shift8(x << 8) == x << 16 && Shift8(x << 16) == x << 24 && Shift8(x << 24) == x << 32
    ensures Shift8(x << 32) == x << 40 && Shift8(x << 40) == x << 48 && Shift8(x << 48) == x << 56
    ensures Shift8(x << 56) == 0
  {
  }

  lemma SevenShifts(x: bv64)
    ensures ShiftBytes(x, 7) == x << 56 && ShiftBytes(x, 8) == 0
  {
    EightShifts(x);
    assert ShiftBytes(x, 1) == x << 8;
    assert ShiftBytes(x, 2) == x << 16;
    assert ShiftBytes(x, 3) == x << 24;
    assert ShiftBytes(x, 4) == x << 32;
    assert ShiftBytes(x, 5) == x << 40;
    assert ShiftBytes(x, 6) == x << 48;
  }

  lemma LaneByte(b: bv8, c: bv8, signed: bool)
    requires Lane(b, signed) << 56 == Lane(c, signed) << 56
    ensures b == c
  {
  }

  lemma XorZero(x: bv64)
    ensures Xor(0, x) == x
  {
  }

  lemma ShiftedAway(above: bv64, lane: bv64, n: nat)
    requires n > 0 && ShiftBytes(above, n - 1) == 0 && ShiftBytes(lane, n) == 0
    ensures ShiftBytes(Xor(above, lane), n) == 0
  {
    ShiftXor(above, lane, n);
    XorZero(0);
  }

  /** The bytes from j on reach no lower place. */
  lemma {:induction false} PackedPlaces(b: Octets, signed: bool, j: nat)
    requires j <= |b| <= 8
    ensures ShiftBytes(PackFrom(b, signed, j), 8 - j) == 0
    decreases 8 - j
  {
    if j == |b| {
      ShiftZero(8 - j);
    } else {
      PackedPlaces(b, signed, j + 1);
      LaneShifted(b[j], signed, j);
      ShiftedAway(PackFrom(b, signed, j + 1), ShiftBytes(Lane(b[j], signed), j), 8 - j);
    }
  }

  /** The lowest byte of what is packed from j on is byte j. */
  lemma LaneShifted(b: bv8, signed: bool, j: nat)
    requires j < 8
    ensures ShiftBytes(ShiftBytes(Lane(b, signed), j), 7 - j) == Lane(b, signed) << 56
    ensures ShiftBytes(ShiftBytes(Lane(b, signed), j), 8 - j) == 0
  {
    ShiftSum(Lane(b, signed), j, 7 - j);
    ShiftSum(Lane(b, signed), j, 8 - j);
    SevenShifts(Lane(b, signed));
  }

  /** The lowest byte of what is packed from j on is byte j. */
  lemma PackedLowest(b: Octets, signed: bool, j: nat)
    requires j < |b| <= 8
    ensures ShiftBytes(PackFrom(b, signed, j), 7 - j) == Lane(b[j], signed) << 56
  {
    var lane, above := ShiftBytes(Lane(b[j], signed), j), PackFrom(b, signed, j + 1);
    PackedPlaces(b, signed, j + 1);
    ShiftXor(above, lane, 7 - j);
    LaneShifted(b[j], signed, j);
    XorZero(ShiftBytes(lane, 7 - j));
  }

  lemma PackedHead(a: Octets, b: Octets, signed: bool, j: nat)
    requires j < |a| == |b| <= 8
    requires PackFrom(a, signed, j) == PackFrom(b, signed, j)
    ensures a[j] == b[j]
  {
    PackedLowest(a, signed, j);
    PackedLowest(b, signed, j);
    LaneByte(a[j], b[j], signed);
  }

  /** Sign-extended or not, the packed word determines its bytes. */
  lemma {:induction false} PackInjective(a: Octets, b: Octets, signed: bool, j: nat)
    requires j <= |a| == |b| <= 8
    requires PackFrom(a, signed, j) == PackFrom(b, signed, j)
    ensures a[j..] == b[j..]
    decreases |a| - j
  {
    if j < |a| {
      PackedHead(a, b, signed, j);
      XorInjective(PackFrom(a, signed, j + 1), PackFrom(b, signed, j + 1), ShiftBytes(Lane(a[j], signed), j));
      PackInjective(a, b, signed, j + 1);
      assert a[j..] == [a[j]] + a[j + 1..] && b[j..] == [b[j]] + b[j + 1..];
    }
  }

  lemma WordsDetermineBytes(a: Octets, b: Octets, signed: bool, half: nat)
    requires |a| == |b| && half <= 8 && half <= |a| <= half + 8
    requires PackFrom(a[..half], signed, 0) == PackFrom(b[..half], signed, 0)
    requires PackFrom(a[half..], signed, 0) == PackFrom(b[half..], signed, 0)
    ensures a == b
  {
    PackInjective(a[..half], b[..half], signed, 0);
    PackInjective(a[half..], b[half..], signed, 0);
    assert a == a[..half] + a[half..] && b == b[..half] + b[half..];
  }

  // ---------- no two keys that differ in one block meet ----------

  predicate SameMultipliers(m: Mixer, n: Mixer) {
    m.c1 == n.c1 && m.c2 == n.c2
  }

  /** Two states with the same multipliers and different hashes. */
  predicate Apart(m: Mixer, n: Mixer) {
    SameMultipliers(m, n) && m != n
  }

  lemma BmixKeepsApart(m: Mixer, n: Mixer, k1: bv64, k2: bv64)
    requires Apart(m, n)
    ensures Apart(Bmix(m, k1, k2), Bmix(n, k1, k2))
  {
    if Bmix(m, k1, k2) == Bmix(n, k1, k2) {
      BmixInjectiveInState(m, n, k1, k2);
    }
  }

  lemma WordsKeepApart(m: Mixer, k1: bv64, k2: bv64, l1: bv64, l2: bv64)
    requires m.Odd() && (k1, k2) != (l1, l2)
    ensures Apart(Bmix(m, k1, k2), Bmix(m, l1, l2))
  {
    if Bmix(m, k1, k2) == Bmix(m, l1, l2) {
      BmixInjectiveInWords(m, k1, k2, l1, l2);
    }
  }

  predicate SameOutside(a: Octets, b: Octets, i: nat) {
    && |a| == |b|
    && (forall p :: 0 <= p < |a| && !(16 * i <= p < 16 * i + 16) ==> a[p] == b[p])
  }

  lemma SameBlock(m: Mixer, n: Mixer, a: Octets, b: Octets, i: nat, j: nat)
    requires SameOutside(a, b, i) && j != i && 16 * j + 16 <= |a|
    ensures Apart(m, n) ==> Apart(MixBlock(m, a, j), MixBlock(n, b, j))
    ensures m == n ==> MixBlock(m, a, j) == MixBlock(n, b, j)
  {
    assert a[16 * j..16 * j + 8] == b[16 * j..16 * j + 8];
    assert a[16 * j + 8..16 * j + 16] == b[16 * j + 8..16 * j + 16];
    if Apart(m, n) {
      BmixKeepsApart(m, n, LittleEndian(a[16 * j..16 * j + 8]), LittleEndian(a[16 * j + 8..16 * j + 16]));
    }
  }

  lemma MixBlockKeepsOdd(m: Mixer, a: Octets, j: nat)
    requires m.Odd() && 16 * j + 16 <= |a|
    ensures MixBlock(m, a, j).Odd()
  {
    BmixKeepsOdd(m, LittleEndian(a[16 * j..16 * j + 8]), LittleEndian(a[16 * j + 8..16 * j + 16]));
  }

  lemma DifferentBlock(m: Mixer, a: Octets, b: Octets, i: nat)
    requires m.Odd() && SameOutside(a, b, i) && a != b && 16 * i + 16 <= |a|
    ensures Apart(MixBlock(m, a, i), MixBlock(m, b, i))
  {
    var s, t := a[16 * i..16 * i + 16], b[16 * i..16 * i + 16];
    assert s[..8] == a[16 * i..16 * i + 8] && s[8..] == a[16 * i + 8..16 * i + 16];
    assert t[..8] == b[16 * i..16 * i + 8] && t[8..] == b[16 * i + 8..16 * i + 16];
    if LittleEndian(s[..8]) == LittleEndian(t[..8]) && LittleEndian(s[8..]) == LittleEndian(t[8..]) {
      WordsDetermineBytes(s, t, false, 8);
      assert forall p :: 16 * i <= p < 16 * i + 16 ==> a[p] == s[p - 16 * i] && b[p] == t[p - 16 * i];
    }
    WordsKeepApart(m, LittleEndian(s[..8]), LittleEndian(s[8..]), LittleEndian(t[..8]), LittleEndian(t[8..]));
  }

  /** A relation that every step keeps holds at the end. */
  lemma {:induction false} FoldKeeps<S(!new)>(f: (S, nat) -> S, g: (S, nat) -> S, r: (S, S) -> bool, s: S, t: S,
                                              i: nat, n: nat)
    requires r(s, t)
    requires forall k: nat, x, y :: i <= k < n && r(x, y) ==> r(f(x, k), g(y, k))
    ensures r(Fold(f, s, i, n), Fold(g, t, i, n))
    decreases n - i
  {
    if i < n {
      FoldKeeps(f, g, r, f(s, i), g(t, i), i + 1, n);
    }
  }

  lemma {:induction false} FoldSplit<S>(f: (S, nat) -> S, s: S, i: nat, mid: nat, n: nat)
    requires i <= mid <= n
    ensures Fold(f, s, i, n) == Fold(f, Fold(f, s, i, mid), mid, n)
    decreases mid - i
  {
    if i < mid {
      FoldSplit(f, f(s, i), i + 1, mid, n);
    }
  }

  lemma EarlierBlocks(m: Mixer, a: Octets, b: Octets, i: nat, n: nat)
    requires m.Odd() && SameOutside(a, b, i) && n <= i
    ensures Fold(BlockStep(a), m, 0, n) == Fold(BlockStep(b), m, 0, n)
    ensures Fold(BlockStep(a), m, 0, n).Odd()
  {
    var same := (x: Mixer, y: Mixer) => x == y && x.Odd();
    forall k: nat, x, y | 0 <= k < n && same(x, y)
      ensures same(BlockStep(a)(x, k), BlockStep(b)(y, k))
    {
      if 16 * k + 16 <= |a| {
        SameBlock(x, y, a, b, i, k);
        MixBlockKeepsOdd(x, a, k);
      }
    }
    FoldKeeps(BlockStep(a), BlockStep(b), same, m, m, 0, n);
  }

  lemma LaterBlocks(m: Mixer, n: Mixer, a: Octets, b: Octets, i: nat, last: nat)
    requires Apart(m, n) && SameOutside(a, b, i)
    ensures Apart(Fold(BlockStep(a), m, i + 1, last), Fold(BlockStep(b), n, i + 1, last))
  {
    forall k: nat, x, y | i + 1 <= k < last && Apart(x, y)
      ensures Apart(BlockStep(a)(x, k), BlockStep(b)(y, k))
    {
      if 16 * k + 16 <= |a| {
        SameBlock(x, y, a, b, i, k);
      }
    }
    FoldKeeps(BlockStep(a), BlockStep(b), Apart, m, n, i + 1, last);
  }

  /** Equal before the block that differs, apart behind it. */
  lemma BlocksSeparate(m: Mixer, a: Octets, b: Octets, i: nat)
    requires m.Odd() && SameOutside(a, b, i) && a != b
    ensures 16 * i + 16 <= |a| ==> Apart(Blocks(m, a), Blocks(m, b))
    ensures |a| < 16 * i + 16 ==> Blocks(m, a) == Blocks(m, b) && Blocks(m, a).Odd()
  {
    var last := |a| / 16;
    if 16 * i + 16 <= |a| {
      var mid := Fold(BlockStep(a), m, 0, i);
      EarlierBlocks(m, a, b, i, i);
      FoldSplit(BlockStep(a), m, 0, i, last);
      FoldSplit(BlockStep(b), m, 0, i, last);
      DifferentBlock(mid, a, b, i);
      LaterBlocks(BlockStep(a)(mid, i), BlockStep(b)(mid, i), a, b, i, last);
    } else {
      EarlierBlocks(m, a, b, i, last);
    }
  }

  /** Within its block the second word comes after the first: h1 does not depend on the last eight bytes absorbed. */
  lemma SecondWordSparesH1(m: Mixer, a: Octets, b: Octets)
    requires m.Odd() && |a| == |b| >= 16
    requires var last := |a| / 16 * 16;
             forall p :: 0 <= p < |a| && !(last - 8 <= p < last) ==> a[p] == b[p]
    ensures Blocks(m, a).h1 == Blocks(m, b).h1
  {
    var i := |a| / 16 - 1;
    EarlierBlocks(m, a, b, i, i);
    FoldSplit(BlockStep(a), m, 0, i, i + 1);
    FoldSplit(BlockStep(b), m, 0, i, i + 1);
    var mid := Fold(BlockStep(a), m, 0, i);
    assert a[16 * i..16 * i + 8] == b[16 * i..16 * i + 8];
    FoldOne(BlockStep(a), mid, i);
    FoldOne(BlockStep(b), mid, i);
  }

  lemma FoldOne<S>(f: (S, nat) -> S, s: S, i: nat)
    ensures Fold(f, s, i, i + 1) == f(s, i)
  {
    assert Fold(f, f(s, i), i + 1, i + 1) == f(s, i);
  }

  lemma SameTailKeepsApart(m: Mixer, n: Mixer, t: Octets)
    requires Apart(m, n) && |t| < 16
    ensures Apart(Tail(m, t), Tail(n, t))
  {
    if t != [] {
      BmixKeepsApart(m, n, TailWord(t[..Half(|t|)]), TailWord(t[Half(|t|)..]));
    }
  }

  lemma DifferentTails(m: Mixer, s: Octets, t: Octets)
    requires m.Odd() && |s| == |t| < 16 && s != t
    ensures Apart(Tail(m, s), Tail(m, t))
  {
    var half := Half(|s|);
    if TailWord(s[..half]) == TailWord(t[..half]) && TailWord(s[half..]) == TailWord(t[half..]) {
      WordsDetermineBytes(s, t, true, half);
    }
    WordsKeepApart(m, TailWord(s[..half]), TailWord(s[half..]), TailWord(t[..half]), TailWord(t[half..]));
  }

  lemma FinishInjective(m: Mixer, n: Mixer, len: nat)
    requires Apart(m, n)
    ensures Finish(m, len) != Finish(n, len)
  {
    if Finish(m, len) == Finish(n, len) {
      var w := LengthWord(len);
      var x2, y2 := Xor(m.h2, w), Xor(n.h2, w);
      var x1, y1 := Plus(m.h1, x2), Plus(n.h1, y2);
      PlusInjective(Fmix(x1), Fmix(y1), Fmix(Plus(x2, x1)));
      FmixInjective(x1, y1);
      FmixInjective(Plus(x2, x1), Plus(y2, y1));
      PlusInjective(x2, y2, x1);
      XorInjective(m.h2, n.h2, w);
      PlusInjective(m.h1, n.h1, x2);
    }
  }

  lemma TailSlices(a: Octets, b: Octets, i: nat)
    requires SameOutside(a, b, i)
    ensures 16 * i + 16 <= |a| ==> a[|a| / 16 * 16..] == b[|b| / 16 * 16..]
    ensures |a| < 16 * i + 16 && a != b ==> a[|a| / 16 * 16..] != b[|b| / 16 * 16..]
  {
    var from := |a| / 16 * 16;
    if |a| < 16 * i + 16 && a != b {
      var p :| 0 <= p < |a| && a[p] != b[p];
      assert from <= p;
      assert a[from..][p - from] != b[from..][p - from];
    }
  }

  /**
   * Keys of one length that differ only within one aligned block of sixteen bytes, or only in the tail, end
   * with different (h1, h2): before the result is truncated the hash has lost nothing.
   */
  lemma OneBlockIsNeverLost(a: Octets, b: Octets, i: nat, seed: bv64)
    requires SameOutside(a, b, i) && a != b
    ensures FinalPair(a, seed) != FinalPair(b, seed)
  {
    var x, y := Blocks(Start(seed), a), Blocks(Start(seed), b);
    BlocksSeparate(Start(seed), a, b, i);
    TailSlices(a, b, i);
    var from := |a| / 16 * 16;
    if 16 * i + 16 <= |a| {
      SameTailKeepsApart(x, y, a[from..]);
    } else {
      DifferentTails(x, a[from..], b[from..]);
    }
    FinishInjective(Tail(x, a[from..]), Tail(y, b[from..]), |a|);
  }

  /** The empty key's hash, as the Java servers compute it. */
  lemma EmptyKey()
    ensures HashOf([], DEFAULT_SEED) == 89125410
  {
    assert Blocks(Start(DEFAULT_SEED), []) == Start(DEFAULT_SEED);
    assert LengthWord(0) == 0;
  }

  // ---------- a key whose hash is the least int32 ----------

  lemma ShortKey(m: Mixer, key: Octets)
    requires 0 < |key| < 8
    ensures Absorb(m, key) == Bmix(m, TailWord(key), 0)
  {
    assert key[..|key|] == key && key[|key|..] == [] && key[0..] == key;
  }

  lemma ShortKeyHash(key: Octets, seed: bv64, k1: bv64, m: Mixer, h1: bv64)
    requires 0 < |key| < 8 && TailWord(key) == k1 && Bmix(Start(seed), k1, 0) == m && Finish(m, |key|).0 == h1
    ensures HashOf(key, seed) == Truncate(h1)
  {
    ShortKey(Start(seed), key);
  }

  lemma UnluckyTail()
    ensures TailWord([0x96, 0x6B, 0xF8, 0x2F]) == 0x2f079496
  {
    var key: Octets := [0x96, 0x6B, 0xF8, 0x2F];
    assert PackFrom(key, true, 4) == 0;
    assert ShiftBytes(Lane(0x2F, true), 1) == 0x2F00 && ShiftBytes(Lane(0x2F, true), 2) == 0x2F_0000;
    assert PackFrom(key, true, 3) == 0x2F00_0000;
    assert ShiftBytes(Lane(0xF8, true), 1) == 0xFFFF_FFFF_FFFF_F800;
    assert PackFrom(key, true, 2) == 0xFFFF_FFFF_D0F8_0000;
    assert ShiftBytes(Lane(0x6B, true), 1) == 0x6B00;
    assert PackFrom(key, true, 1) == 0xFFFF_FFFF_D0F8_6B00;
  }

  lemma UnluckyMixed()
    ensures Bmix(Start(1847), 0x2f079496, 0)
            == Mixer(0x36a8894da7ef05f, 0xf06746a752ba2745, 0xa6d169d5d1c8b8c5, 0x80cc6250302a4511)
  {
  }

  lemma UnluckyFmix()
    ensures Fmix(0xf3d1cf3c2d3917a0) == 0x63e5a95e479dea1a && Fmix(0xe43915e37ff33ee1) == 0x1c1a56a246063f8e
  {
    assert ShiftMix(0xf3d1cf3c2d3917a0) == 0xf3d1cf3c54d1f03e;
    assert Times(0xf3d1cf3c54d1f03e, 0xff51afd7ed558ccd) == 0x2b0f9ce2e61549a6;
    assert ShiftMix(0x2b0f9ce2e61549a6) == 0x2b0f9ce2f39287d7;
    assert Times(0x2b0f9ce2f39287d7, 0xc4ceb9fe1a85ec53) == 0x63e5a95e766f3eb5;
    assert ShiftMix(0xe43915e37ff33ee1) == 0xe43915e30defb410;
    assert Times(0xe43915e30defb410, 0xff51afd7ed558ccd) == 0xeb70662ad8bbf0d0;
    assert ShiftMix(0xeb70662ad8bbf0d0) == 0xeb70662aad03c3c5;
    assert Times(0xeb70662aad03c3c5, 0xc4ceb9fe1a85ec53) == 0x1c1a56a2480b14df;
  }

  lemma FinishInSteps(m: Mixer, n: nat, h2: bv64, h1: bv64, h2': bv64)
    requires h2 == Xor(m.h2, LengthWord(n)) && h1 == Plus(m.h1, h2) && h2' == Plus(h2, h1)
    ensures Finish(m, n).0 == Plus(Fmix(h1), Fmix(h2'))
  {
  }

  lemma FourBytes()
    ensures LengthWord(4) == 4
  {
    var n := 4;
    assert n % 0x1_0000_0000_0000_0000 == n;
    assert n as bv64 == 4;
  }

  lemma UnluckyFinish(m: Mixer)
    requires m == Mixer(0x36a8894da7ef05f, 0xf06746a752ba2745, 0xa6d169d5d1c8b8c5, 0x80cc6250302a4511)
    ensures Finish(m, 4).0 == 0x800000008da429a8
  {
    FourBytes();
    UnluckyFmix();
    assert Xor(m.h2, 4) == 0xf06746a752ba2741;
    assert Plus(m.h1, 0xf06746a752ba2741) == 0xf3d1cf3c2d3917a0;
    assert Plus(0xf06746a752ba2741, 0xf3d1cf3c2d3917a0) == 0xe43915e37ff33ee1;
    FinishInSteps(m, 4, 0xf06746a752ba2741, 0xf3d1cf3c2d3917a0, 0xe43915e37ff33ee1);
    assert Plus(0x63e5a95e479dea1a, 0x1c1a56a246063f8e) == 0x800000008da429a8;
  }

  /** -2^31, which has no positive counterpart, is among the results. */
  lemma UnluckyKey(key: Octets, seed: bv64)
    requires key == [0x96, 0x6B, 0xF8, 0x2F] && seed == 1847
    ensures HashOf(key, seed) == -0x8000_0000
  {
    UnluckyTail();
    UnluckyMixed();
    var m := Mixer(0x36a8894da7ef05f, 0xf06746a752ba2745, 0xa6d169d5d1c8b8c5, 0x80cc6250302a4511);
    UnluckyFinish(m);
    ShortKeyHash(key, seed, 0x2f079496, m, 0x800000008da429a8);
  }
}
