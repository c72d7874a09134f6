/**
 * The near cache's Bloom filter (internal/hash/bloom.go): a bit array in place, three hashes a key. The server
 * is sent the bytes without their trailing zeros.
 */
module Bloom {
  import opened Words
  import opened Murmur

  const SEEDS: seq<bv64> := [239, 1847, 2719]

  type Key = Octets

  // ---------- bits of a byte string ----------

  function Mask(j: nat): bv8
    requires j < 8
  {
    [1, 2, 4, 8, 16, 32, 64, 128][j]
  }

  /** Bits past the end are clear, as Java's BitSet has it. */
  predicate Bit(bits: Octets, i: nat) {
    i / 8 < |bits| && bits[i / 8] & Mask(i % 8) != 0
  }

  lemma MaskBits(b: bv8, i: nat, j: nat)
    requires i < 8 && j < 8
    ensures (b | Mask(j)) & Mask(i) != 0 <==> i == j || b & Mask(i) != 0
  {
    assert Mask(0) == 1 && Mask(1) == 2 && Mask(2) == 4 && Mask(3) == 8;
    assert Mask(4) == 16 && Mask(5) == 32 && Mask(6) == 64 && Mask(7) == 128;
  }

  /** A byte without bits is zero. */
  lemma ByteOfBits(b: bv8, c: bv8)
    requires forall i: nat :: i < 8 ==> (b & Mask(i) != 0 <==> c & Mask(i) != 0)
    ensures b == c
  {
    assert Mask(0) == 1 && Mask(1) == 2 && Mask(2) == 4 && Mask(3) == 8;
    assert Mask(4) == 16 && Mask(5) == 32 && Mask(6) == 64 && Mask(7) == 128;
    assert b & Mask(0) != 0 <==> c & Mask(0) != 0;
    assert b & Mask(1) != 0 <==> c & Mask(1) != 0;
    assert b & Mask(2) != 0 <==> c & Mask(2) != 0;
    assert b & Mask(3) != 0 <==> c & Mask(3) != 0;
    assert b & Mask(4) != 0 <==> c & Mask(4) != 0;
    assert b & Mask(5) != 0 <==> c & Mask(5) != 0;
    assert b & Mask(6) != 0 <==> c & Mask(6) != 0;
    assert b & Mask(7) != 0 <==> c & Mask(7) != 0;
  }

  // ---------- Go's arithmetic ----------

  /** Division and remainder that truncate towards zero. */
  function Quot(a: int, b: int): int
    requires b != 0
  {
    if a >= 0 then a / b else -(-a / b)
  }

  function Rem(a: int, b: int): int
    requires b != 0
  {
    if a >= 0 then a % b else -(-a % b)
  }

  /** h = -h on a negative int32: the least one stays as it is. */
  function Magnitude(h: int): int {
    if h < 0 && h != -TWO_31 then -h else h
  }

  // ---------- which bits a key sets ----------

  /** When setting the bit for this hash does not panic. */
  predicate Settable(n: int, h: int) {
    n > 0 && (h != -TWO_31 || TWO_31 % n == 0)
  }

  predicate CanAddFirst(n: int, key: Key, seeds: nat)
    requires seeds <= |SEEDS|
  {
    seeds == 0 || (CanAddFirst(n, key, seeds - 1) && Settable(n, HashOf(key, SEEDS[seeds - 1])))
  }

  predicate CanAdd(n: int, key: Key) {
    CanAddFirst(n, key, |SEEDS|)
  }

  function Position(n: int, h: int): nat {
    if n <= 0 || h == -TWO_31 then 0 else (if h < 0 then -h else h) % n
  }

  /** The bits of a key under the first few seeds. */
  function FirstPositions(n: int, key: Key, seeds: nat): set<nat>
    requires seeds <= |SEEDS|
  {
    if seeds == 0 then {}
    else FirstPositions(n, key, seeds - 1) + {Position(n, HashOf(key, SEEDS[seeds - 1]))}
  }

  function Positions(n: int, key: Key): set<nat> {
    FirstPositions(n, key, |SEEDS|)
  }

  /** All bits of some keys. */
  ghost predicate Wanted(n: int, keys: set<Key>, i: nat) {
    exists k :: k in keys && i in Positions(n, k)
  }

  ghost predicate Holds(bits: Octets, n: int, keys: set<Key>) {
    forall i: nat :: Bit(bits, i) <==> Wanted(n, keys, i)
  }

  /** What a server makes of the filter: a key whose bits are all set may be in the near cache. */
  predicate MayContain(bits: Octets, n: int, key: Key) {
    forall i | i in Positions(n, key) :: Bit(bits, i)
  }

  /** The byte and bit that Add addresses exist exactly when the hash is settable, and are those of its position. */
  lemma PlaceOfPosition(n: int, h: int)
    requires n != 0 && n >= -14 && -TWO_31 <= h < TWO_31
    ensures var bit := Rem(Magnitude(h), n);
            var at, place := Quot(bit, 8), Rem(bit, 8);
            && place < 8
            && (Settable(n, h) <==> 0 <= at < Quot(n + 7, 8) && place >= 0)
            && (Settable(n, h) ==> 8 * at + place == Position(n, h))
  {
  }

  lemma SettingOneBit(bits: Octets, at: nat, place: nat)
    requires at < |bits| && place < 8
    ensures forall i: nat :: Bit(bits[at := bits[at] | Mask(place)], i) <==> Bit(bits, i) || i == 8 * at + place
  {
    forall i: nat
      ensures Bit(bits[at := bits[at] | Mask(place)], i) <==> Bit(bits, i) || i == 8 * at + place
    {
      MaskBits(bits[at], i % 8, place);
    }
  }

  lemma {:induction false} CannotAdd(n: int, key: Key, seeds: nat)
    requires seeds < |SEEDS| && !Settable(n, HashOf(key, SEEDS[seeds]))
    ensures !CanAdd(n, key)
  {
    CanAddFewer(n, key, seeds + 1, |SEEDS|);
  }

  lemma {:induction false} CanAddFewer(n: int, key: Key, few: nat, seeds: nat)
    requires few <= seeds <= |SEEDS|
    ensures CanAddFirst(n, key, seeds) ==> CanAddFirst(n, key, few)
  {
    if few < seeds {
      CanAddFewer(n, key, few, seeds - 1);
    }
  }

  class BloomFilter {
    const bitsToUse: int
    var bits: array<bv8>

    ghost predicate Valid()
      reads this
    {
      bitsToUse >= -14 && bits.Length == Quot(bitsToUse + 7, 8)
    }

    /** Below -14 the number of bytes would be negative, and making the array panics. */
    constructor (bitsToUse: int)
      requires bitsToUse >= -14
      ensures Valid() && fresh(bits) && this.bitsToUse == bitsToUse
      ensures forall i: nat :: !Bit(bits[..], i)
    {
      this.bitsToUse := bitsToUse;
      bits := new bv8[Quot(bitsToUse + 7, 8)](_ => 0);
    }

    method SetBitFor(h: int) returns (ok: bool)
      requires Valid() && -TWO_31 <= h < TWO_31
      modifies bits
      ensures Valid()
      ensures ok <==> Settable(bitsToUse, h)
      ensures forall i: nat :: Bit(bits[..], i) <==> Bit(old(bits[..]), i) || (ok && i == Position(bitsToUse, h))
    {
      if bitsToUse == 0 {
        return false;
      }
      var bit := Rem(Magnitude(h), bitsToUse);
      var at, place := Quot(bit, 8), Rem(bit, 8);
      PlaceOfPosition(bitsToUse, h);
      if !(0 <= at < bits.Length) || place < 0 {
        return false;
      }
      SetBit(at, place);
      ok := true;
    }

    method SetBit(at: nat, place: nat)
      requires at < bits.Length && place < 8
      modifies bits
      ensures forall i: nat :: Bit(bits[..], i) <==> Bit(old(bits[..]), i) || i == 8 * at + place
    {
      SettingOneBit(bits[..], at, place);
      bits[at] := bits[at] | Mask(place);
      assert bits[..] == old(bits[..])[at := old(bits[..])[at] | Mask(place)];
    }

    /** A key that would divide by zero or address a negative bit panics. */
    method Add(key: Key) returns (ok: bool)
      requires Valid()
      modifies bits
      ensures Valid()
      ensures ok <==> CanAdd(bitsToUse, key)
      ensures ok ==> forall i: nat :: Bit(bits[..], i) <==> Bit(old(bits[..]), i) || i in Positions(bitsToUse, key)
    {
      for s := 0 to |SEEDS|
        invariant CanAddFirst(bitsToUse, key, s)
        invariant forall i: nat :: Bit(bits[..], i) <==> Bit(old(bits[..]), i) || i in FirstPositions(bitsToUse, key, s)
      {
        var h := HashWithSeed(key, SEEDS[s]);
        var done := SetBitFor(h);
        if !done {
          CannotAdd(bitsToUse, key, s);
          return false;
        }
      }
      ok := true;
    }

    method Clear()
      modifies bits
      ensures bits.Length == old(bits.Length)
      ensures forall i: nat :: !Bit(bits[..], i)
    {
      for i := 0 to bits.Length
        invariant forall j :: 0 <= j < i ==> bits[j] == 0
      {
        bits[i] := 0;
      }
    }

    /** Only zero bytes at the end are left out, so padding gives the array back. */
    method ToBitSet() returns (out: Octets)
      ensures out <= bits[..] && Trimmed(out)
      ensures forall j :: |out| <= j < bits.Length ==> bits[j] == 0
      ensures forall i: nat :: Bit(out, i) <==> Bit(bits[..], i)
    {
      var last := bits.Length - 1;
      while last >= 0 && bits[last] == 0
        invariant -1 <= last < bits.Length
        invariant forall j :: last < j < bits.Length ==> bits[j] == 0
      {
        last := last - 1;
      }
      if last < 0 {
        return [];
      }
      out := bits[..last + 1];
    }
  }

  predicate Trimmed(bits: Octets) {
    bits == [] || bits[|bits| - 1] != 0
  }

  /** A byte string without zeros at its end is determined by its bits. */
  lemma BitsDetermine(a: Octets, b: Octets)
    requires Trimmed(a) && Trimmed(b)
    requires forall i: nat :: Bit(a, i) <==> Bit(b, i)
    ensures a == b
  {
    NoShorter(a, b);
    NoShorter(b, a);
    forall j | 0 <= j < |a|
      ensures a[j] == b[j]
    {
      forall i: nat | i < 8
        ensures a[j] & Mask(i) != 0 <==> b[j] & Mask(i) != 0
      {
        assert Bit(a, 8 * j + i) <==> Bit(b, 8 * j + i);
      }
      ByteOfBits(a[j], b[j]);
    }
  }

  lemma NoShorter(a: Octets, b: Octets)
    requires Trimmed(a)
    requires forall i: nat :: Bit(a, i) ==> Bit(b, i)
    ensures |a| <= |b|
  {
    if a != [] {
      var j := |a| - 1;
      if forall i: nat :: i < 8 ==> a[j] & Mask(i) == 0 {
        ByteOfBits(a[j], 0);
      }
      var i: nat :| i < 8 && a[j] & Mask(i) != 0;
      assert Bit(a, 8 * j + i);
    }
  }

  ghost function KeysOf(keys: seq<Key>): set<Key> {
    set k | k in keys
  }

  ghost predicate AllCanAdd(n: int, keys: set<Key>) {
    forall k | k in keys :: CanAdd(n, k)
  }

  lemma KeysOfMore(n: int, keys: seq<Key>, i: nat)
    requires i < |keys|
    ensures KeysOf(keys[..i + 1]) == KeysOf(keys[..i]) + {keys[i]} && keys[i] in KeysOf(keys)
    ensures AllCanAdd(n, KeysOf(keys[..i])) ==> (AllCanAdd(n, KeysOf(keys[..i + 1])) <==> CanAdd(n, keys[i]))
  {
    assert keys[..i + 1] == keys[..i] + [keys[i]];
  }

  /** The filter that a near cache sends for the keys it holds. */
  method BuildFilter(bitsToUse: int, keys: seq<Key>) returns (ok: bool, out: Octets)
    requires bitsToUse >= -14
    ensures ok <==> AllCanAdd(bitsToUse, KeysOf(keys))
    ensures ok ==> Trimmed(out) && Holds(out, bitsToUse, KeysOf(keys))
  {
    var bf := new BloomFilter(bitsToUse);
    out := [];
    for i := 0 to |keys|
      invariant fresh(bf.bits) && bf.Valid() && bf.bitsToUse == bitsToUse
      invariant AllCanAdd(bitsToUse, KeysOf(keys[..i]))
      invariant Holds(bf.bits[..], bitsToUse, KeysOf(keys[..i]))
    {
      ghost var was := bf.bits[..];
      KeysOfMore(bitsToUse, keys, i);
      ok := bf.Add(keys[i]);
      if !ok {
        return;
      }
      HoldsOneMore(was, bf.bits[..], bitsToUse, KeysOf(keys[..i]), keys[i]);
    }
    assert keys[..|keys|] == keys;
    out := bf.ToBitSet();
    SameBits(out, bf.bits[..], bitsToUse, KeysOf(keys));
    ok := true;
  }

  lemma SameBits(out: Octets, bits: Octets, n: int, keys: set<Key>)
    requires forall i: nat :: Bit(out, i) <==> Bit(bits, i)
    ensures Holds(bits, n, keys) ==> Holds(out, n, keys)
  {
  }

  lemma HoldsOneMore(was: Octets, bits: Octets, n: int, keys: set<Key>, key: Key)
    requires Holds(was, n, keys)
    requires forall i: nat :: Bit(bits, i) <==> Bit(was, i) || i in Positions(n, key)
    ensures Holds(bits, n, keys + {key})
  {
    forall i: nat
      ensures Bit(bits, i) <==> Wanted(n, keys + {key}, i)
    {
    }
  }

  /** No key in the filter is ever missed. */
  lemma NoFalseNegatives(bits: Octets, n: int, keys: set<Key>, key: Key)
    requires Holds(bits, n, keys) && key in keys
    ensures MayContain(bits, n, key)
  {
    forall i | i in Positions(n, key)
      ensures Bit(bits, i)
    {
      assert Wanted(n, keys, i);
    }
  }

  /** The order of the adds, and repeated ones, make no difference to what is sent. */
  lemma FilterIsUnique(a: Octets, b: Octets, n: int, keys: set<Key>)
    requires Trimmed(a) && Trimmed(b) && Holds(a, n, keys) && Holds(b, n, keys)
    ensures a == b
  {
    forall i: nat
      ensures Bit(a, i) <==> Bit(b, i)
    {
    }
    BitsDetermine(a, b);
  }

  /** A divisor of 2^31 as its size lets the filter take every key. */
  lemma {:induction false} DivisorTakesAll(n: int, key: Key, seeds: nat)
    requires n > 0 && TWO_31 % n == 0 && seeds <= |SEEDS|
    ensures CanAddFirst(n, key, seeds)
  {
    if seeds > 0 {
      DivisorTakesAll(n, key, seeds - 1);
    }
  }

  /** No other size does: adding this key panics, as it would in a filter for a hundred entries (400 bits). */
  lemma UnluckyAdd(n: int, key: Key)
    requires n > 0 && TWO_31 % n != 0
    requires key == [0x96, 0x6B, 0xF8, 0x2F]
    ensures !CanAdd(n, key)
  {
    UnluckyKey(key, SEEDS[1]);
    CannotAdd(n, key, 1);
  }

  ghost predicate TakesEveryKey(n: int) {
    forall key: Key :: CanAdd(n, key)
  }

  /** Exactly the divisors of 2^31 are sizes at which no key panics. */
  lemma TakesEveryKeyIff(n: int)
    ensures TakesEveryKey(n) <==> n > 0 && TWO_31 % n == 0
  {
    if n <= 0 {
      CannotAdd(n, [], 0);
    } else if TWO_31 % n == 0 {
      forall key: Key
        ensures CanAdd(n, key)
      {
        DivisorTakesAll(n, key, |SEEDS|);
      }
    } else {
      UnluckyAdd(n, [0x96, 0x6B, 0xF8, 0x2F]);
    }
  }
}
