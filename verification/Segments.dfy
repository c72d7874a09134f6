/**
 * Routing a key to its owner (internal/hash/consistent_hash.go): the 31-bit hash space is cut into segments of
 * one size, and a table gives each segment's owners.
 */
module Segments {
  import opened Wrappers
  import opened Words
  import Murmur

  const HASH_SPACE: int := 0x8000_0000

  type Address = Bytes

  /** No server: what an owner index outside the server list leaves in the table. */
  const NOWHERE: Address := []

  // ---------- the size of a segment ----------

  function SegmentSize(n: int): (size: int)
    requires n >= 1
  {
    (HASH_SPACE + n - 1) / n
  }

  function Ceiling(q: real): int {
    -((-q).Floor)
  }

  /** q, a double, is 2^31 / n up to the rounding to nearest: exact if possible, else within one part in 2^53. */
  ghost predicate RoundedQuotient(n: int, q: real) {
    var error := (q * n as real - 2147483648.0) * 9007199254740992.0;
    -2147483648.0 <= error <= 2147483648.0 && (HASH_SPACE % n == 0 ==> error == 0.0)
  }

  lemma SizeBounds(n: int)
    requires n >= 1
    ensures (SegmentSize(n) - 1) * n < HASH_SPACE <= SegmentSize(n) * n
    ensures SegmentSize(n) * n == HASH_SPACE <==> HASH_SPACE % n == 0
  {
    var size := SegmentSize(n);
    if HASH_SPACE % n == 0 {
      assert HASH_SPACE == HASH_SPACE / n * n;
      Quotient(HASH_SPACE + n - 1, n, HASH_SPACE / n, n - 1);
    }
    if size * n == HASH_SPACE {
      Quotient(HASH_SPACE, n, size, 0);
    }
  }

  lemma Product(a: int, b: int)
    ensures a * b == b * a
    ensures a >= 0 && b >= 0 ==> a * b >= 0
  {
  }

  lemma Grows(a: int, b: int, n: int)
    requires n >= 1
    ensures a < b ==> a * n + n <= b * n
    ensures (a + 1) * n == a * n + n
  {
    assert (b - a - 1) * n == b * n - (a * n + n);
    if a < b {
      Product(b - a - 1, n);
    }
  }

  lemma Quotient(a: int, n: int, q: int, r: int)
    requires n >= 1 && a == q * n + r && 0 <= r < n
    ensures a / n == q && a % n == r
  {
    Division(a, n);
    Grows(a / n, q, n);
    Grows(q, a / n, n);
  }

  lemma Division(a: int, n: int)
    requires n >= 1
    ensures a == a / n * n + a % n && 0 <= a % n < n
  {
  }

  lemma RealProduct(a: int, b: int)
    ensures (a as real) * (b as real) == (a * b) as real
  {
  }

  lemma RealGrows(x: real, y: real, d: real)
    requires d > 0.0
    ensures x * d < y * d ==> x < y
    ensures x * d <= y * d ==> x <= y
  {
  }

  lemma Between(q: real, size: int, d: real)
    requires d > 0.0
    requires ((size - 1) as real) * d < q * d <= (size as real) * d
    ensures Ceiling(q) == size
  {
    RealGrows((size - 1) as real, q, d);
    RealGrows(q, size as real, d);
  }

  lemma NearHashSpace(low: int, high: int, p: real)
    requires low < HASH_SPACE <= high && 2147483647.0 < p < 2147483649.0
    requires high == HASH_SPACE ==> p == 2147483648.0
    ensures low as real < p <= high as real
  {
  }

  /** The client's rounded division and ceiling give the integer ceiling. */
  lemma FloatCeilingIsExact(n: int, q: real)
    requires n >= 1 && RoundedQuotient(n, q)
    ensures Ceiling(q) == SegmentSize(n)
  {
    var size := SegmentSize(n);
    SizeBounds(n);
    NearHashSpace((size - 1) * n, size * n, q * n as real);
    RealProduct(size, n);
    RealProduct(size - 1, n);
    Between(q, size, n as real);
  }

  // ---------- the segments cover the hash space ----------

  datatype ConsistentHash = ConsistentHash(owners: seq<seq<Address>>, numSegments: int, segmentSize: int)

  function NewConsistentHash(numSegments: int, owners: seq<seq<Address>>): ConsistentHash
    requires numSegments >= 1
  {
    ConsistentHash(owners, numSegments, SegmentSize(numSegments))
  }

  /** int(h) & MaxInt32. */
  function Normalized(h: int32): (x: int)
    ensures 0 <= x < HASH_SPACE
  {
    if h < 0 then h + HASH_SPACE else h
  }

  function SegmentOf(ch: ConsistentHash, x: int): int
    requires ch.segmentSize >= 1
  {
    var segment := x / ch.segmentSize;
    if segment >= ch.numSegments then ch.numSegments - 1 else segment
  }

  /** None where the client indexes a row that is not there. */
  function OwnerOfHash(ch: ConsistentHash, h: int32): Option<Address>
    requires ch.segmentSize >= 1
  {
    var segment := SegmentOf(ch, Normalized(h));
    if !(0 <= segment < |ch.owners|) then None
    else if ch.owners[segment] == [] then Some(NOWHERE)
    else Some(ch.owners[segment][0])
  }

  function PrimaryOwner(ch: ConsistentHash, key: Murmur.Octets): Option<Address>
    requires ch.segmentSize >= 1
  {
    OwnerOfHash(ch, Murmur.HashOf(key, Murmur.DEFAULT_SEED))
  }

  /** Where segment i starts, and where the one before it ends. */
  function Boundary(n: int, i: nat): (b: int)
    requires n >= 1
  {
    if i * SegmentSize(n) < HASH_SPACE then i * SegmentSize(n) else HASH_SPACE
  }

  lemma ClampNeverFires(n: int, x: int)
    requires n >= 1 && 0 <= x < HASH_SPACE
    ensures 0 <= x / SegmentSize(n) < n
  {
    SizeBounds(n);
    var size := SegmentSize(n);
    Division(x, size);
    Grows(n - 1, x / size, size);
    Product(size, n);
    assert (n - 1) * size + size == n * size;
  }

  /** The boundaries run from 0 to 2^31, and segment i is what lies between two of them. */
  lemma SegmentsPartition(n: int, owners: seq<seq<Address>>, i: nat, x: int)
    requires n >= 1 && 0 <= x < HASH_SPACE && i < n
    ensures SegmentOf(NewConsistentHash(n, owners), x) == i <==> Boundary(n, i) <= x < Boundary(n, i + 1)
    ensures Boundary(n, 0) == 0 && Boundary(n, n) == HASH_SPACE && Boundary(n, i) <= Boundary(n, i + 1)
  {
    var size := SegmentSize(n);
    SizeBounds(n);
    ClampNeverFires(n, x);
    Division(x, size);
    Grows(i, x / size, size);
    Grows(x / size, i, size);
  }

  /** What a hash is taken for: its low 31 bits, whatever its sign. */
  lemma NormalizedIsRemainder(h: int32)
    ensures Normalized(h) == h % HASH_SPACE && HASH_SPACE == 0x8000_0000
  {
  }

  lemma OwnerOfHashIs(n: int, owners: seq<seq<Address>>, h: int32, i: nat)
    requires n >= 1 && |owners| == n && i < n && Boundary(n, i) <= h % 0x8000_0000 < Boundary(n, i + 1)
    ensures OwnerOfHash(NewConsistentHash(n, owners), h) == Some(if owners[i] == [] then NOWHERE else owners[i][0])
  {
    NormalizedIsRemainder(h);
    SegmentsPartition(n, owners, i, Normalized(h));
  }

  /** So a key goes to the first server of the segment in which the low 31 bits of its hash h lie. */
  lemma PrimaryOwnerIs(n: int, owners: seq<seq<Address>>, key: Murmur.Octets, h: int32, i: nat)
    requires n >= 1 && |owners| == n && i < n
    requires h == Murmur.HashOf(key, 9001) && Boundary(n, i) <= h % 0x8000_0000 < Boundary(n, i + 1)
    ensures PrimaryOwner(NewConsistentHash(n, owners), key) ==
            Some(if owners[i] == [] then NOWHERE else owners[i][0])
  {
    OwnerOfHashIs(n, owners, h, i);
    assert Murmur.DEFAULT_SEED == 9001;
  }
}
