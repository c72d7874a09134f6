/**
 * The wire formats as printers and parsers over byte strings (internal/codec/varint.go, wire.go): what each
 * read consumes, also when it fails, and that reading what was printed gives it back.
 */
module Wire {
  import opened Words
  import opened Varint

  // ---------- variable-length integers of both widths ----------

  function PrintVInt(v: int32): Bytes {
    Print(ToUint32(v))
  }

  function ParseVInt(s: Bytes): (p: Parsed<int32>)
    ensures |p.rest| <= |s|
  {
    var (u, rest) :- Parse(s, 5);
    Ok(ToInt32(u % TWO_32), rest)
  }

  function ParseVLong(s: Bytes): (p: Parsed<int64>)
    ensures |p.rest| <= |s|
  {
    var (u, rest) :- Parse(s, 9);
    Ok(ToInt64(u % TWO_64), rest)
  }

  lemma Powers()
    ensures Pow128(4) == 0x1000_0000 && Pow128(5) == 0x8_0000_0000
    ensures Pow128(9) == TWO_63 && Pow128(10) == 0x40_0000_0000_0000_0000
  {
    assert Pow128(1) == 0x80 && Pow128(2) == 0x4000 && Pow128(3) == 0x20_0000;
    assert Pow128(6) == 0x400_0000_0000 && Pow128(7) == 0x2_0000_0000_0000 && Pow128(8) == 0x100_0000_0000_0000;
  }

  /** Every int32 round-trips through at most five bytes. */
  lemma VIntRoundTrip(v: int32, tail: Bytes)
    ensures |PrintVInt(v)| <= 5
    ensures ParseVInt(PrintVInt(v) + tail) == Ok(v, tail)
  {
    Powers();
    PrintLength(ToUint32(v), 4);
    ParsePrint(ToUint32(v), 5, tail);
  }

  lemma SmallRemainder(u: nat)
    requires u < TWO_64
    ensures u % TWO_64 == u
  {
  }

  /** Exactly the non-negative int64 values fit the nine bytes of a VLong. */
  lemma VLongFits(v: int64)
    ensures |Print(ToUint64(v))| <= 9 <==> v >= 0
  {
    Powers();
    PrintLength(ToUint64(v), 8);
  }

  lemma VLongRoundTrip(v: int64, tail: Bytes)
    requires v >= 0
    ensures ParseVLong(Print(v) + tail) == Ok(v, tail)
  {
    VLongFits(v);
    ParsePrint(v, 9, tail);
    SmallRemainder(v);
  }

  function ZigZag(v: int32): (u: uint32) {
    if v >= 0 then 2 * v else -2 * v - 1
  }

  function UnZigZag(u: uint32): int32 {
    if u % 2 == 0 then u / 2 else -(u / 2) - 1
  }

  function PrintSignedVInt(v: int32): Bytes {
    PrintVInt(ToInt32(ZigZag(v)))
  }

  function ParseSignedVInt(s: Bytes): Parsed<int32> {
    var (v, rest) :- ParseVInt(s);
    Ok(UnZigZag(ToUint32(v)), rest)
  }

  lemma SignedVIntRoundTrip(v: int32, tail: Bytes)
    ensures ParseSignedVInt(PrintSignedVInt(v) + tail) == Ok(v, tail)
  {
    VIntRoundTrip(ToInt32(ZigZag(v)), tail);
  }

  // ---------- fixed-width integers, most significant byte first ----------

  function Pow256(n: nat): (p: nat)
    ensures p >= 1
  {
    if n == 0 then 1 else 0x100 * Pow256(n - 1)
  }

  function PrintFixed(u: nat, n: nat): (b: Bytes)
    ensures |b| == n
  {
    if n == 0 then [] else PrintFixed(u / 0x100, n - 1) + [u % 0x100]
  }

  function FixedValue(b: Bytes): (u: nat) {
    if b == [] then 0 else 0x100 * FixedValue(b[..|b| - 1]) + b[|b| - 1]
  }

  lemma {:induction false} FixedBound(b: Bytes)
    ensures FixedValue(b) < Pow256(|b|)
  {
    if b != [] {
      FixedBound(b[..|b| - 1]);
    }
  }

  lemma {:induction false} FixedInverse(u: nat, n: nat)
    requires u < Pow256(n)
    ensures FixedValue(PrintFixed(u, n)) == u
  {
    if n > 0 {
      FixedInverse(u / 0x100, n - 1);
      assert PrintFixed(u, n)[..n - 1] == PrintFixed(u / 0x100, n - 1);
    }
  }

  function ParseFixed(s: Bytes, n: nat): (p: Parsed<nat>)
    ensures |p.rest| <= |s|
  {
    if |s| < n then Fail(EndOfStream, []) else Ok(FixedValue(s[..n]), s[n..])
  }

  lemma FixedRoundTrip(u: nat, n: nat, tail: Bytes)
    requires u < Pow256(n)
    ensures ParseFixed(PrintFixed(u, n) + tail, n) == Ok(u, tail)
  {
    FixedInverse(u, n);
    var s := PrintFixed(u, n) + tail;
    assert s[..n] == PrintFixed(u, n) && s[n..] == tail;
  }

  lemma Widths()
    ensures Pow256(1) == 0x100 && Pow256(2) == 0x1_0000 && Pow256(4) == TWO_32 && Pow256(8) == TWO_64
  {
    assert Pow256(3) == 0x100_0000 && Pow256(5) == 0x100_0000_0000;
    assert Pow256(6) == 0x1_0000_0000_0000 && Pow256(7) == 0x100_0000_0000_0000;
  }

  function PrintLong(v: int64): Bytes {
    PrintFixed(ToUint64(v), 8)
  }

  function ParseLong(s: Bytes): (p: Parsed<int64>)
    ensures |p.rest| <= |s|
  {
    var (u, rest) :- ParseFixed(s, 8);
    Ok(ToInt64(u % TWO_64), rest)
  }

  function ParseU1(s: Bytes): (p: Parsed<byte>)
    ensures |p.rest| <= |s|
  {
    if s == [] then Fail(EndOfStream, []) else Ok(s[0], s[1..])
  }

  lemma LongRoundTrip(v: int64, tail: Bytes)
    ensures ParseLong(PrintLong(v) + tail) == Ok(v, tail)
  {
    Widths();
    FixedRoundTrip(ToUint64(v), 8, tail);
    SmallRemainder(ToUint64(v));
  }

  // ---------- length-prefixed bytes ----------

  /** A count or length is converted to int32 before it is written. */
  function PrintCount(n: nat): Bytes {
    PrintVInt(ToInt32(n % TWO_32))
  }

  lemma CountRoundTrip(n: nat, tail: Bytes)
    requires n < TWO_31
    ensures ParseVInt(PrintCount(n) + tail) == Ok(n, tail)
  {
    VIntRoundTrip(n, tail);
  }

  /** What a length prefix can express. */
  predicate Fits(b: Bytes) {
    |b| < TWO_31
  }

  function PrintLP(b: Bytes): Bytes {
    PrintCount(|b|) + b
  }

  /** A negative length makes the allocation panic, which ends the process. */
  function ParseLP(s: Bytes): (p: Parsed<Bytes>)
    ensures |p.rest| <= |s|
  {
    var (n, rest) :- ParseVInt(s);
    if n < 0 then Fail(NegativeLength, rest)
    else if n == 0 then Ok([], rest)
    else if |rest| < n then Fail(EndOfStream, [])
    else Ok(rest[..n], rest[n..])
  }

  lemma LPRoundTrip(b: Bytes, tail: Bytes)
    requires Fits(b)
    ensures ParseLP(PrintLP(b) + tail) == Ok(b, tail)
  {
    CountRoundTrip(|b|, b + tail);
    assert PrintLP(b) + tail == PrintCount(|b|) + (b + tail);
    assert (b + tail)[..|b|] == b && (b + tail)[|b|..] == tail;
  }

  lemma U1RoundTrip(b: byte, tail: Bytes)
    ensures ParseU1([b] + tail) == Ok(b, tail)
  {
    assert ([b] + tail)[1..] == tail;
  }

  lemma Join(a: Bytes, b: Bytes, tail: Bytes)
    ensures (a + b) + tail == a + (b + tail)
  {
  }

  lemma Chain(o: Bytes, a: Bytes, b: Bytes, c: Bytes, d: Bytes)
    ensures (((o + a) + b) + c) + d == o + (a + (b + (c + d)))
  {
  }

  // ---------- lists of items read one after another ----------

  /** Items already read, followed by what the rest of the list gives. */
  function Prepend<T>(xs: seq<T>, p: Parsed<seq<T>>): Parsed<seq<T>> {
    var (ys, rest) :- p;
    Ok(xs + ys, rest)
  }

  lemma PrependTwice<T>(xs: seq<T>, ys: seq<T>, p: Parsed<seq<T>>)
    ensures Prepend(xs, Prepend(ys, p)) == Prepend(xs + ys, p)
  {
    if p.Ok? {
      assert xs + (ys + p.value) == xs + ys + p.value;
    }
  }

  lemma PrependToNone<T>(p: Parsed<seq<T>>)
    ensures Prepend([], p) == p
  {
    if p.Ok? {
      assert [] + p.value == p.value;
    }
  }

  lemma PrependNothing<T>(xs: seq<T>, rest: Bytes)
    ensures Prepend(xs, Ok([], rest)) == Ok(xs, rest)
  {
    assert xs + [] == xs;
  }
}
