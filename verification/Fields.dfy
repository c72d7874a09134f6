/**
 * What counts as a Protocol Buffers field for the scanner (internal/protostream/wrapped.go): the encodings as the
 * encoding document has them, whether or not their numbers are as short as they could be.
 */
module Fields {
  import opened Words
  import opened Varint
  import opened Wire
  import opened Protobuf

  /** The bytes are one varint of at most ten groups and nothing else. */
  predicate IsVarint(b: Bytes) {
    Parse(b, MAX_VARINT_LEN).Ok? && Parse(b, MAX_VARINT_LEN).rest == []
  }

  function VarintValue(b: Bytes): uint64
    requires IsVarint(b)
  {
    Parse(b, MAX_VARINT_LEN).value % TWO_64
  }

  /** A length in the first n bytes, and as many bytes behind it. */
  predicate DelimitedAt(b: Bytes, n: nat, f: Field) {
    n <= |b| && IsVarint(b[..n]) && VarintValue(b[..n]) == |b| - n && f.value == b[n..]
  }

  /** The encoding of a value of the wire type: 0, 1, 2 or 5, the groups of other types being errors. */
  ghost predicate EncodesValue(b: Bytes, f: Field) {
    || (f.wireType == 0 && IsVarint(b) && f.value == b)
    || (f.wireType == 1 && |b| == 8 && f.value == b)
    || (f.wireType == 5 && |b| == 4 && f.value == b)
    || (f.wireType == 2 && exists n: nat :: DelimitedAt(b, n, f))
  }

  /** A tag in the first n bytes, its low three bits being the wire type, and a value behind it. */
  ghost predicate EncodesFieldAt(b: Bytes, n: nat, f: Field) {
    && n <= |b| && IsVarint(b[..n])
    && f.number == VarintValue(b[..n]) / 8 && f.wireType == VarintValue(b[..n]) % 8 && EncodesValue(b[n..], f)
  }

  ghost predicate EncodesField(b: Bytes, f: Field) {
    exists n: nat :: EncodesFieldAt(b, n, f)
  }

  lemma {:induction false} ParsePrefix(s: Bytes, budget: nat)
    requires Parse(s, budget).Ok?
    ensures var rest := Parse(s, budget).rest;
            |rest| < |s| && Parse(Consumed(s, rest), budget) == Ok(Parse(s, budget).value, [])
  {
    ParseConsumes(s, budget);
    if s[0] >= 0x80 {
      ParsePrefix(s[1..], budget - 1);
      ParseConsumes(s[1..], budget - 1);
      var rest := Parse(s, budget).rest;
      assert Consumed(s, rest)[1..] == Consumed(s[1..], rest);
    }
  }

  /** Reading a varint at the head of a string is splitting one off. */
  lemma VarintSplit(s: Bytes, n: nat)
    requires n <= |s|
    ensures IsVarint(s[..n]) <==> Parse(s, MAX_VARINT_LEN).Ok? && |Parse(s, MAX_VARINT_LEN).rest| == |s| - n
    ensures IsVarint(s[..n]) ==> Parse(s, MAX_VARINT_LEN) == Ok(Parse(s[..n], MAX_VARINT_LEN).value, s[n..])
  {
    assert s == s[..n] + s[n..];
    if IsVarint(s[..n]) {
      ParseMore(s[..n], s[n..], MAX_VARINT_LEN);
      assert [] + s[n..] == s[n..];
    }
    if Parse(s, MAX_VARINT_LEN).Ok? {
      ParseConsumes(s, MAX_VARINT_LEN);
      ParsePrefix(s, MAX_VARINT_LEN);
    }
  }

  /** Where a value of n bytes is taken, those are its encoding. */
  lemma TakingIff(number: nat, wireType: nat, s: Bytes, n: nat, f: Field, rest: Bytes)
    ensures Taking(number, wireType, s, n) == Found(f, rest) <==>
            |s| == n + |rest| && s == s[..n] + rest && f == Field(number, wireType, s[..n])
  {
    if |s| >= n {
      assert s == s[..n] + s[n..];
    }
  }

  lemma DelimitedFound(number: nat, s: Bytes, at: nat, f: Field, rest: Bytes) returns (n: nat)
    requires |rest| <= |s| && ScanDelimited(number, s, at) == Found(f, rest)
    ensures s == Consumed(s, rest) + rest && f.number == number && f.wireType == 2
    ensures DelimitedAt(Consumed(s, rest), n, f) && at + |s| - |rest| < TWO_63
  {
    var b, p := Consumed(s, rest), Parse(s, MAX_VARINT_LEN);
    TakingIff(number, LENGTH_DELIMITED, p.rest, p.value % TWO_64, f, rest);
    n := |s| - |p.rest|;
    ParseConsumes(s, MAX_VARINT_LEN);
    VarintSplit(s, n);
    assert b[..n] == s[..n] && b[n..] == f.value;
  }

  lemma DelimitedScanned(number: nat, s: Bytes, at: nat, f: Field, b: Bytes, n: nat, rest: Bytes)
    requires s == b + rest && f.number == number && f.wireType == 2 && DelimitedAt(b, n, f) && at + |b| < TWO_63
    ensures ScanDelimited(number, s, at) == Found(f, rest)
  {
    assert s[..n] == b[..n] && s[n..] == b[n..] + rest;
    VarintSplit(s, n);
    TakingAll(number, LENGTH_DELIMITED, b[n..], rest);
  }

  lemma DelimitedIff(number: nat, s: Bytes, at: nat, f: Field, rest: Bytes)
    requires |rest| <= |s|
    ensures ScanDelimited(number, s, at) == Found(f, rest) <==>
            && s == Consumed(s, rest) + rest && f.number == number && f.wireType == 2
            && (exists n: nat :: DelimitedAt(Consumed(s, rest), n, f)) && at + |s| - |rest| < TWO_63
  {
    if ScanDelimited(number, s, at) == Found(f, rest) {
      var n := DelimitedFound(number, s, at, f, rest);
    }
    forall n: nat |
      s == Consumed(s, rest) + rest && f.number == number && f.wireType == 2 &&
      DelimitedAt(Consumed(s, rest), n, f) && at + |s| - |rest| < TWO_63
      ensures ScanDelimited(number, s, at) == Found(f, rest)
    {
      DelimitedScanned(number, s, at, f, Consumed(s, rest), n, rest);
    }
  }

  lemma VarintFieldIff(number: nat, s: Bytes, f: Field, rest: Bytes)
    requires |rest| <= |s|
    ensures ScanVarint(number, s) == Found(f, rest) <==>
            && s == Consumed(s, rest) + rest && f.number == number && f.wireType == 0
            && EncodesValue(Consumed(s, rest), f)
  {
    ParseConsumes(s, MAX_VARINT_LEN);
    VarintSplit(s, |s| - |rest|);
  }

  lemma ValueIff(number: nat, wireType: nat, s: Bytes, at: nat, f: Field, rest: Bytes)
    requires |rest| <= |s|
    ensures ScanValue(number, wireType, s, at) == Found(f, rest) <==>
            && s == Consumed(s, rest) + rest && f.number == number && f.wireType == wireType
            && EncodesValue(Consumed(s, rest), f) && (wireType == 2 ==> at + |s| - |rest| < TWO_63)
  {
    if wireType == VARINT {
      VarintFieldIff(number, s, f, rest);
    } else if wireType == LENGTH_DELIMITED {
      DelimitedIff(number, s, at, f, rest);
    } else {
      TakingIff(number, wireType, s, 8, f, rest);
      TakingIff(number, wireType, s, 4, f, rest);
    }
  }

  /** What is left after a field is no longer than what was left after its tag. */
  lemma ScanOneSuffix(s: Bytes, pos: nat, f: Field, rest: Bytes)
    requires ScanOne(s, pos) == Found(f, rest)
    ensures Parse(s, MAX_VARINT_LEN).Ok? && |rest| <= |Parse(s, MAX_VARINT_LEN).rest|
  {
  }

  lemma TagFound(s: Bytes, pos: nat, f: Field, rest: Bytes) returns (n: nat)
    requires |rest| <= |s| && ScanOne(s, pos) == Found(f, rest)
    ensures n <= |s| && |rest| <= |s| - n && IsVarint(s[..n])
    ensures ScanValue(VarintValue(s[..n]) / 8, VarintValue(s[..n]) % 8, s[n..], pos + n) == Found(f, rest)
  {
    ScanOneSuffix(s, pos, f, rest);
    n := |s| - |Parse(s, MAX_VARINT_LEN).rest|;
    VarintSplit(s, n);
  }

  lemma CutBoth(s: Bytes, n: nat, rest: Bytes)
    requires n <= |s| && |rest| <= |s| - n && s[n..] == Consumed(s[n..], rest) + rest
    ensures s == Consumed(s, rest) + rest && n <= |Consumed(s, rest)|
    ensures Consumed(s, rest)[..n] == s[..n] && Consumed(s, rest)[n..] == Consumed(s[n..], rest)
  {
    assert s == s[..n] + s[n..];
  }

  lemma FoundEncodes(s: Bytes, pos: nat, f: Field, rest: Bytes) returns (n: nat)
    requires |rest| <= |s| && ScanOne(s, pos) == Found(f, rest)
    ensures s == Consumed(s, rest) + rest && EncodesFieldAt(Consumed(s, rest), n, f)
    ensures f.wireType == 2 ==> pos + |s| - |rest| < TWO_63
  {
    n := TagFound(s, pos, f, rest);
    ValueIff(VarintValue(s[..n]) / 8, VarintValue(s[..n]) % 8, s[n..], pos + n, f, rest);
    CutBoth(s, n, rest);
  }

  lemma EncodedIsFound(s: Bytes, pos: nat, f: Field, b: Bytes, n: nat, rest: Bytes)
    requires s == b + rest && EncodesFieldAt(b, n, f) && (f.wireType == 2 ==> pos + |b| < TWO_63)
    ensures ScanOne(s, pos) == Found(f, rest)
  {
    assert s[..n] == b[..n] && s[n..] == b[n..] + rest;
    VarintSplit(s, n);
    ValueIff(f.number, f.wireType, s[n..], pos + n, f, rest);
    assert Consumed(s[n..], rest) == b[n..];
  }

  /**
   * The scanner finds a field exactly where the bytes up to the rest encode it, as long as the end of a
   * length-delimited one fits the client's int; groups and other wire types are never found.
   */
  lemma FoundIff(s: Bytes, pos: nat, f: Field, rest: Bytes)
    requires |rest| <= |s|
    ensures ScanOne(s, pos) == Found(f, rest) <==>
            && s == Consumed(s, rest) + rest && EncodesField(Consumed(s, rest), f)
            && (f.wireType == 2 ==> pos + |s| - |rest| < TWO_63)
  {
    if ScanOne(s, pos) == Found(f, rest) {
      var n := FoundEncodes(s, pos, f, rest);
    }
    forall n: nat |
      s == Consumed(s, rest) + rest && EncodesFieldAt(Consumed(s, rest), n, f) &&
      (f.wireType == 2 ==> pos + |s| - |rest| < TWO_63)
      ensures ScanOne(s, pos) == Found(f, rest)
    {
      EncodedIsFound(s, pos, f, Consumed(s, rest), n, rest);
    }
  }
}
