/**
 * Protocol Buffers fields (internal/protostream/wrapped.go): the scanner, and the printer it undoes. The
 * encoding is that of "Base 128 Varints" and "Message Structure" in the Protocol Buffers Encoding document.
 */
module Protobuf {
  import opened Words
  import opened Varint
  import opened Wire

  const VARINT: nat := 0
  const FIXED64: nat := 1
  const LENGTH_DELIMITED: nat := 2
  const FIXED32: nat := 5

  const MAX_VARINT_LEN: nat := 10

  datatype Field = Field(number: nat, wireType: nat, value: Bytes)

  /** How a scan ends: at the end of the data, with an error, or with a slice index out of range. */
  datatype End = Done | Malformed | Panic

  /** The fields given to the callback, in order, and how the scan goes on if the callback never fails. */
  datatype Scanned = Scanned(fields: seq<Field>, end: End)

  /** What one turn of the scanner's loop finds. */
  datatype Step = Found(field: Field, rest: Bytes) | Bad | OutOfRange

  // ---------- scanning ----------

  function Consumed(s: Bytes, rest: Bytes): Bytes
    requires |rest| <= |s|
  {
    s[..|s| - |rest|]
  }

  function Taking(number: nat, wireType: nat, s: Bytes, n: nat): Step {
    if |s| < n then Bad else Found(Field(number, wireType, s[..n]), s[n..])
  }

  /** The end of the field does not fit the client's int; wrapped around, it passes the bounds check. */
  predicate LengthOverflows(length: nat, at: nat) {
    at + length >= TWO_63
  }

  function ScanVarint(number: nat, s: Bytes): Step {
    match Parse(s, MAX_VARINT_LEN)
    case Ok(_, rest) => Found(Field(number, VARINT, Consumed(s, rest)), rest)
    case Fail(_, _) => Bad
  }

  function ScanDelimited(number: nat, s: Bytes, at: nat): Step {
    match Parse(s, MAX_VARINT_LEN)
    case Fail(_, _) => Bad
    case Ok(n, rest) =>
      if LengthOverflows(n % TWO_64, at + |s| - |rest|) then OutOfRange
      else Taking(number, LENGTH_DELIMITED, rest, n % TWO_64)
  }

  /** The value of a field, which starts at `at`. */
  function ScanValue(number: nat, wireType: nat, s: Bytes, at: nat): Step {
    if wireType == VARINT then ScanVarint(number, s)
    else if wireType == FIXED64 then Taking(number, wireType, s, 8)
    else if wireType == LENGTH_DELIMITED then ScanDelimited(number, s, at)
    else if wireType == FIXED32 then Taking(number, wireType, s, 4)
    else Bad
  }

  /** The field that starts at `pos`. */
  function ScanOne(s: Bytes, pos: nat): Step {
    match Parse(s, MAX_VARINT_LEN)
    case Fail(_, _) => Bad
    case Ok(tag, rest) => ScanValue(tag % TWO_64 / 8, tag % TWO_64 % 8, rest, pos + |s| - |rest|)
  }

  lemma {:induction false} ParseConsumes(s: Bytes, budget: nat)
    ensures Parse(s, budget).Ok? ==> |Parse(s, budget).rest| < |s|
    ensures Parse(s, budget).Ok? ==> s == Consumed(s, Parse(s, budget).rest) + Parse(s, budget).rest
  {
    if budget > 0 && s != [] && s[0] >= 0x80 {
      ParseConsumes(s[1..], budget - 1);
    }
  }

  function Before(fields: seq<Field>, r: Scanned): Scanned {
    r.(fields := fields + r.fields)
  }

  /** One step after another until the data ends or a step fails; every step takes some bytes. */
  function Repeat(step: (Bytes, nat) -> Step, s: Bytes, pos: nat): Scanned
    decreases |s|
  {
    if s == [] then Scanned([], Done)
    else
      match step(s, pos)
      case Found(f, rest) =>
        if |rest| < |s| then Before([f], Repeat(step, rest, pos + |s| - |rest|)) else Scanned([f], Malformed)
      case Bad => Scanned([], Malformed)
      case OutOfRange => Scanned([], Panic)
  }

  function Scan(s: Bytes, pos: nat): Scanned {
    Repeat(ScanOne, s, pos)
  }

  // ---------- printing ----------

  predicate WellFormed(f: Field) {
    && f.number < 0x2000_0000_0000_0000
    && (|| (f.wireType == VARINT && exists v: uint64 :: f.value == Print(v))
        || (f.wireType == FIXED64 && |f.value| == 8)
        || (f.wireType == LENGTH_DELIMITED && |f.value| < TWO_63)
        || (f.wireType == FIXED32 && |f.value| == 4))
  }

  function PrintTag(number: nat, wireType: nat): Bytes {
    Print(number * 8 + wireType)
  }

  function PrintValue(f: Field): Bytes {
    if f.wireType == LENGTH_DELIMITED then Print(|f.value|) + f.value else f.value
  }

  function PrintField(f: Field): Bytes {
    PrintTag(f.number, f.wireType) + PrintValue(f)
  }

  /** Ten bytes are enough for a uint64. */
  lemma UvarintRoundTrip(v: uint64, tail: Bytes)
    ensures |Print(v)| <= MAX_VARINT_LEN
    ensures Parse(Print(v) + tail, MAX_VARINT_LEN) == Ok(v, tail)
  {
    Powers();
    PrintLength(v, 9);
    ParsePrint(v, MAX_VARINT_LEN, tail);
  }

  lemma TagParts(number: nat, wireType: nat)
    requires number < 0x2000_0000_0000_0000 && wireType < 8
    ensures number * 8 + wireType < TWO_64
    ensures (number * 8 + wireType) % TWO_64 / 8 == number && (number * 8 + wireType) % TWO_64 % 8 == wireType
  {
    var tag := number * 8 + wireType;
    SmallRemainder(tag);
  }

  lemma TakingAll(number: nat, wireType: nat, value: Bytes, tail: Bytes)
    ensures Taking(number, wireType, value + tail, |value|) == Found(Field(number, wireType, value), tail)
  {
    assert (value + tail)[..|value|] == value && (value + tail)[|value|..] == tail;
  }

  lemma ValuePrinted(f: Field, tail: Bytes, at: nat)
    requires WellFormed(f)
    requires at + |PrintValue(f)| < TWO_63
    ensures ScanValue(f.number, f.wireType, PrintValue(f) + tail, at) == Found(f, tail)
  {
    TakingAll(f.number, f.wireType, f.value, tail);
    if f.wireType == LENGTH_DELIMITED {
      Join(Print(|f.value|), f.value, tail);
      UvarintRoundTrip(|f.value|, f.value + tail);
      SmallRemainder(|f.value|);
    } else if f.wireType == VARINT {
      var v: uint64 :| f.value == Print(v);
      UvarintRoundTrip(v, tail);
      assert Consumed(f.value + tail, tail) == f.value;
    }
  }

  lemma ScanOnePrinted(f: Field, tail: Bytes, pos: nat)
    requires WellFormed(f) && pos + |PrintField(f)| < TWO_63
    ensures ScanOne(PrintField(f) + tail, pos) == Found(f, tail)
  {
    var tag := f.number * 8 + f.wireType;
    TagParts(f.number, f.wireType);
    Join(Print(tag), PrintValue(f), tail);
    UvarintRoundTrip(tag, PrintValue(f) + tail);
    ValuePrinted(f, tail, pos + |Print(tag)|);
  }

  ghost predicate AllWellFormed(fs: seq<Field>) {
    forall i :: 0 <= i < |fs| ==> WellFormed(fs[i])
  }

  lemma BeforeTwice(a: seq<Field>, b: seq<Field>, r: Scanned)
    ensures Before(a, Before(b, r)) == Before(a + b, r) && Before([], r) == r
  {
    assert a + (b + r.fields) == a + b + r.fields && [] + r.fields == r.fields;
  }

  /** A step takes one printed field and leaves the rest, within the client's int. */
  ghost predicate TakesPrinted(step: (Bytes, nat) -> Step, encode: Field -> Bytes) {
    forall f, tail, pos: nat :: WellFormed(f) && pos + |encode(f)| < TWO_63 ==>
      encode(f) != [] && step(encode(f) + tail, pos) == Found(f, tail)
  }

  function PrintAll(encode: Field -> Bytes, fs: seq<Field>): Bytes {
    if fs == [] then [] else encode(fs[0]) + PrintAll(encode, fs[1..])
  }

  lemma {:induction false} RepeatPrinted(step: (Bytes, nat) -> Step, encode: Field -> Bytes, fs: seq<Field>,
                                         tail: Bytes, pos: nat)
    requires TakesPrinted(step, encode)
    requires AllWellFormed(fs) && pos + |PrintAll(encode, fs)| < TWO_63
    ensures Repeat(step, PrintAll(encode, fs) + tail, pos) ==
            Before(fs, Repeat(step, tail, pos + |PrintAll(encode, fs)|))
  {
    if fs == [] {
      assert [] + tail == tail;
      BeforeTwice([], [], Repeat(step, tail, pos));
    } else {
      var f, more := fs[0], PrintAll(encode, fs[1..]);
      Join(encode(f), more, tail);
      assert step(encode(f) + (more + tail), pos) == Found(f, more + tail);
      RepeatPrinted(step, encode, fs[1..], tail, pos + |encode(f)|);
      BeforeTwice([f], fs[1..], Repeat(step, tail, pos + |PrintAll(encode, fs)|));
      assert [f] + fs[1..] == fs;
    }
  }

  function PrintFields(fs: seq<Field>): Bytes {
    PrintAll(PrintField, fs)
  }

  lemma ScanTakesPrinted(step: (Bytes, nat) -> Step, encode: Field -> Bytes)
    requires step == ScanOne && encode == PrintField
    ensures TakesPrinted(step, encode)
  {
    forall f, tail, pos: nat | WellFormed(f) && pos + |encode(f)| < TWO_63
      ensures encode(f) != [] && step(encode(f) + tail, pos) == Found(f, tail)
    {
      assert encode(f) == PrintField(f);
      ScanOnePrinted(f, tail, pos);
    }
  }

  lemma ScanPrintedBy(step: (Bytes, nat) -> Step, encode: Field -> Bytes, fs: seq<Field>, tail: Bytes, pos: nat)
    requires step == ScanOne && encode == PrintField
    requires AllWellFormed(fs) && pos + |PrintAll(encode, fs)| < TWO_63
    ensures Repeat(step, PrintAll(encode, fs) + tail, pos) ==
            Before(fs, Repeat(step, tail, pos + |PrintAll(encode, fs)|))
  {
    ScanTakesPrinted(step, encode);
    RepeatPrinted(step, encode, fs, tail, pos);
  }

  /** Printed fields are scanned exactly, in order, whatever follows them. */
  lemma ScanPrinted(fs: seq<Field>, tail: Bytes, pos: nat)
    requires AllWellFormed(fs) && pos + |PrintFields(fs)| < TWO_63
    ensures Scan(PrintFields(fs) + tail, pos) == Before(fs, Scan(tail, pos + |PrintFields(fs)|))
  {
    ScanPrintedBy(ScanOne, PrintField, fs, tail, pos);
  }

  lemma ScanInvertsPrint(fs: seq<Field>)
    requires AllWellFormed(fs) && |PrintFields(fs)| < TWO_63
    ensures Scan(PrintFields(fs), 0) == Scanned(fs, Done)
  {
    ScanPrinted(fs, [], 0);
    assert PrintFields(fs) + [] == PrintFields(fs) && fs + [] == fs;
  }

  // ---------- scanning concatenated data ----------

  lemma {:induction false} ParseMore(s: Bytes, t: Bytes, budget: nat)
    requires Parse(s, budget).Ok?
    ensures Parse(s + t, budget) == Ok(Parse(s, budget).value, Parse(s, budget).rest + t)
  {
    assert (s + t)[1..] == s[1..] + t;
    if s[0] >= 0x80 {
      ParseMore(s[1..], t, budget - 1);
    }
  }

  /** The same step, with t behind what is left. */
  function Behind(p: Step, t: Bytes): Step {
    if p.Found? then p.(rest := p.rest + t) else p
  }

  lemma TakingMore(number: nat, wireType: nat, s: Bytes, n: nat, t: Bytes)
    requires Taking(number, wireType, s, n).Found?
    ensures Taking(number, wireType, s + t, n) == Behind(Taking(number, wireType, s, n), t)
  {
    assert (s + t)[..n] == s[..n] && (s + t)[n..] == s[n..] + t;
  }

  lemma ValueMore(number: nat, wireType: nat, s: Bytes, at: nat, t: Bytes)
    requires ScanValue(number, wireType, s, at).Found?
    ensures ScanValue(number, wireType, s + t, at) == Behind(ScanValue(number, wireType, s, at), t)
  {
    if wireType == VARINT {
      ParseMore(s, t, MAX_VARINT_LEN);
      var rest := Parse(s, MAX_VARINT_LEN).rest;
      assert Consumed(s + t, rest + t) == Consumed(s, rest);
    } else if wireType == LENGTH_DELIMITED {
      ParseMore(s, t, MAX_VARINT_LEN);
      var n := Parse(s, MAX_VARINT_LEN);
      TakingMore(number, wireType, n.rest, n.value % TWO_64, t);
    } else {
      TakingMore(number, wireType, s, if wireType == FIXED64 then 8 else 4, t);
    }
  }

  lemma ScanOneMore(s: Bytes, t: Bytes, pos: nat)
    requires ScanOne(s, pos).Found?
    ensures ScanOne(s + t, pos) == Behind(ScanOne(s, pos), t)
  {
    ParseMore(s, t, MAX_VARINT_LEN);
    var tag := Parse(s, MAX_VARINT_LEN);
    ValueMore(tag.value % TWO_64 / 8, tag.value % TWO_64 % 8, tag.rest, pos + |s| - |tag.rest|, t);
  }

  /** A step that finds a field finds it also when more data follows. */
  ghost predicate Extends(step: (Bytes, nat) -> Step) {
    forall s, t, pos :: step(s, pos).Found? ==> step(s + t, pos) == Behind(step(s, pos), t)
  }

  lemma {:induction false} RepeatConcatenation(step: (Bytes, nat) -> Step, a: Bytes, b: Bytes, pos: nat)
    requires Extends(step) && Repeat(step, a, pos).end == Done
    ensures Repeat(step, a + b, pos) == Before(Repeat(step, a, pos).fields, Repeat(step, b, pos + |a|))
    decreases |a|
  {
    if a == [] {
      assert a + b == b;
      BeforeTwice([], [], Repeat(step, b, pos));
    } else {
      var f, rest := step(a, pos).field, step(a, pos).rest;
      assert step(a + b, pos) == Found(f, rest + b);
      var at := pos + |a| - |rest|;
      RepeatConcatenation(step, rest, b, at);
      BeforeTwice([f], Repeat(step, rest, at).fields, Repeat(step, b, pos + |a|));
    }
  }

  /** If a scans to its end, a followed by b scans as a and then b. */
  lemma ScanConcatenation(a: Bytes, b: Bytes, pos: nat)
    requires Scan(a, pos).end == Done
    ensures Scan(a + b, pos) == Before(Scan(a, pos).fields, Scan(b, pos + |a|))
  {
    forall s, t, p: nat | ScanOne(s, p).Found?
      ensures ScanOne(s + t, p) == Behind(ScanOne(s, p), t)
    {
      ScanOneMore(s, t, p);
    }
    RepeatConcatenation(ScanOne, a, b, pos);
  }

  // ---------- when the scanner's bounds check is not enough ----------

  /** A length-delimited field whose end is past the largest int. */
  predicate StartsWithOverflow(s: Bytes, pos: nat) {
    && var tag := Parse(s, MAX_VARINT_LEN);
    && tag.Ok? && tag.value % TWO_64 % 8 == LENGTH_DELIMITED
    && var length := Parse(tag.rest, MAX_VARINT_LEN);
    && length.Ok? && length.value % TWO_64 >= TWO_63 - pos - (|s| - |length.rest|)
  }

  lemma OutOfRangeIff(s: Bytes, pos: nat)
    ensures ScanOne(s, pos) == OutOfRange <==> StartsWithOverflow(s, pos)
  {
  }

  /** Where steps that find a field lead to. */
  ghost predicate Reaches(step: (Bytes, nat) -> Step, s: Bytes, pos: nat, here: (Bytes, nat) -> bool)
    decreases |s|
  {
    && s != []
    && var p := step(s, pos);
    && if p.Found? then |p.rest| < |s| && Reaches(step, p.rest, pos + |s| - |p.rest|, here) else here(s, pos)
  }

  lemma {:induction false} RepeatPanics(step: (Bytes, nat) -> Step, s: Bytes, pos: nat, here: (Bytes, nat) -> bool)
    requires forall t, p :: step(t, p) == OutOfRange <==> here(t, p)
    ensures Repeat(step, s, pos).end == Panic <==> Reaches(step, s, pos, here)
    decreases |s|
  {
    if s != [] && step(s, pos).Found? && |step(s, pos).rest| < |s| {
      RepeatPanics(step, step(s, pos).rest, pos + |s| - |step(s, pos).rest|, here);
    }
  }

  /** Exactly such a length makes the slice panic; every other malformed input is reported as an error. */
  lemma PanicsIff(s: Bytes, pos: nat)
    ensures Scan(s, pos).end == Panic <==> Reaches(ScanOne, s, pos, StartsWithOverflow)
  {
    forall t, p: nat
      ensures ScanOne(t, p) == OutOfRange <==> StartsWithOverflow(t, p)
    {
      OutOfRangeIff(t, p);
    }
    RepeatPanics(ScanOne, s, pos, StartsWithOverflow);
  }

  /** Field 1 with a length of 2^63 - 1: ten bytes that panic. */
  lemma TenBytesPanic()
    ensures var s := [0x0A] + Print(0x7FFF_FFFF_FFFF_FFFF); |s| == 10 && Scan(s, 0).end == Panic
  {
    var length := 0x7FFF_FFFF_FFFF_FFFF;
    Powers();
    PrintLength(length, 8);
    PrintLength(length, 7);
    UvarintRoundTrip(length, []);
    assert Print(length) + [] == Print(length);
    SmallRemainder(length);
    OverflowAfterTag(Print(length), length);
  }

  lemma ScanOneIs(s: Bytes, pos: nat, tag: uint64, rest: Bytes, at: nat)
    requires Parse(s, MAX_VARINT_LEN).Ok? && Parse(s, MAX_VARINT_LEN).rest == rest
    requires tag == Parse(s, MAX_VARINT_LEN).value % TWO_64 && at == pos + |s| - |rest|
    ensures ScanOne(s, pos) == ScanValue(tag / 8, tag % 8, rest, at)
  {
  }

  lemma TagBeforeLength(s: Bytes)
    ensures Parse([0x0A] + s, MAX_VARINT_LEN) == Ok(0x0A, s)
    ensures ScanOne([0x0A] + s, 0) == ScanValue(1, LENGTH_DELIMITED, s, 1)
  {
    var data := [0x0A] + s;
    assert data[1..] == s && data[0] == 0x0A;
    ScanOneIs(data, 0, 0x0A, s, 1);
  }

  lemma OverflowAfterTag(s: Bytes, length: nat)
    requires Parse(s, MAX_VARINT_LEN) == Ok(length, []) && length % TWO_64 >= TWO_63 - 1 - |s|
    ensures Scan([0x0A] + s, 0).end == Panic
  {
    assert ScanValue(1, LENGTH_DELIMITED, s, 1) == OutOfRange;
    TagBeforeLength(s);
    FirstOutOfRange(ScanOne, [0x0A] + s, 0);
  }

  lemma FirstOutOfRange(step: (Bytes, nat) -> Step, s: Bytes, pos: nat)
    requires s != [] && step(s, pos) == OutOfRange
    ensures Repeat(step, s, pos).end == Panic
  {
  }

  // ---------- the client's loops ----------

  /** decodeUvarint: (0, -1) for a number that does not end, or not within ten bytes. */
  method DecodeUvarint(data: Bytes) returns (v: uint64, n: int)
    ensures var p := Parse(data, MAX_VARINT_LEN);
            if p.Ok? then v == p.value % TWO_64 && n == |data| - |p.rest| else v == 0 && n == -1
  {
    var u: nat, place: nat := 0, 1;
    assert data[0..] == data;
    for i := 0 to |data|
      invariant i <= MAX_VARINT_LEN
      invariant match Parse(data[i..], MAX_VARINT_LEN - i)
                case Ok(w, rest) => Parse(data, MAX_VARINT_LEN) == Ok(u + place * w, rest)
                case Fail(_, _) => Parse(data, MAX_VARINT_LEN).Fail?
    {
      if i >= MAX_VARINT_LEN {
        return 0, -1;
      }
      var b := data[i];
      ghost var more := Parse(data[i + 1..], MAX_VARINT_LEN - i - 1);
      assert data[i..][1..] == data[i + 1..] && data[i..][0] == b;
      GroupPlace(u, place, b, if more.Ok? then more.value else 0);
      u := u + place * (b % 0x80);
      if b < 0x80 {
        return u % TWO_64, i + 1;
      }
      place := place * 0x80;
    }
    v, n := 0, -1;
  }

  method AppendUvarint(dst: Bytes, value: uint64) returns (r: Bytes)
    ensures r == dst + Print(value)
  {
    var v: nat := value;
    r := dst;
    while v >= 0x80
      invariant r + Print(v) == dst + Print(value)
      decreases v
    {
      assert Print(v) == [v % 0x80 + 0x80] + Print(v / 0x80);
      r := r + [v % 0x80 + 0x80];
      v := v / 0x80;
    }
    r := r + [v];
  }

  method UvarintSize(value: uint64) returns (n: nat)
    ensures n == |Print(value)|
  {
    var v: nat := value;
    n := 1;
    while v >= 0x80
      invariant n - 1 + |Print(v)| == |Print(value)|
      decreases v
    {
      v := v / 0x80;
      n := n + 1;
    }
  }

  lemma SameGroups(number: nat, wireType: nat)
    requires wireType < 8
    ensures (number * 8) / 0x80 == (number * 8 + wireType) / 0x80
    ensures number * 8 >= 0x80 <==> number * 8 + wireType >= 0x80
  {
    var q, r := number / 16, number % 16;
    assert number * 8 == 0x80 * q + 8 * r;
  }

  /** The wire type's three bits never make a tag longer. */
  lemma TagSize(number: nat, wireType: nat)
    requires wireType < 8
    ensures |Print(number * 8)| == |PrintTag(number, wireType)|
  {
    SameGroups(number, wireType);
  }

  method ScanValueAt(data: Bytes, pos: nat, fieldNumber: nat, wireType: nat) returns (p: Step)
    requires pos <= |data| < TWO_63
    ensures p == ScanValue(fieldNumber, wireType, data[pos..], pos)
  {
    ParseConsumes(data[pos..], MAX_VARINT_LEN);
    if wireType == VARINT {
      var _, n := DecodeUvarint(data[pos..]);
      if n <= 0 {
        return Bad;
      }
      assert data[pos..][n..] == data[pos + n..] && data[pos..][..n] == data[pos..pos + n];
      return Found(Field(fieldNumber, wireType, data[pos..pos + n]), data[pos + n..]);
    } else if wireType == FIXED64 {
      if pos + 8 > |data| {
        return Bad;
      }
      return Found(Field(fieldNumber, wireType, data[pos..pos + 8]), data[pos + 8..]);
    } else if wireType == LENGTH_DELIMITED {
      p := ScanDelimitedAt(data, pos, fieldNumber);
    } else if wireType == FIXED32 {
      if pos + 4 > |data| {
        return Bad;
      }
      return Found(Field(fieldNumber, wireType, data[pos..pos + 4]), data[pos + 4..]);
    } else {
      p := Bad;
    }
  }

  /** Adding the length to the position wraps around. */
  method ScanDelimitedAt(data: Bytes, pos: nat, fieldNumber: nat) returns (p: Step)
    requires pos <= |data| < TWO_63
    ensures p == ScanDelimited(fieldNumber, data[pos..], pos)
  {
    ParseConsumes(data[pos..], MAX_VARINT_LEN);
    var length, n := DecodeUvarint(data[pos..]);
    if n <= 0 {
      return Bad;
    }
    var at := pos + n;
    assert data[pos..][n..] == data[at..];
    var end := WrappedSum(at, ToInt64(length));
    WrapAround(at, length);
    if end > |data| {
      return Bad;
    }
    if end < at {
      return OutOfRange;
    }
    p := Found(Field(fieldNumber, LENGTH_DELIMITED, data[at..end]), data[end..]);
  }

  function WrappedSum(a: int64, b: int64): int64 {
    if a + b >= TWO_63 then a + b - TWO_64 else if a + b < -TWO_63 then a + b + TWO_64 else a + b
  }

  lemma WrapAround(at: nat, length: uint64)
    requires at < TWO_63
    ensures if LengthOverflows(length, at) then WrappedSum(at, ToInt64(length)) < at
            else WrappedSum(at, ToInt64(length)) == at + length
  {
  }

  lemma NothingFound(fields: seq<Field>, end: End)
    ensures Before(fields, Scanned([], end)) == Scanned(fields, end)
  {
    assert fields + [] == fields;
  }

  lemma OneTurn(step: (Bytes, nat) -> Step, data: Bytes, pos: nat, fields: seq<Field>, whole: Scanned, p: Step,
                next: nat)
    requires pos < |data| && whole == Before(fields, Repeat(step, data[pos..], pos)) && p == step(data[pos..], pos)
    requires pos <= next <= |data| && (p.Found? ==> pos < next && p.rest == data[next..])
    ensures p.Bad? ==> whole == Scanned(fields, Malformed)
    ensures p.OutOfRange? ==> whole == Scanned(fields, Panic)
    ensures p.Found? ==> whole == Before(fields + [p.field], Repeat(step, data[next..], next))
  {
    NothingFound(fields, Malformed);
    NothingFound(fields, Panic);
    if p.Found? {
      BeforeTwice(fields, [p.field], Repeat(step, p.rest, next));
    }
  }

  lemma ValueIsSuffix(number: nat, wireType: nat, s: Bytes, at: nat)
    ensures var p := ScanValue(number, wireType, s, at);
            p.Found? ==> |p.rest| <= |s| && p.rest == s[|s| - |p.rest|..]
  {
    ParseConsumes(s, MAX_VARINT_LEN);
  }

  method ScanOneAt(data: Bytes, pos: nat) returns (p: Step, next: nat)
    requires pos < |data| < TWO_63
    ensures p == ScanOne(data[pos..], pos)
    ensures pos <= next <= |data| && (p.Found? ==> pos < next && p.rest == data[next..])
  {
    ghost var s := data[pos..];
    ParseConsumes(s, MAX_VARINT_LEN);
    var tag, n := DecodeUvarint(data[pos..]);
    if n <= 0 {
      return Bad, pos;
    }
    var at := pos + n;
    assert Parse(s, MAX_VARINT_LEN).rest == data[at..];
    ScanOneIs(s, pos, tag, data[at..], at);
    ValueIsSuffix(tag / 8, tag % 8, data[at..], at);
    p := ScanValueAt(data, at, tag / 8, tag % 8);
    next := if p.Found? then |data| - |p.rest| else pos;
  }

  /** One turn of the loop; on `stop` the scan is over. */
  method ScanTurn(data: Bytes, pos: nat, fields: seq<Field>, ghost whole: Scanned)
    returns (stop: bool, fields': seq<Field>, pos': nat, end: End)
    requires pos < |data| < TWO_63 && whole == Before(fields, Repeat(ScanOne, data[pos..], pos))
    ensures stop ==> whole == Scanned(fields', end)
    ensures !stop ==> pos < pos' <= |data| && whole == Before(fields', Repeat(ScanOne, data[pos'..], pos'))
  {
    var p, next := ScanOneAt(data, pos);
    OneTurn(ScanOne, data, pos, fields, whole, p, next);
    stop, fields', pos', end := !p.Found?, fields, next, if p.Bad? then Malformed else Panic;
    if p.Found? {
      fields' := fields + [p.field];
    }
  }

  /** The loop of ScanFields; the fields are what the callback is called with. */
  method ScanFields(data: Bytes) returns (r: Scanned)
    requires |data| < TWO_63
    ensures r == Scan(data, 0)
  {
    var fields, pos, stop, end := [], 0, false, Done;
    ghost var whole := Scan(data, 0);
    assert data[0..] == data;
    BeforeTwice([], [], whole);
    while pos < |data|
      invariant 0 <= pos <= |data|
      invariant whole == Before(fields, Repeat(ScanOne, data[pos..], pos))
      decreases |data| - pos
    {
      stop, fields, pos, end := ScanTurn(data, pos, fields, whole);
      if stop {
        return Scanned(fields, end);
      }
    }
    NothingFound(fields, Done);
    r := Scanned(fields, Done);
  }
}
