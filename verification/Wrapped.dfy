/**
 * Values in WrappedMessage form (internal/protostream/wrapped.go): the client's Wrap functions and the Unwrap
 * functions, which give every field to a callback that fills in variables.
 */
module Wrapped {
  import opened Wrappers
  import opened Words
  import opened Varint
  import opened Protobuf
  import Wire

  const WRAPPED_DOUBLE: nat := 1
  const WRAPPED_FLOAT: nat := 2
  const WRAPPED_INT64: nat := 3
  const WRAPPED_UINT64: nat := 4
  const WRAPPED_INT32: nat := 5
  const WRAPPED_FIXED64: nat := 6
  const WRAPPED_FIXED32: nat := 7
  const WRAPPED_BOOL: nat := 8
  const WRAPPED_STRING: nat := 9
  const WRAPPED_BYTES: nat := 10
  const WRAPPED_UINT32: nat := 11
  const WRAPPED_SFIXED32: nat := 12
  const WRAPPED_SFIXED64: nat := 13
  const WRAPPED_SINT32: nat := 14
  const WRAPPED_SINT64: nat := 15
  const WRAPPED_DESCRIPTOR_FULL_NAME: nat := 16
  const WRAPPED_MESSAGE: nat := 17
  const WRAPPED_DESCRIPTOR_TYPE_ID: nat := 19

  /** The Go types that UnwrapValue returns; floating-point numbers as their bit patterns. */
  datatype Value =
    | Float64(bits64: uint64)
    | Float32(bits32: uint32)
    | I64(i64: int64)
    | U64(u64: uint64)
    | I32(i32: int32)
    | U32(u32: uint32)
    | Truth(truth: bool)
    | Text(text: Bytes)
    | Blob(blob: Bytes)

  /** An unwrap function's outcome; Crash is the scanner's slice out of range. */
  datatype Outcome<+T> = Good(value: T) | Error | Crash

  // ---------- fixed-width numbers, least significant byte first ----------

  function PrintLE(u: nat, n: nat): (b: Bytes)
    ensures |b| == n
  {
    if n == 0 then [] else [u % 0x100] + PrintLE(u / 0x100, n - 1)
  }

  function ValueLE(b: Bytes): (u: nat) {
    if b == [] then 0 else b[0] + 0x100 * ValueLE(b[1..])
  }

  lemma {:induction false} BoundLE(b: Bytes)
    ensures ValueLE(b) < Wire.Pow256(|b|)
  {
    if b != [] {
      BoundLE(b[1..]);
    }
  }

  lemma {:induction false} LERoundTrip(u: nat, n: nat)
    requires u < Wire.Pow256(n)
    ensures ValueLE(PrintLE(u, n)) == u
  {
    if n > 0 {
      LERoundTrip(u / 0x100, n - 1);
      assert PrintLE(u, n)[1..] == PrintLE(u / 0x100, n - 1);
    }
  }

  // ---------- zigzag ----------

  function ZigZag64(v: int64): uint64 {
    if v >= 0 then 2 * v else -2 * v - 1
  }

  /** (v >> 1) ^ -(v & 1). */
  function UnZigZag64(u: uint64): int64 {
    if u % 2 == 0 then u / 2 else -(u / 2) - 1
  }

  lemma ZigZagRoundTrip(v: int64, w: int32)
    ensures UnZigZag64(ZigZag64(v)) == v
    ensures Wire.UnZigZag(Wire.ZigZag(w)) == w
  {
  }

  // ---------- running a callback over the fields ----------

  /** The callback's state after the fields, or None where it returned an error. */
  function RunCallback<A>(f: (A, Field) -> Option<A>, acc: A, fields: seq<Field>): Option<A>
    decreases |fields|
  {
    if fields == [] then Some(acc)
    else
      match f(acc, fields[0])
      case None => None
      case Some(next) => RunCallback(f, next, fields[1..])
  }

  lemma {:induction false} RunAppended<A>(f: (A, Field) -> Option<A>, acc: A, a: seq<Field>, b: seq<Field>)
    ensures RunCallback(f, acc, a + b) ==
            match RunCallback(f, acc, a) case None => None case Some(mid) => RunCallback(f, mid, b)
    decreases |a|
  {
    if a == [] {
      assert a + b == b;
    } else {
      assert (a + b)[0] == a[0] && (a + b)[1..] == a[1..] + b;
      if f(acc, a[0]).Some? {
        RunAppended(f, f(acc, a[0]).value, a[1..], b);
      }
    }
  }

  lemma RunOne<A>(f: (A, Field) -> Option<A>, acc: A, a: Field)
    ensures RunCallback(f, acc, [a]) == f(acc, a)
  {
    if f(acc, a).Some? {
      assert [a][1..] == [];
      assert RunCallback(f, f(acc, a).value, []) == f(acc, a);
    }
  }

  predicate Leads<A(==)>(f: (A, Field) -> Option<A>, acc: A, fields: seq<Field>, next: A) {
    RunCallback(f, acc, fields) == Some(next)
  }

  lemma LeadsOn<A>(f: (A, Field) -> Option<A>, acc: A, a: seq<Field>, mid: A, b: seq<Field>, next: A)
    requires Leads(f, acc, a, mid) && Leads(f, mid, b, next)
    ensures Leads(f, acc, a + b, next)
  {
    RunAppended(f, acc, a, b);
  }

  lemma LeadsOne<A>(f: (A, Field) -> Option<A>, acc: A, a: Field, next: A)
    requires f(acc, a) == Some(next)
    ensures Leads(f, acc, [a], next)
  {
    RunOne(f, acc, a);
  }

  /** A callback's error stops the scan before it can fail itself. */
  function Collect<A>(f: (A, Field) -> Option<A>, init: A, data: Bytes): Outcome<A> {
    var r := Scan(data, 0);
    match RunCallback(f, init, r.fields)
    case None => Error
    case Some(acc) => if r.end == Panic then Crash else if r.end == Malformed then Error else Good(acc)
  }

  // ---------- UnwrapValue ----------

  function Uvarint(b: Bytes): Option<uint64> {
    match Parse(b, MAX_VARINT_LEN)
    case Ok(v, _) => Some(v % TWO_64)
    case Fail(_, _) => None
  }

  function Fixed(b: Bytes, n: nat): Option<nat> {
    if |b| == n then Some(ValueLE(b)) else None
  }

  function Truncated32(u: nat): uint32 {
    u % TWO_32
  }

  /** A recognised field replaces the result; its wire type is not looked at. */
  function TakeValue(acc: Option<Value>, f: Field): Option<Option<Value>> {
    var v, fixed64, fixed32 := Uvarint(f.value), Fixed(f.value, 8), Fixed(f.value, 4);
    if f.number == WRAPPED_DOUBLE then if fixed64.None? then None else Some(Some(Float64(fixed64.value % TWO_64)))
    else if f.number == WRAPPED_FLOAT then
      if fixed32.None? then None else Some(Some(Float32(Truncated32(fixed32.value))))
    else if f.number == WRAPPED_INT64 then if v.None? then None else Some(Some(I64(ToInt64(v.value))))
    else if f.number == WRAPPED_UINT64 then if v.None? then None else Some(Some(U64(v.value)))
    else if f.number == WRAPPED_INT32 then if v.None? then None else Some(Some(I32(ToInt32(Truncated32(v.value)))))
    else if f.number == WRAPPED_FIXED64 then if fixed64.None? then None else Some(Some(U64(fixed64.value % TWO_64)))
    else if f.number == WRAPPED_FIXED32 then if fixed32.None? then None else Some(Some(U32(Truncated32(fixed32.value))))
    else if f.number == WRAPPED_BOOL then if v.None? then None else Some(Some(Truth(v.value != 0)))
    else if f.number == WRAPPED_STRING then Some(Some(Text(f.value)))
    else if f.number == WRAPPED_BYTES then Some(Some(Blob(f.value)))
    else if f.number == WRAPPED_UINT32 then if v.None? then None else Some(Some(U32(Truncated32(v.value))))
    else if f.number == WRAPPED_SFIXED32 then
      if fixed32.None? then None else Some(Some(I32(ToInt32(Truncated32(fixed32.value)))))
    else if f.number == WRAPPED_SFIXED64 then
      if fixed64.None? then None else Some(Some(I64(ToInt64(fixed64.value % TWO_64))))
    else if f.number == WRAPPED_SINT32 then
      if v.None? then None else Some(Some(I32(Wire.UnZigZag(Truncated32(v.value)))))
    else if f.number == WRAPPED_SINT64 then if v.None? then None else Some(Some(I64(UnZigZag64(v.value))))
    else if f.number == WRAPPED_MESSAGE then Some(Some(Blob(f.value)))
    else Some(acc)
  }

  function UnwrapValue(data: Bytes): Outcome<Value> {
    match Collect<Option<Value>>(TakeValue, None, data)
    case Good(v) => if v.Some? then Good(v.value) else Error
    case Error => Error
    case Crash => Crash
  }

  /** The field each Wrap function writes. */
  function WrapField(v: Value): Field {
    match v
    case Float64(bits) => Field(WRAPPED_DOUBLE, FIXED64, PrintLE(bits, 8))
    case Float32(bits) => Field(WRAPPED_FLOAT, FIXED32, PrintLE(bits, 4))
    case I64(i) => Field(WRAPPED_INT64, VARINT, Print(ToUint64(i)))
    case U64(u) => Field(WRAPPED_UINT64, VARINT, Print(u))
    case I32(i) => Field(WRAPPED_INT32, VARINT, Print(ToUint64(i)))
    case U32(u) => Field(WRAPPED_UINT32, VARINT, Print(u))
    case Truth(b) => Field(WRAPPED_BOOL, VARINT, Print(if b then 1 else 0))
    case Text(s) => Field(WRAPPED_STRING, LENGTH_DELIMITED, s)
    case Blob(b) => Field(WRAPPED_BYTES, LENGTH_DELIMITED, b)
  }

  function Wrap(v: Value): Bytes {
    PrintField(WrapField(v))
  }

  /** A slice's length, and so that of any buffer the client builds. */
  predicate Buildable(b: Bytes) {
    |b| < TWO_63
  }

  lemma UvarintOfPrint(v: uint64)
    ensures Uvarint(Print(v)) == Some(v)
  {
    UvarintRoundTrip(v, []);
    assert Print(v) + [] == Print(v);
    Wire.SmallRemainder(v);
  }

  lemma FixedOfPrint(u: nat, n: nat)
    requires u < Wire.Pow256(n)
    ensures Fixed(PrintLE(u, n), n) == Some(u)
  {
    LERoundTrip(u, n);
  }

  /** The low half of a sign-extended int32 is that int32. */
  lemma SignExtension(i: int32)
    ensures ToInt32(Truncated32(ToUint64(i))) == i
  {
    if i < 0 {
      assert (i + TWO_64) % TWO_32 == i + TWO_32;
    }
  }

  predicate Taken(v: Value, f: Field) {
    TakeValue(None, f) == Some(Some(v))
  }

  lemma FloatsTaken(u: uint64, w: uint32)
    ensures Taken(Float64(u), WrapField(Float64(u))) && Taken(Float32(w), WrapField(Float32(w)))
  {
    Wire.Widths();
    FixedOfPrint(u, 8);
    Wire.SmallRemainder(u);
    FixedOfPrint(w, 4);
  }

  lemma Integers64Taken(i: int64, u: uint64)
    ensures Taken(I64(i), WrapField(I64(i))) && Taken(U64(u), WrapField(U64(u)))
  {
    UvarintOfPrint(ToUint64(i));
    UvarintOfPrint(u);
  }

  lemma SignedTaken(i: int32)
    ensures Taken(I32(i), WrapField(I32(i)))
  {
    UvarintOfPrint(ToUint64(i));
    SignExtension(i);
  }

  lemma NotTruncated(u: uint32)
    ensures Truncated32(u) == u
  {
  }

  lemma UnsignedTaken(u: uint32)
    ensures Taken(U32(u), WrapField(U32(u)))
  {
    NotTruncated(u);
    UvarintOfPrint(u);
  }

  lemma TruthTaken(b: bool)
    ensures Taken(Truth(b), WrapField(Truth(b)))
  {
    UvarintOfPrint(if b then 1 else 0);
  }

  lemma WrapFieldTaken(v: Value)
    ensures Taken(v, WrapField(v))
  {
    match v {
      case Float64(bits) => FloatsTaken(bits, 0);
      case Float32(bits) => FloatsTaken(0, bits);
      case I64(i) => Integers64Taken(i, 0);
      case U64(u) => Integers64Taken(0, u);
      case I32(i) => SignedTaken(i);
      case U32(u) => UnsignedTaken(u);
      case Truth(b) => TruthTaken(b);
      case Text(s) =>
      case Blob(b) =>
    }
  }

  lemma WrapFieldWellFormed(v: Value)
    requires Buildable(Wrap(v))
    ensures WellFormed(WrapField(v))
  {
  }

  /** What a server may send for a scalar besides the forms that the client writes, as Protocol Buffers encodes it. */
  datatype Scalar =
    | Fixed64(f64: uint64)
    | Fixed32(f32: uint32)
    | SFixed64(sf64: int64)
    | SFixed32(sf32: int32)
    | SInt64(s64: int64)
    | SInt32(s32: int32)
    | Message(message: Bytes)

  function ScalarField(v: Scalar): Field {
    match v
    case Fixed64(u) => Field(6, FIXED64, PrintLE(u, 8))
    case Fixed32(u) => Field(7, FIXED32, PrintLE(u, 4))
    case SFixed32(i) => Field(12, FIXED32, PrintLE(ToUint32(i), 4))
    case SFixed64(i) => Field(13, FIXED64, PrintLE(ToUint64(i), 8))
    case SInt32(i) => Field(14, VARINT, Print(Wire.ZigZag(i)))
    case SInt64(i) => Field(15, VARINT, Print(ZigZag64(i)))
    case Message(b) => Field(17, LENGTH_DELIMITED, b)
  }

  function ScalarValue(v: Scalar): Value {
    match v
    case Fixed64(u) => U64(u)
    case Fixed32(u) => U32(u)
    case SFixed64(i) => I64(i)
    case SFixed32(i) => I32(i)
    case SInt64(i) => I64(i)
    case SInt32(i) => I32(i)
    case Message(b) => Blob(b)
  }

  lemma FixedScalarsTaken(v: Scalar)
    requires v.Fixed64? || v.Fixed32? || v.SFixed64? || v.SFixed32?
    ensures Taken(ScalarValue(v), ScalarField(v))
  {
    Wire.Widths();
    match v {
      case Fixed64(u) =>
        FixedOfPrint(u, 8);
        Wire.SmallRemainder(u);
      case Fixed32(u) =>
        FixedOfPrint(u, 4);
        NotTruncated(u);
      case SFixed64(i) =>
        FixedOfPrint(ToUint64(i), 8);
        Wire.SmallRemainder(ToUint64(i));
      case SFixed32(i) =>
        FixedOfPrint(ToUint32(i), 4);
        NotTruncated(ToUint32(i));
    }
  }

  lemma ZigZagScalarsTaken(v: Scalar)
    requires v.SInt64? || v.SInt32?
    ensures Taken(ScalarValue(v), ScalarField(v))
  {
    match v {
      case SInt64(i) =>
        ZigZagRoundTrip(i, 0);
        UvarintOfPrint(ZigZag64(i));
      case SInt32(i) =>
        ZigZagRoundTrip(0, i);
        NotTruncated(Wire.ZigZag(i));
        UvarintOfPrint(Wire.ZigZag(i));
    }
  }

  lemma CollectOne<A>(f: (A, Field) -> Option<A>, init: A, field: Field)
    requires WellFormed(field) && |PrintField(field)| < TWO_63
    ensures Collect(f, init, PrintField(field)) == match f(init, field) case Some(a) => Good(a) case None => Error
  {
    OneField(field);
    CollectFields(f, init, [field]);
    RunOne(f, init, field);
  }

  lemma OneField(field: Field)
    ensures PrintFields([field]) == PrintField(field)
  {
    assert [field][1..] == [] && PrintFields([]) == [];
  }

  /** Unwrapping what was printed is running the callback over the printed fields. */
  lemma CollectFields<A>(f: (A, Field) -> Option<A>, init: A, fields: seq<Field>)
    requires AllWellFormed(fields) && |PrintFields(fields)| < TWO_63
    ensures Collect(f, init, PrintFields(fields)) ==
            match RunCallback(f, init, fields) case Some(a) => Good(a) case None => Error
  {
    ScanInvertsPrint(fields);
  }

  /** Every wrapped scalar comes back with its type. */
  lemma WrapRoundTrip(v: Value)
    requires Buildable(Wrap(v))
    ensures UnwrapValue(Wrap(v)) == Good(v)
  {
    WrapFieldTaken(v);
    WrapFieldWellFormed(v);
    CollectOne(TakeValue, None, WrapField(v));
  }

  /** A scalar in one of the other forms is unwrapped to its value. */
  lemma ScalarIsRead(v: Scalar)
    requires Buildable(PrintField(ScalarField(v))) && WellFormed(ScalarField(v))
    ensures UnwrapValue(PrintField(ScalarField(v))) == Good(ScalarValue(v))
  {
    if v.SInt64? || v.SInt32? {
      ZigZagScalarsTaken(v);
    } else if !v.Message? {
      FixedScalarsTaken(v);
    }
    CollectOne<Option<Value>>(TakeValue, None, ScalarField(v));
  }

  // ---------- messages ----------

  datatype Envelope = Envelope(message: Option<Bytes>, name: Option<Bytes>)

  function TakeEnvelope(acc: Envelope, f: Field): Option<Envelope> {
    if f.number == WRAPPED_MESSAGE then
      if f.wireType != LENGTH_DELIMITED then None else Some(acc.(message := Some(f.value)))
    else if f.number == WRAPPED_DESCRIPTOR_FULL_NAME then
      if f.wireType != LENGTH_DELIMITED then None else Some(acc.(name := Some(f.value)))
    else Some(acc)
  }

  function UnwrapMessage(data: Bytes): Outcome<(Bytes, Bytes)> {
    match Collect(TakeEnvelope, Envelope(None, None), data)
    case Good(e) => if e.message.None? || e.name.None? then Error else Good((e.message.value, e.name.value))
    case Error => Error
    case Crash => Crash
  }

  function TakeMessage(acc: Option<Bytes>, f: Field): Option<Option<Bytes>> {
    if f.number != WRAPPED_MESSAGE then Some(acc)
    else if f.wireType != LENGTH_DELIMITED then None
    else Some(Some(f.value))
  }

  function UnwrapBytes(data: Bytes): Outcome<Bytes> {
    match Collect<Option<Bytes>>(TakeMessage, None, data)
    case Good(m) => if m.None? then Error else Good(m.value)
    case Error => Error
    case Crash => Crash
  }

  function TakeString(acc: Option<Bytes>, f: Field): Option<Option<Bytes>> {
    if f.number != WRAPPED_STRING then Some(acc)
    else if f.wireType != LENGTH_DELIMITED then None
    else Some(Some(f.value))
  }

  function UnwrapString(data: Bytes): Outcome<Bytes> {
    match Collect<Option<Bytes>>(TakeString, None, data)
    case Good(s) => if s.None? then Error else Good(s.value)
    case Error => Error
    case Crash => Crash
  }

  function MessageFields(message: Bytes, name: Bytes): seq<Field> {
    [Field(WRAPPED_DESCRIPTOR_FULL_NAME, LENGTH_DELIMITED, name), Field(WRAPPED_MESSAGE, LENGTH_DELIMITED, message)]
  }

  function TypeIdFields(message: Bytes, typeId: int32): seq<Field> {
    [Field(WRAPPED_DESCRIPTOR_TYPE_ID, VARINT, Print(ToUint64(typeId))),
     Field(WRAPPED_MESSAGE, LENGTH_DELIMITED, message)]
  }

  lemma TwoFields(a: Field, b: Field)
    ensures PrintFields([a, b]) == PrintField(a) + PrintField(b)
  {
    assert [a, b][1..] == [b];
    OneField(b);
  }

  lemma RunTwo<A>(f: (A, Field) -> Option<A>, init: A, a: Field, b: Field)
    requires f(init, a).Some?
    ensures RunCallback(f, init, [a, b]) == f(f(init, a).value, b)
  {
    assert [a] + [b] == [a, b];
    RunAppended(f, init, [a], [b]);
    RunOne(f, init, a);
    RunOne(f, f(init, a).value, b);
  }

  /** A wrapped message gives back its bytes and its type name; taken as a value, its bytes. */
  lemma MessageRoundTrip(message: Bytes, name: Bytes)
    requires Buildable(PrintFields(MessageFields(message, name)))
    ensures UnwrapMessage(PrintFields(MessageFields(message, name))) == Good((message, name))
    ensures UnwrapBytes(PrintFields(MessageFields(message, name))) == Good(message)
    ensures UnwrapValue(PrintFields(MessageFields(message, name))) == Good(Blob(message))
  {
    var fields := MessageFields(message, name);
    TwoFields(fields[0], fields[1]);
    CollectFields(TakeEnvelope, Envelope(None, None), fields);
    RunTwo(TakeEnvelope, Envelope(None, None), fields[0], fields[1]);
    CollectFields<Option<Bytes>>(TakeMessage, None, fields);
    RunTwo<Option<Bytes>>(TakeMessage, None, fields[0], fields[1]);
    CollectFields<Option<Value>>(TakeValue, None, fields);
    RunTwo<Option<Value>>(TakeValue, None, fields[0], fields[1]);
  }

  /** With a type ID instead of a name there is no type name to find. */
  lemma TypeIdRoundTrip(message: Bytes, typeId: int32)
    requires Buildable(PrintFields(TypeIdFields(message, typeId)))
    ensures UnwrapBytes(PrintFields(TypeIdFields(message, typeId))) == Good(message)
    ensures UnwrapMessage(PrintFields(TypeIdFields(message, typeId))) == Error
  {
    var fields := TypeIdFields(message, typeId);
    TwoFields(fields[0], fields[1]);
    CollectFields(TakeEnvelope, Envelope(None, None), fields);
    RunTwo(TakeEnvelope, Envelope(None, None), fields[0], fields[1]);
    CollectFields<Option<Bytes>>(TakeMessage, None, fields);
    RunTwo<Option<Bytes>>(TakeMessage, None, fields[0], fields[1]);
  }

  lemma StringRoundTrip(s: Bytes)
    requires Buildable(Wrap(Text(s)))
    ensures UnwrapString(Wrap(Text(s))) == Good(s)
  {
    CollectOne<Option<Bytes>>(TakeString, None, WrapField(Text(s)));
  }

  // ---------- the client's functions ----------

  method AppendTag(dst: Bytes, fieldNumber: nat, wireType: nat) returns (r: Bytes)
    requires fieldNumber < 0x2000_0000_0000_0000 && wireType < 8
    ensures r == dst + PrintTag(fieldNumber, wireType)
  {
    TagParts(fieldNumber, wireType);
    r := AppendUvarint(dst, fieldNumber * 8 + wireType);
  }

  method AppendLenDelimited(dst: Bytes, fieldNumber: nat, data: Bytes) returns (r: Bytes)
    requires fieldNumber < 0x2000_0000_0000_0000 && Buildable(data)
    ensures r == dst + PrintField(Field(fieldNumber, LENGTH_DELIMITED, data))
  {
    r := AppendTag(dst, fieldNumber, LENGTH_DELIMITED);
    r := AppendUvarint(r, |data|);
    r := r + data;
    Parts(dst, PrintTag(fieldNumber, LENGTH_DELIMITED), Print(|data|), data);
  }

  method AppendVarintField(dst: Bytes, fieldNumber: nat, value: uint64) returns (r: Bytes)
    requires fieldNumber < 0x2000_0000_0000_0000
    ensures r == dst + PrintField(Field(fieldNumber, VARINT, Print(value)))
  {
    r := AppendTag(dst, fieldNumber, VARINT);
    r := AppendUvarint(r, value);
    Wire.Join(dst, PrintTag(fieldNumber, VARINT), Print(value));
  }

  lemma Parts(o: Bytes, a: Bytes, b: Bytes, c: Bytes)
    ensures ((o + a) + b) + c == o + (a + (b + c))
  {
  }

  /** tagSize and lenDelimitedSize. */
  method DelimitedSize(fieldNumber: nat, dataLen: nat) returns (size: nat)
    requires fieldNumber < 0x2000_0000_0000_0000 && dataLen < TWO_63
    ensures forall data: Bytes :: |data| == dataLen ==>
              size == |PrintField(Field(fieldNumber, LENGTH_DELIMITED, data))|
  {
    TagParts(fieldNumber, 0);
    TagSize(fieldNumber, LENGTH_DELIMITED);
    var tag := UvarintSize(fieldNumber * 8);
    var prefix := UvarintSize(dataLen);
    size := tag + prefix + dataLen;
  }

  /** The buffer is made of exactly the size that is written. */
  method WrapMessage(messageBytes: Bytes, typeName: Bytes) returns (dst: Bytes, size: nat)
    requires Buildable(messageBytes) && Buildable(typeName)
    ensures dst == PrintFields(MessageFields(messageBytes, typeName))
    ensures size == |dst|
  {
    ghost var fields := MessageFields(messageBytes, typeName);
    TwoFields(fields[0], fields[1]);
    var nameSize := DelimitedSize(WRAPPED_DESCRIPTOR_FULL_NAME, |typeName|);
    var messageSize := DelimitedSize(WRAPPED_MESSAGE, |messageBytes|);
    assert nameSize == |PrintField(fields[0])| && messageSize == |PrintField(fields[1])|;
    size := nameSize + messageSize;
    dst := AppendLenDelimited([], WRAPPED_DESCRIPTOR_FULL_NAME, typeName);
    assert dst == PrintField(fields[0]);
    dst := AppendLenDelimited(dst, WRAPPED_MESSAGE, messageBytes);
    assert dst == PrintField(fields[0]) + PrintField(fields[1]);
  }

  /** The loop that the scanner makes of a callback that collects the message and its name. */
  method UnwrapMessageFields(data: Bytes) returns (o: Outcome<(Bytes, Bytes)>)
    requires Buildable(data)
    ensures o == UnwrapMessage(data)
  {
    var r := ScanFields(data);
    var message: Option<Bytes>, name: Option<Bytes> := None, None;
    ghost var init := Envelope(None, None);
    assert r.fields[0..] == r.fields;
    for i := 0 to |r.fields|
      invariant RunCallback(TakeEnvelope, init, r.fields) ==
                RunCallback(TakeEnvelope, Envelope(message, name), r.fields[i..])
    {
      var f := r.fields[i];
      assert r.fields[i..][0] == f && r.fields[i..][1..] == r.fields[i + 1..];
      if f.number == WRAPPED_MESSAGE {
        if f.wireType != LENGTH_DELIMITED {
          return Error;
        }
        message := Some(f.value);
      } else if f.number == WRAPPED_DESCRIPTOR_FULL_NAME {
        if f.wireType != LENGTH_DELIMITED {
          return Error;
        }
        name := Some(f.value);
      }
    }
    if r.end == Panic {
      return Crash;
    }
    if r.end == Malformed || message.None? || name.None? {
      return Error;
    }
    o := Good((message.value, name.value));
  }
}
