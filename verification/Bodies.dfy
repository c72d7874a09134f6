/**
 * Response and event bodies: what an operation's decoder, the event decoder and the event skipper read
 * (the files of internal/operation, internal/codec/wire.go), and the layouts the server writes.
 */
module Bodies {
  import opened Wrappers
  import opened Words
  import opened Varint
  import opened Wire

  const STATUS_SUCCESS: byte := 0x00
  const STATUS_KEY_DOES_NOT_EXIST: byte := 0x02
  const STATUS_SUCCESS_WITH_PREVIOUS: byte := 0x03
  const STATUS_NOT_EXEC_WITH_PREVIOUS: byte := 0x04
  const STATUS_INVALID_ITERATION: byte := 0x05

  const OP_ENTRY_CREATED: byte := 0x60
  const OP_ENTRY_MODIFIED: byte := 0x61
  const OP_ENTRY_REMOVED: byte := 0x62
  const OP_ENTRY_EXPIRED: byte := 0x63
  const OP_COUNTER_EVENT: byte := 0x66

  // ---------- entry metadata ----------

  /** A limited lifetime: when it began, and its length in seconds. */
  datatype Limit = Limit(since: int64, seconds: int32)

  /** What the server sends about an entry; a missing limit is infinite. */
  datatype Metadata = Metadata(lifespan: Option<Limit>, maxIdle: Option<Limit>, version: int64)

  function PrintLimit(l: Option<Limit>): Bytes {
    if l.None? then [] else PrintLong(l.value.since) + PrintVInt(l.value.seconds)
  }

  function Flags(m: Metadata): byte {
    (if m.lifespan.None? then 1 else 0) + (if m.maxIdle.None? then 2 else 0)
  }

  function PrintMetadata(m: Metadata): Bytes {
    [Flags(m)] + (PrintLimit(m.lifespan) + (PrintLimit(m.maxIdle) + PrintLong(m.version)))
  }

  function ParseLimit(s: Bytes, infinite: bool): Parsed<Option<Limit>> {
    if infinite then Ok(None, s)
    else
      var (since, s1) :- ParseLong(s);
      var (seconds, s2) :- ParseVInt(s1);
      Ok(Some(Limit(since, seconds)), s2)
  }

  /** The flags' other bits are ignored. */
  function ParseMetadata(s: Bytes): Parsed<Metadata> {
    var (flags, s1) :- ParseU1(s);
    var (lifespan, s2) :- ParseLimit(s1, HasBit(flags, 1));
    var (maxIdle, s3) :- ParseLimit(s2, HasBit(flags, 2));
    var (version, s4) :- ParseLong(s3);
    Ok(Metadata(lifespan, maxIdle, version), s4)
  }

  lemma LimitRoundTrip(l: Option<Limit>, tail: Bytes)
    ensures ParseLimit(PrintLimit(l) + tail, l.None?) == Ok(l, tail)
  {
    if l.None? {
      assert PrintLimit(l) + tail == tail;
    } else {
      var s1 := PrintVInt(l.value.seconds) + tail;
      assert PrintLimit(l) + tail == PrintLong(l.value.since) + s1;
      LongRoundTrip(l.value.since, s1);
      VIntRoundTrip(l.value.seconds, tail);
    }
  }

  lemma FlagBits(m: Metadata)
    ensures HasBit(Flags(m), 1) == m.lifespan.None? && HasBit(Flags(m), 2) == m.maxIdle.None?
  {
  }

  lemma MetadataRoundTrip(m: Metadata, tail: Bytes)
    ensures ParseMetadata(PrintMetadata(m) + tail) == Ok(m, tail)
  {
    var s3 := PrintLong(m.version) + tail;
    var s2 := PrintLimit(m.maxIdle) + s3;
    var s1 := PrintLimit(m.lifespan) + s2;
    Join([Flags(m)], PrintLimit(m.lifespan) + (PrintLimit(m.maxIdle) + PrintLong(m.version)), tail);
    Join(PrintLimit(m.lifespan), PrintLimit(m.maxIdle) + PrintLong(m.version), tail);
    Join(PrintLimit(m.maxIdle), PrintLong(m.version), tail);
    FlagBits(m);
    U1RoundTrip(Flags(m), s1);
    LimitRoundTrip(m.lifespan, s2);
    LimitRoundTrip(m.maxIdle, s3);
    LongRoundTrip(m.version, tail);
  }

  // ---------- response bodies ----------

  datatype Entry = Entry(key: Bytes, value: Bytes)
  datatype IterEntry = IterEntry(key: Bytes, value: Bytes, metadata: Option<Metadata>)

  /** The response decoders, by what they read. */
  datatype Decoder =
    | NoBody               // PutAll, listener operations, Clear: nothing is read
    | PreviousValue        // Put, Replace and their conditional forms
    | RemovedValue         // Remove
    | GetValue
    | GetWithVersion
    | GetWithMetadata
    | GetAllEntries
    | IterationNext
    | XaCode               // the transaction operations

  datatype Body =
    | Empty
    | Value(value: Bytes)
    | Versioned(version: int64, value: Bytes)
    | Described(metadata: Metadata, value: Bytes)
    | Entries(entries: seq<Entry>)
    | Batch(segments: Bytes, projections: int32, batch: seq<IterEntry>)
    | Code(high: nat)

  function PrintEntry(e: Entry): Bytes {
    PrintLP(e.key) + PrintLP(e.value)
  }

  function PrintEntries(entries: seq<Entry>): Bytes {
    if entries == [] then []
    else PrintEntry(entries[0]) + PrintEntries(entries[1..])
  }

  function PrintEntryList(es: seq<Entry>): Bytes {
    PrintCount(|es|) + PrintEntries(es)
  }

  function PrintIterMetadata(m: Option<Metadata>): Bytes {
    if m.Some? then [1] + PrintMetadata(m.value) else [0]
  }

  function PrintIterEntry(e: IterEntry): Bytes {
    PrintIterMetadata(e.metadata) + (PrintLP(e.key) + PrintLP(e.value))
  }

  function PrintIterEntries(entries: seq<IterEntry>): Bytes {
    if entries == [] then [] else PrintIterEntry(entries[0]) + PrintIterEntries(entries[1..])
  }

  function PrintBody(b: Body): Bytes {
    match b
    case Empty => []
    case Value(v) => PrintLP(v)
    case Versioned(version, v) => PrintLong(version) + PrintLP(v)
    case Described(m, v) => PrintMetadata(m) + PrintLP(v)
    case Entries(es) => PrintEntryList(es)
    case Batch(segments, projections, es) =>
      PrintLP(segments) + (PrintCount(|es|) + if es == [] then [] else PrintVInt(projections) + PrintIterEntries(es))
    case Code(u) => PrintFixed(u, 4)
  }

  ghost predicate EntriesFit(es: seq<Entry>) {
    forall i :: 0 <= i < |es| ==> Fits(es[i].key) && Fits(es[i].value)
  }

  ghost predicate BatchFits(es: seq<IterEntry>) {
    forall i :: 0 <= i < |es| ==> Fits(es[i].key) && Fits(es[i].value)
  }

  /** Which body the server sends for an operation and a non-error status. */
  ghost predicate Answers(d: Decoder, status: byte, b: Body) {
    match d
    case NoBody => b.Empty?
    case PreviousValue =>
      if status in {STATUS_SUCCESS_WITH_PREVIOUS, STATUS_NOT_EXEC_WITH_PREVIOUS} then b.Described? && Fits(b.value)
      else b.Empty?
    case RemovedValue => if status == STATUS_SUCCESS_WITH_PREVIOUS then b.Described? && Fits(b.value) else b.Empty?
    case GetValue => if status == STATUS_KEY_DOES_NOT_EXIST then b.Empty? else b.Value? && Fits(b.value)
    case GetWithVersion => if status == STATUS_KEY_DOES_NOT_EXIST then b.Empty? else b.Versioned? && Fits(b.value)
    case GetWithMetadata => if status == STATUS_KEY_DOES_NOT_EXIST then b.Empty? else b.Described? && Fits(b.value)
    case GetAllEntries => b.Entries? && |b.entries| < TWO_31 && EntriesFit(b.entries)
    case IterationNext =>
      if status == STATUS_INVALID_ITERATION then b.Empty?
      else
        && b.Batch? && Fits(b.segments) && |b.batch| < TWO_31 && BatchFits(b.batch)
        && (b.batch == [] ==> b.projections == 0)
    case XaCode => b.Code? && b.high < TWO_32
  }

  function ParseEntry(s: Bytes): Parsed<Entry> {
    var (key, s1) :- ParseLP(s);
    var (value, s2) :- ParseLP(s1);
    Ok(Entry(key, value), s2)
  }

  function ParseEntries(s: Bytes, n: nat): Parsed<seq<Entry>>
    decreases n
  {
    if n == 0 then Ok([], s)
    else
      var (e, s1) :- ParseEntry(s);
      Prepend([e], ParseEntries(s1, n - 1))
  }

  function ParseIterMetadata(s: Bytes): Parsed<Option<Metadata>> {
    var (flag, s1) :- ParseU1(s);
    if flag == 1 then
      var (m, s2) :- ParseMetadata(s1);
      Ok(Some(m), s2)
    else Ok(None, s1)
  }

  function ParseIterEntry(s: Bytes): Parsed<IterEntry> {
    var (m, s1) :- ParseIterMetadata(s);
    var (key, s2) :- ParseLP(s1);
    var (value, s3) :- ParseLP(s2);
    Ok(IterEntry(key, value, m), s3)
  }

  function ParseIterEntries(s: Bytes, n: nat): Parsed<seq<IterEntry>>
    decreases n
  {
    if n == 0 then Ok([], s)
    else
      var (e, s1) :- ParseIterEntry(s);
      Prepend([e], ParseIterEntries(s1, n - 1))
  }

  function ParseDescribed(s: Bytes): Parsed<Body> {
    var (m, s1) :- ParseMetadata(s);
    var (v, s2) :- ParseLP(s1);
    Ok(Described(m, v), s2)
  }

  function ParseEntryList(s: Bytes): Parsed<Body> {
    var (n, s1) :- ParseVInt(s);
    if n < 0 then Fail(NegativeLength, s1)
    else
      var (es, s2) :- ParseEntries(s1, n);
      Ok(Entries(es), s2)
  }

  function ParseBatch(s: Bytes): Parsed<Body> {
    var (segments, s1) :- ParseLP(s);
    var (n, s2) :- ParseVInt(s1);
    if n == 0 then Ok(Batch(segments, 0, []), s2)
    else
      var (projections, s3) :- ParseVInt(s2);
      if n < 0 then Fail(NegativeLength, s3)
      else
        var (es, s4) :- ParseIterEntries(s3, n);
        Ok(Batch(segments, projections, es), s4)
  }

  /** DecodeResponse of the operation that is waiting. */
  function ParseBody(d: Decoder, status: byte, s: Bytes): Parsed<Body> {
    match d
    case NoBody => Ok(Empty, s)
    case PreviousValue =>
      if status in {STATUS_SUCCESS_WITH_PREVIOUS, STATUS_NOT_EXEC_WITH_PREVIOUS} then ParseDescribed(s)
      else Ok(Empty, s)
    case RemovedValue => if status == STATUS_SUCCESS_WITH_PREVIOUS then ParseDescribed(s) else Ok(Empty, s)
    case GetValue =>
      if status == STATUS_KEY_DOES_NOT_EXIST then Ok(Empty, s)
      else
        var (v, s1) :- ParseLP(s);
        Ok(Value(v), s1)
    case GetWithVersion =>
      if status == STATUS_KEY_DOES_NOT_EXIST then Ok(Empty, s)
      else
        var (version, s1) :- ParseLong(s);
        var (v, s2) :- ParseLP(s1);
        Ok(Versioned(version, v), s2)
    case GetWithMetadata => if status == STATUS_KEY_DOES_NOT_EXIST then Ok(Empty, s) else ParseDescribed(s)
    case GetAllEntries => ParseEntryList(s)
    case IterationNext => if status == STATUS_INVALID_ITERATION then Ok(Empty, s) else ParseBatch(s)
    case XaCode =>
      var (u, s1) :- ParseFixed(s, 4);
      Ok(Code(u), s1)
  }

  lemma EntryRoundTrip(e: Entry, tail: Bytes)
    requires Fits(e.key) && Fits(e.value)
    ensures ParseEntry(PrintEntry(e) + tail) == Ok(e, tail)
  {
    Join(PrintLP(e.key), PrintLP(e.value), tail);
    LPRoundTrip(e.key, PrintLP(e.value) + tail);
    LPRoundTrip(e.value, tail);
  }

  lemma {:induction false} EntriesRoundTrip(es: seq<Entry>, tail: Bytes)
    requires EntriesFit(es)
    ensures ParseEntries(PrintEntries(es) + tail, |es|) == Ok(es, tail)
  {
    if es == [] {
      assert PrintEntries(es) + tail == tail;
    } else {
      var s1 := PrintEntries(es[1..]) + tail;
      Join(PrintEntry(es[0]), PrintEntries(es[1..]), tail);
      EntryRoundTrip(es[0], s1);
      EntriesRoundTrip(es[1..], tail);
      assert [es[0]] + es[1..] == es;
    }
  }

  lemma IterMetadataRoundTrip(m: Option<Metadata>, tail: Bytes)
    ensures ParseIterMetadata(PrintIterMetadata(m) + tail) == Ok(m, tail)
  {
    if m.Some? {
      Join([1], PrintMetadata(m.value), tail);
      U1RoundTrip(1, PrintMetadata(m.value) + tail);
      MetadataRoundTrip(m.value, tail);
    } else {
      U1RoundTrip(0, tail);
    }
  }

  lemma IterEntryRoundTrip(e: IterEntry, tail: Bytes)
    requires Fits(e.key) && Fits(e.value)
    ensures ParseIterEntry(PrintIterEntry(e) + tail) == Ok(e, tail)
  {
    var s2 := PrintLP(e.value) + tail;
    var s1 := PrintLP(e.key) + s2;
    Join(PrintIterMetadata(e.metadata), PrintLP(e.key) + PrintLP(e.value), tail);
    Join(PrintLP(e.key), PrintLP(e.value), tail);
    IterMetadataRoundTrip(e.metadata, s1);
    LPRoundTrip(e.key, s2);
    LPRoundTrip(e.value, tail);
  }

  lemma {:induction false} IterEntriesRoundTrip(es: seq<IterEntry>, tail: Bytes)
    requires BatchFits(es)
    ensures ParseIterEntries(PrintIterEntries(es) + tail, |es|) == Ok(es, tail)
  {
    if es == [] {
      assert PrintIterEntries(es) + tail == tail;
    } else {
      var s1 := PrintIterEntries(es[1..]) + tail;
      Join(PrintIterEntry(es[0]), PrintIterEntries(es[1..]), tail);
      IterEntryRoundTrip(es[0], s1);
      IterEntriesRoundTrip(es[1..], tail);
      assert [es[0]] + es[1..] == es;
    }
  }

  lemma DescribedRoundTrip(m: Metadata, v: Bytes, tail: Bytes)
    requires Fits(v)
    ensures ParseDescribed(PrintBody(Described(m, v)) + tail) == Ok(Described(m, v), tail)
  {
    var s1 := PrintLP(v) + tail;
    assert PrintBody(Described(m, v)) + tail == PrintMetadata(m) + s1;
    MetadataRoundTrip(m, s1);
    LPRoundTrip(v, tail);
  }

  lemma BatchRoundTrip(b: Body, tail: Bytes)
    requires b.Batch? && Fits(b.segments) && |b.batch| < TWO_31 && BatchFits(b.batch)
    requires b.batch == [] ==> b.projections == 0
    ensures ParseBatch(PrintBody(b) + tail) == Ok(b, tail)
  {
    var s3 := PrintIterEntries(b.batch) + tail;
    var s2 := if b.batch == [] then tail else PrintVInt(b.projections) + s3;
    var s1 := PrintCount(|b.batch|) + s2;
    assert PrintBody(b) + tail == PrintLP(b.segments) + s1;
    LPRoundTrip(b.segments, s1);
    CountRoundTrip(|b.batch|, s2);
    if b.batch != [] {
      VIntRoundTrip(b.projections, s3);
      IterEntriesRoundTrip(b.batch, tail);
    }
  }

  lemma EntryListRoundTrip(es: seq<Entry>, tail: Bytes)
    requires |es| < TWO_31 && EntriesFit(es)
    ensures ParseEntryList(PrintEntryList(es) + tail) == Ok(Entries(es), tail)
  {
    var s1 := PrintEntries(es) + tail;
    Join(PrintCount(|es|), PrintEntries(es), tail);
    CountRoundTrip(|es|, s1);
    EntriesRoundTrip(es, tail);
    EntryListStep(PrintEntryList(es) + tail, s1, es, tail);
  }

  lemma EntryListStep(s: Bytes, s1: Bytes, es: seq<Entry>, rest: Bytes)
    requires ParseVInt(s) == Ok(|es|, s1) && ParseEntries(s1, |es|) == Ok(es, rest)
    ensures ParseEntryList(s) == Ok(Entries(es), rest)
  {
  }

  /** Every decoder reads exactly the body its operation is answered with, optional fields included. */
  lemma BodyRoundTrip(d: Decoder, status: byte, b: Body, tail: Bytes)
    requires Answers(d, status, b)
    ensures ParseBody(d, status, PrintBody(b) + tail) == Ok(b, tail)
  {
    match b {
      case Empty => assert PrintBody(b) + tail == tail;
      case Value(v) => LPRoundTrip(v, tail);
      case Versioned(version, v) =>
        assert PrintBody(b) + tail == PrintLong(version) + (PrintLP(v) + tail);
        LongRoundTrip(version, PrintLP(v) + tail);
        LPRoundTrip(v, tail);
      case Described(m, v) => DescribedRoundTrip(m, v, tail);
      case Entries(es) => EntryListRoundTrip(es, tail);
      case Batch(_, _, _) => BatchRoundTrip(b, tail);
      case Code(u) =>
        Widths();
        FixedRoundTrip(u, 4, tail);
    }
  }

  // ---------- event bodies ----------

  predicate CarriesVersion(opCode: byte) {
    opCode == OP_ENTRY_CREATED || opCode == OP_ENTRY_MODIFIED
  }

  /** What follows the listener ID of an entry event; `retried` is read and ignored. */
  datatype EventBody =
    | Custom(mark: byte, retried: byte, data: Bytes)
    | Plain(retried: byte, key: Bytes, version: Option<int64>)

  ghost predicate IsEventBody(opCode: byte, e: EventBody) {
    match e
    case Custom(mark, _, data) => mark != 0 && Fits(data)
    case Plain(_, key, version) => Fits(key) && (version.Some? <==> CarriesVersion(opCode))
  }

  function PrintEvent(e: EventBody): Bytes {
    match e
    case Custom(mark, retried, data) => [mark] + ([retried] + PrintLP(data))
    case Plain(retried, key, version) =>
      [0] + ([retried] + (PrintLP(key) + if version.Some? then PrintLong(version.value) else []))
  }

  /** DecodeEventBody: only created and modified events carry a version. */
  function ParseEvent(opCode: byte, s: Bytes): Parsed<EventBody> {
    var (mark, s1) :- ParseU1(s);
    var (retried, s2) :- ParseU1(s1);
    var (data, s3) :- ParseLP(s2);
    if mark != 0 then Ok(Custom(mark, retried, data), s3)
    else if CarriesVersion(opCode) then
      var (version, s4) :- ParseLong(s3);
      Ok(Plain(retried, data, Some(version)), s4)
    else Ok(Plain(retried, data, None), s3)
  }

  /**
   * SkipEventBody: its event type starts as "created" and no case sets it for removed and expired events, so
   * a version is skipped after every event that is not custom.
   */
  function SkipEvent(s: Bytes): Parsed<byte> {
    var (mark, s1) :- ParseU1(s);
    var (_, s2) :- ParseU1(s1);
    var (_, s3) :- ParseLP(s2);
    if mark != 0 then Ok(mark, s3)
    else
      var (_, s4) :- ParseLong(s3);
      Ok(mark, s4)
  }

  lemma EventRoundTrip(opCode: byte, e: EventBody, tail: Bytes)
    requires IsEventBody(opCode, e)
    ensures ParseEvent(opCode, PrintEvent(e) + tail) == Ok(e, tail)
  {
    var mark := if e.Custom? then e.mark else 0;
    var data := if e.Custom? then e.data else e.key;
    var s3 := (if e.Plain? && e.version.Some? then PrintLong(e.version.value) else []) + tail;
    var s2 := PrintLP(data) + s3;
    var s1 := [e.retried] + s2;
    assert PrintEvent(e) + tail == [mark] + s1;
    U1RoundTrip(mark, s1);
    U1RoundTrip(e.retried, s2);
    LPRoundTrip(data, s3);
    if e.Plain? && e.version.Some? {
      LongRoundTrip(e.version.value, tail);
    } else {
      assert s3 == tail;
    }
  }

  /** Skipping an event ends at its last byte, except that it eats eight bytes too many without a version. */
  lemma SkipEventRest(opCode: byte, e: EventBody, tail: Bytes)
    requires IsEventBody(opCode, e)
    ensures var r := SkipEvent(PrintEvent(e) + tail);
            if e.Custom? || CarriesVersion(opCode) then r.Ok? && r.rest == tail
            else if |tail| < 8 then r == Fail(EndOfStream, []) else r.Ok? && r.rest == tail[8..]
  {
    var mark := if e.Custom? then e.mark else 0;
    var data := if e.Custom? then e.data else e.key;
    var s3 := (if e.Plain? && e.version.Some? then PrintLong(e.version.value) else []) + tail;
    var s2 := PrintLP(data) + s3;
    var s1 := [e.retried] + s2;
    assert PrintEvent(e) + tail == [mark] + s1;
    U1RoundTrip(mark, s1);
    U1RoundTrip(e.retried, s2);
    LPRoundTrip(data, s3);
    if e.Plain? && e.version.Some? {
      LongRoundTrip(e.version.value, tail);
    } else {
      assert s3 == tail;
    }
  }

  datatype CounterEvent = CounterEvent(name: Bytes, listener: Bytes, states: byte, oldValue: int64, newValue: int64)

  function PrintCounterEvent(e: CounterEvent): Bytes {
    PrintLP(e.name) + PrintLP(e.listener) + [e.states] + PrintLong(e.oldValue) + PrintLong(e.newValue)
  }

  function ParseCounterEvent(s: Bytes): Parsed<CounterEvent> {
    var (name, s1) :- ParseLP(s);
    var (listener, s2) :- ParseLP(s1);
    var (states, s3) :- ParseU1(s2);
    var (oldValue, s4) :- ParseLong(s3);
    var (newValue, s5) :- ParseLong(s4);
    Ok(CounterEvent(name, listener, states, oldValue, newValue), s5)
  }

  lemma CounterEventRoundTrip(e: CounterEvent, tail: Bytes)
    requires Fits(e.name) && Fits(e.listener)
    ensures ParseCounterEvent(PrintCounterEvent(e) + tail) == Ok(e, tail)
  {
    var s4 := PrintLong(e.newValue) + tail;
    var s3 := PrintLong(e.oldValue) + s4;
    var s2 := [e.states] + s3;
    var s1 := PrintLP(e.listener) + s2;
    assert PrintCounterEvent(e) + tail == PrintLP(e.name) + s1;
    LPRoundTrip(e.name, s1);
    LPRoundTrip(e.listener, s2);
    U1RoundTrip(e.states, s3);
    LongRoundTrip(e.oldValue, s4);
    LongRoundTrip(e.newValue, tail);
  }
}
