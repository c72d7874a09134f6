/**
 * When the read loop panics (internal/codec/wire.go, header.go and the decoders): it asks for a slice of negative
 * length exactly where it reads a negative length of bytes, or a negative count of servers, segments or entries.
 */
module Panics {
  import opened Words
  import opened Varint
  import opened Wire
  import opened Headers
  import B = Bodies
  import F = Framing

  predicate Panicked<T>(p: Parsed<T>) {
    p.Fail? && p.error == NegativeLength
  }

  /** The next number is a negative one. */
  predicate NegativeAhead(s: Bytes) {
    ParseVInt(s).Ok? && ParseVInt(s).value < 0
  }

  // ---------- where each part may meet a negative length or count ----------

  predicate EntryPanics(s: Bytes) {
    NegativeAhead(s) || (ParseLP(s).Ok? && NegativeAhead(ParseLP(s).rest))
  }

  predicate EntriesPanic(s: Bytes, n: nat)
    decreases n
  {
    n > 0 && (EntryPanics(s) || (B.ParseEntry(s).Ok? && EntriesPanic(B.ParseEntry(s).rest, n - 1)))
  }

  /** The optional metadata holds no length. */
  predicate IterEntryPanics(s: Bytes) {
    B.ParseIterMetadata(s).Ok? && EntryPanics(B.ParseIterMetadata(s).rest)
  }

  predicate IterEntriesPanic(s: Bytes, n: nat)
    decreases n
  {
    n > 0 && (IterEntryPanics(s) || (B.ParseIterEntry(s).Ok? && IterEntriesPanic(B.ParseIterEntry(s).rest, n - 1)))
  }

  /** The count of entries, and then each entry; the count of projections may be negative. */
  predicate BatchPanics(s: Bytes) {
    || NegativeAhead(s)
    || (ParseLP(s).Ok? && ParseVInt(ParseLP(s).rest).Ok? &&
        var n := ParseVInt(ParseLP(s).rest);
        && n.value != 0 && ParseVInt(n.rest).Ok?
        && (n.value < 0 || IterEntriesPanic(ParseVInt(n.rest).rest, n.value)))
  }

  predicate DescribedPanics(s: Bytes) {
    B.ParseMetadata(s).Ok? && NegativeAhead(B.ParseMetadata(s).rest)
  }

  predicate EntryListPanics(s: Bytes) {
    ParseVInt(s).Ok? && (ParseVInt(s).value < 0 || EntriesPanic(ParseVInt(s).rest, ParseVInt(s).value))
  }

  /** By operation and status: empty bodies and transaction codes have nothing to panic on. */
  predicate BodyPanics(d: B.Decoder, status: byte, s: Bytes) {
    match d
    case NoBody => false
    case PreviousValue =>
      status in {B.STATUS_SUCCESS_WITH_PREVIOUS, B.STATUS_NOT_EXEC_WITH_PREVIOUS} && DescribedPanics(s)
    case RemovedValue => status == B.STATUS_SUCCESS_WITH_PREVIOUS && DescribedPanics(s)
    case GetValue => status != B.STATUS_KEY_DOES_NOT_EXIST && NegativeAhead(s)
    case GetWithVersion =>
      status != B.STATUS_KEY_DOES_NOT_EXIST && ParseLong(s).Ok? && NegativeAhead(ParseLong(s).rest)
    case GetWithMetadata => status != B.STATUS_KEY_DOES_NOT_EXIST && DescribedPanics(s)
    case GetAllEntries => EntryListPanics(s)
    case IterationNext => status != B.STATUS_INVALID_ITERATION && BatchPanics(s)
    case XaCode => false
  }

  /** An entry event's only other length is that of its key or data, skipped or not. */
  predicate EventPanics(s: Bytes) {
    ParseU1(s).Ok? && ParseU1(ParseU1(s).rest).Ok? && NegativeAhead(ParseU1(ParseU1(s).rest).rest)
  }

  predicate EventRoundPanics(opCode: byte, s: Bytes) {
    if opCode == B.OP_COUNTER_EVENT then EntryPanics(s)
    else NegativeAhead(s) || (ParseLP(s).Ok? && EventPanics(ParseLP(s).rest))
  }

  predicate ResponsePanics(h: Header, s: Bytes, pending: F.Pending) {
    && h.messageId in pending
    && if F.IsError(h.status) then NegativeAhead(s) else BodyPanics(pending[h.messageId], h.status, s)
  }

  predicate ServersPanic(s: Bytes, n: nat)
    decreases n
  {
    n > 0 && (NegativeAhead(s) || (ParseServer(s).Ok? && ServersPanic(ParseServer(s).rest, n - 1)))
  }

  /** The count of segments matters only with a hash function; counts of owners are single bytes. */
  predicate HashPanics(s: Bytes) {
    ParseU1(s).Ok? && ParseU1(s).value != 0 && NegativeAhead(ParseU1(s).rest)
  }

  predicate TopologyPanics(s: Bytes, intelligence: byte) {
    && ParseVInt(s).Ok? && ParseVInt(ParseVInt(s).rest).Ok?
    && var n := ParseVInt(ParseVInt(s).rest);
    && (|| n.value < 0
        || ServersPanic(n.rest, n.value)
        || (intelligence == HASH_DIST_AWARE && ParseServers(n.rest, n.value).Ok? &&
            HashPanics(ParseServers(n.rest, n.value).rest)))
  }

  /** A header panics only over a topology update, which is announced by its last fixed byte. */
  predicate HeaderPanics(s: Bytes, intelligence: byte) {
    && ParseU1(s).Ok? && ParseU1(s).value == RESPONSE_MAGIC
    && var id := ParseVLong(ParseU1(s).rest);
    && id.Ok? && ParseU1(id.rest).Ok? && ParseU1(ParseU1(id.rest).rest).Ok?
    && var marker := ParseU1(ParseU1(ParseU1(id.rest).rest).rest);
    && marker.Ok? && marker.value != 0 && TopologyPanics(marker.rest, intelligence)
  }

  // ---------- the parsers agree ----------

  lemma {:induction false} NumbersDoNotPanic(s: Bytes, budget: nat)
    ensures !Panicked(Parse(s, budget))
  {
    if budget > 0 && s != [] && s[0] >= 0x80 {
      NumbersDoNotPanic(s[1..], budget - 1);
    }
  }

  lemma FixedPartsDoNotPanic(s: Bytes)
    ensures !Panicked(ParseVInt(s)) && !Panicked(ParseVLong(s)) && !Panicked(ParseLong(s)) && !Panicked(ParseU1(s))
    ensures !Panicked(ParseFixed(s, 2)) && !Panicked(ParseFixed(s, 4))
  {
    NumbersDoNotPanic(s, 5);
    NumbersDoNotPanic(s, 9);
  }

  lemma LengthPanicsIff(s: Bytes)
    ensures Panicked(ParseLP(s)) <==> NegativeAhead(s)
  {
    FixedPartsDoNotPanic(s);
  }

  lemma EntryPanicsIff(s: Bytes)
    ensures Panicked(B.ParseEntry(s)) <==> EntryPanics(s)
  {
    LengthPanicsIff(s);
    LengthPanicsIff(ParseLP(s).rest);
  }

  lemma EntriesStep(s: Bytes, n: nat)
    requires n > 0
    ensures Panicked(B.ParseEntries(s, n)) <==>
            var p := B.ParseEntry(s); Panicked(p) || (p.Ok? && Panicked(B.ParseEntries(p.rest, n - 1)))
  {
  }

  lemma {:induction false} EntriesPanicIff(s: Bytes, n: nat)
    ensures Panicked(B.ParseEntries(s, n)) <==> EntriesPanic(s, n)
    decreases n
  {
    if n > 0 {
      EntryPanicsIff(s);
      EntriesStep(s, n);
      EntriesPanicIff(B.ParseEntry(s).rest, n - 1);
    }
  }

  lemma MetadataDoesNotPanic(s: Bytes)
    ensures !Panicked(B.ParseMetadata(s)) && !Panicked(B.ParseIterMetadata(s))
  {
    LimitsDoNotPanic(s);
    if s != [] {
      LimitsDoNotPanic(s[1..]);
    }
  }

  lemma LimitDoesNotPanic(s: Bytes, infinite: bool)
    ensures !Panicked(B.ParseLimit(s, infinite))
  {
    FixedPartsDoNotPanic(s);
    FixedPartsDoNotPanic(ParseLong(s).rest);
  }

  lemma LimitsDoNotPanic(s: Bytes)
    ensures !Panicked(B.ParseMetadata(s))
  {
    FixedPartsDoNotPanic(s);
    var p1 := ParseU1(s);
    if p1.Ok? {
      LimitDoesNotPanic(p1.rest, HasBit(p1.value, 1));
      var p2 := B.ParseLimit(p1.rest, HasBit(p1.value, 1));
      LimitDoesNotPanic(p2.rest, HasBit(p1.value, 2));
      FixedPartsDoNotPanic(B.ParseLimit(p2.rest, HasBit(p1.value, 2)).rest);
    }
  }

  lemma IterEntryPanicsIff(s: Bytes)
    ensures Panicked(B.ParseIterEntry(s)) <==> IterEntryPanics(s)
  {
    MetadataDoesNotPanic(s);
    EntryPanicsIff(B.ParseIterMetadata(s).rest);
  }

  lemma IterEntriesStep(s: Bytes, n: nat, p: Parsed<B.IterEntry>)
    requires n > 0 && p == B.ParseIterEntry(s)
    ensures Panicked(B.ParseIterEntries(s, n)) <==>
            Panicked(p) || (p.Ok? && Panicked(B.ParseIterEntries(p.rest, n - 1)))
  {
  }

  lemma IterEntriesPanicStep(s: Bytes, n: nat, p: Parsed<B.IterEntry>)
    requires n > 0 && p == B.ParseIterEntry(s)
    ensures IterEntriesPanic(s, n) <==> IterEntryPanics(s) || (p.Ok? && IterEntriesPanic(p.rest, n - 1))
  {
  }

  lemma {:induction false} IterEntriesPanicIff(s: Bytes, n: nat)
    ensures Panicked(B.ParseIterEntries(s, n)) <==> IterEntriesPanic(s, n)
    decreases n
  {
    if n > 0 {
      var p := B.ParseIterEntry(s);
      IterEntryPanicsIff(s);
      IterEntriesStep(s, n, p);
      IterEntriesPanicStep(s, n, p);
      IterEntriesPanicIff(p.rest, n - 1);
    }
  }

  lemma BatchPanicsIff(s: Bytes)
    ensures Panicked(B.ParseBatch(s)) <==> BatchPanics(s)
  {
    LengthPanicsIff(s);
    var n := ParseVInt(ParseLP(s).rest);
    FixedPartsDoNotPanic(ParseLP(s).rest);
    FixedPartsDoNotPanic(n.rest);
    if n.Ok? && n.value >= 0 {
      IterEntriesPanicIff(ParseVInt(n.rest).rest, n.value);
    }
  }

  lemma DescribedPanicsIff(s: Bytes)
    ensures Panicked(B.ParseDescribed(s)) <==> DescribedPanics(s)
  {
    MetadataDoesNotPanic(s);
    LengthPanicsIff(B.ParseMetadata(s).rest);
  }

  lemma EntryListPanicsIff(s: Bytes)
    ensures Panicked(B.ParseEntryList(s)) <==> EntryListPanics(s)
  {
    FixedPartsDoNotPanic(s);
    var n := ParseVInt(s);
    if n.Ok? && n.value >= 0 {
      EntriesPanicIff(n.rest, n.value);
    }
  }

  lemma BodyPanicsIff(d: B.Decoder, status: byte, s: Bytes)
    ensures Panicked(B.ParseBody(d, status, s)) <==> BodyPanics(d, status, s)
  {
    FixedPartsDoNotPanic(s);
    match d {
      case PreviousValue => DescribedPanicsIff(s);
      case RemovedValue => DescribedPanicsIff(s);
      case GetValue => LengthPanicsIff(s);
      case GetWithVersion => LengthPanicsIff(ParseLong(s).rest);
      case GetWithMetadata => DescribedPanicsIff(s);
      case GetAllEntries => EntryListPanicsIff(s);
      case IterationNext => BatchPanicsIff(s);
      case _ =>
    }
  }

  lemma EventPanicsIff(opCode: byte, s: Bytes)
    ensures Panicked(B.ParseEvent(opCode, s)) <==> EventPanics(s)
    ensures Panicked(B.SkipEvent(s)) <==> EventPanics(s)
  {
    FixedPartsDoNotPanic(s);
    FixedPartsDoNotPanic(ParseU1(s).rest);
    var s2 := ParseU1(ParseU1(s).rest).rest;
    LengthPanicsIff(s2);
    FixedPartsDoNotPanic(ParseLP(s2).rest);
  }

  lemma CounterEventPanicsIff(s: Bytes)
    ensures Panicked(B.ParseCounterEvent(s)) <==> EntryPanics(s)
  {
    LengthPanicsIff(s);
    var s1 := ParseLP(s).rest;
    LengthPanicsIff(s1);
    var s2 := ParseLP(s1).rest;
    FixedPartsDoNotPanic(s2);
    var s3 := ParseU1(s2).rest;
    FixedPartsDoNotPanic(s3);
    FixedPartsDoNotPanic(ParseLong(s3).rest);
  }

  lemma EventRoundPanicsIff(h: Header, s: Bytes, listeners: set<Bytes>)
    ensures Panicked(F.EventRound(h, s, listeners)) <==> EventRoundPanics(h.opCode, s)
  {
    CounterEventPanicsIff(s);
    LengthPanicsIff(s);
    EventPanicsIff(h.opCode, ParseLP(s).rest);
  }

  lemma ResponsePanicsIff(h: Header, s: Bytes, pending: F.Pending)
    ensures Panicked(F.ResponseRound(h, s, pending)) <==> ResponsePanics(h, s, pending)
  {
    LengthPanicsIff(s);
    if h.messageId in pending {
      BodyPanicsIff(pending[h.messageId], h.status, s);
    }
  }

  lemma {:induction false} ServersPanicIff(s: Bytes, n: nat)
    ensures Panicked(ParseServers(s, n)) <==> ServersPanic(s, n)
    decreases n
  {
    if n > 0 {
      LengthPanicsIff(s);
      FixedPartsDoNotPanic(ParseLP(s).rest);
      ServersPanicIff(ParseServer(s).rest, n - 1);
    }
  }

  lemma {:induction false} IndicesDoNotPanic(s: Bytes, n: nat)
    ensures !Panicked(ParseIndices(s, n))
    decreases n
  {
    if n > 0 {
      FixedPartsDoNotPanic(s);
      IndicesDoNotPanic(ParseVInt(s).rest, n - 1);
    }
  }

  lemma {:induction false} SegmentsDoNotPanic(s: Bytes, n: nat)
    ensures !Panicked(ParseSegments(s, n))
    decreases n
  {
    if n > 0 {
      FixedPartsDoNotPanic(s);
      var p := ParseU1(s);
      if p.Ok? {
        IndicesDoNotPanic(p.rest, p.value);
        SegmentsDoNotPanic(ParseIndices(p.rest, p.value).rest, n - 1);
      }
    }
  }

  lemma HashPanicsIff(s: Bytes, id: int32, servers: seq<ServerAddress>)
    ensures Panicked(ParseHash(s, id, servers)) <==> HashPanics(s)
  {
    FixedPartsDoNotPanic(s);
    FixedPartsDoNotPanic(ParseU1(s).rest);
    var n := ParseVInt(ParseU1(s).rest);
    if n.Ok? && n.value >= 0 {
      SegmentsDoNotPanic(n.rest, n.value);
    }
  }

  lemma TopologyPanicsIff(s: Bytes, intelligence: byte)
    ensures Panicked(ParseTopology(s, intelligence)) <==> TopologyPanics(s, intelligence)
  {
    FixedPartsDoNotPanic(s);
    var id := ParseVInt(s);
    FixedPartsDoNotPanic(id.rest);
    var n := ParseVInt(id.rest);
    if id.Ok? && n.Ok? && n.value >= 0 {
      ServersPanicIff(n.rest, n.value);
      var servers := ParseServers(n.rest, n.value);
      if servers.Ok? {
        HashPanicsIff(servers.rest, id.value, servers.value);
      }
    }
  }

  lemma HeaderPanicsIff(s: Bytes, intelligence: byte)
    ensures Panicked(ParseHeader(s, intelligence)) <==> HeaderPanics(s, intelligence)
  {
    FixedPartsDoNotPanic(s);
    var magic := ParseU1(s);
    if magic.Ok? && magic.value == RESPONSE_MAGIC {
      FixedPartsDoNotPanic(magic.rest);
      var id := ParseVLong(magic.rest);
      if id.Ok? {
        FixedPartsDoNotPanic(id.rest);
        var s3 := ParseU1(id.rest).rest;
        FixedPartsDoNotPanic(s3);
        var s4 := ParseU1(s3).rest;
        FixedPartsDoNotPanic(s4);
        TopologyPanicsIff(ParseU1(s4).rest, intelligence);
      }
    }
  }

  /** A round panics exactly over a negative length or count, whoever is waiting; it copes with every other error. */
  lemma RoundPanicsIff(s: Bytes, intelligence: byte, pending: F.Pending, listeners: set<Bytes>)
    ensures Panicked(F.ReadOne(s, intelligence, pending, listeners)) <==>
            || HeaderPanics(s, intelligence)
            || (ParseHeader(s, intelligence).Ok? &&
                var p := ParseHeader(s, intelligence);
                if F.IsEvent(p.value.opCode) then EventRoundPanics(p.value.opCode, p.rest)
                else ResponsePanics(p.value, p.rest, pending))
  {
    HeaderPanicsIff(s, intelligence);
    var p := ParseHeader(s, intelligence);
    if p.Ok? {
      EventRoundPanicsIff(p.value, p.rest, listeners);
      ResponsePanicsIff(p.value, p.rest, pending);
    }
  }

  /** Such a frame: whatever its header, an answer to a pending Get whose value has length -1. */
  lemma NegativeLengthPanics(h: Header, intelligence: byte, pending: F.Pending, listeners: set<Bytes>, tail: Bytes)
    requires Printable(h, intelligence) && !F.IsEvent(h.opCode) && !F.IsError(h.status)
    requires h.status != B.STATUS_KEY_DOES_NOT_EXIST
    requires h.messageId in pending && pending[h.messageId] == B.GetValue
    ensures Panicked(F.ReadOne(PrintHeader(h, intelligence) + (PrintVInt(-1) + tail), intelligence, pending, listeners))
  {
    var body := PrintVInt(-1) + tail;
    HeaderRoundTrip(h, intelligence, body);
    VIntRoundTrip(-1, tail);
    RoundPanicsIff(PrintHeader(h, intelligence) + body, intelligence, pending, listeners);
  }
}
