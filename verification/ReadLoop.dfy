/**
 * The read loop's methods (internal/connection/conn.go and the decoders of internal/operation), each reading
 * step by step from the connection's stream.
 */
module ReadLoop {
  import opened Wrappers
  import opened Words
  import opened Varint
  import opened Wire
  import opened Streams
  import opened Headers
  import opened Bodies
  import F = Framing

  method ReadLimit(r: Reader, infinite: bool) returns (o: Outcome<Option<Limit>>)
    modifies r
    ensures Seen(o, r.rest) == ParseLimit(old(r.rest), infinite)
  {
    if infinite {
      return Got(None);
    }
    var since :- r.ReadLong();
    var seconds :- r.ReadVInt();
    o := Got(Some(Limit(since, seconds)));
  }

  method ReadMetadata(r: Reader) returns (o: Outcome<Metadata>)
    modifies r
    ensures Seen(o, r.rest) == ParseMetadata(old(r.rest))
  {
    var flags :- r.ReadU1();
    var lifespan :- ReadLimit(r, HasBit(flags, 1));
    var maxIdle :- ReadLimit(r, HasBit(flags, 2));
    var version :- r.ReadLong();
    o := Got(Metadata(lifespan, maxIdle, version));
  }

  method ReadDescribed(r: Reader) returns (o: Outcome<Body>)
    modifies r
    ensures Seen(o, r.rest) == ParseDescribed(old(r.rest))
  {
    var m :- ReadMetadata(r);
    var v :- r.ReadLPBytes();
    o := Got(Described(m, v));
  }

  method ReadEntry(r: Reader) returns (o: Outcome<Entry>)
    modifies r
    ensures Seen(o, r.rest) == ParseEntry(old(r.rest))
  {
    var key :- r.ReadLPBytes();
    var value :- r.ReadLPBytes();
    o := Got(Entry(key, value));
  }

  method ReadEntries(r: Reader, n: nat) returns (o: Outcome<seq<Entry>>)
    modifies r
    ensures Seen(o, r.rest) == ParseEntries(old(r.rest), n)
  {
    var entries := [];
    PrependToNone(ParseEntries(r.rest, n));
    for i := 0 to n
      invariant ParseEntries(old(r.rest), n) == Prepend(entries, ParseEntries(r.rest, n - i))
    {
      ghost var before := entries;
      var e :- ReadEntry(r);
      entries := entries + [e];
      PrependTwice(before, [e], ParseEntries(r.rest, n - i - 1));
    }
    PrependNothing(entries, r.rest);
    o := Got(entries);
  }

  method ReadEntryList(r: Reader) returns (o: Outcome<Body>)
    modifies r
    ensures Seen(o, r.rest) == ParseEntryList(old(r.rest))
  {
    var n :- r.ReadVInt();
    if n < 0 {
      return Err(NegativeLength);
    }
    var entries :- ReadEntries(r, n);
    o := Got(Entries(entries));
  }

  method ReadIterMetadata(r: Reader) returns (o: Outcome<Option<Metadata>>)
    modifies r
    ensures Seen(o, r.rest) == ParseIterMetadata(old(r.rest))
  {
    var flag :- r.ReadU1();
    if flag != 1 {
      return Got(None);
    }
    var m :- ReadMetadata(r);
    o := Got(Some(m));
  }

  method ReadIterEntry(r: Reader) returns (o: Outcome<IterEntry>)
    modifies r
    ensures Seen(o, r.rest) == ParseIterEntry(old(r.rest))
  {
    var m :- ReadIterMetadata(r);
    var key :- r.ReadLPBytes();
    var value :- r.ReadLPBytes();
    o := Got(IterEntry(key, value, m));
  }

  lemma IterStep(s: Bytes, n: nat)
    requires n > 0
    ensures ParseIterEntry(s).Fail? ==>
              ParseIterEntries(s, n) == Fail(ParseIterEntry(s).error, ParseIterEntry(s).rest)
    ensures ParseIterEntry(s).Ok? ==>
              var e := ParseIterEntry(s);
              ParseIterEntries(s, n) == Prepend([e.value], ParseIterEntries(e.rest, n - 1))
  {
  }

  method ReadIterEntries(r: Reader, n: nat) returns (o: Outcome<seq<IterEntry>>)
    modifies r
    ensures Seen(o, r.rest) == ParseIterEntries(old(r.rest), n)
  {
    var entries := [];
    PrependToNone(ParseIterEntries(r.rest, n));
    for i := 0 to n
      invariant ParseIterEntries(old(r.rest), n) == Prepend(entries, ParseIterEntries(r.rest, n - i))
    {
      ghost var before, s := entries, r.rest;
      IterStep(s, n - i);
      var e :- ReadIterEntry(r);
      entries := entries + [e];
      PrependTwice(before, [e], ParseIterEntries(r.rest, n - i - 1));
    }
    PrependNothing(entries, r.rest);
    o := Got(entries);
  }

  method ReadBatch(r: Reader) returns (o: Outcome<Body>)
    modifies r
    ensures Seen(o, r.rest) == ParseBatch(old(r.rest))
  {
    var segments :- r.ReadLPBytes();
    var n :- r.ReadVInt();
    if n == 0 {
      return Got(Batch(segments, 0, []));
    }
    var projections :- r.ReadVInt();
    if n < 0 {
      return Err(NegativeLength);
    }
    var entries :- ReadIterEntries(r, n);
    o := Got(Batch(segments, projections, entries));
  }

  method DecodeResponse(d: Decoder, status: byte, r: Reader) returns (o: Outcome<Body>)
    modifies r
    ensures Seen(o, r.rest) == ParseBody(d, status, old(r.rest))
  {
    match d {
      case NoBody => o := Got(Empty);
      case PreviousValue =>
        if status == STATUS_SUCCESS_WITH_PREVIOUS || status == STATUS_NOT_EXEC_WITH_PREVIOUS {
          o := ReadDescribed(r);
        } else {
          o := Got(Empty);
        }
      case RemovedValue =>
        if status == STATUS_SUCCESS_WITH_PREVIOUS { o := ReadDescribed(r); } else { o := Got(Empty); }
      case GetValue =>
        if status == STATUS_KEY_DOES_NOT_EXIST {
          return Got(Empty);
        }
        var v :- r.ReadLPBytes();
        o := Got(Value(v));
      case GetWithVersion =>
        if status == STATUS_KEY_DOES_NOT_EXIST {
          return Got(Empty);
        }
        var version :- r.ReadLong();
        var v :- r.ReadLPBytes();
        o := Got(Versioned(version, v));
      case GetWithMetadata =>
        if status == STATUS_KEY_DOES_NOT_EXIST { o := Got(Empty); } else { o := ReadDescribed(r); }
      case GetAllEntries => o := ReadEntryList(r);
      case IterationNext =>
        if status == STATUS_INVALID_ITERATION { o := Got(Empty); } else { o := ReadBatch(r); }
      case XaCode =>
        var b :- r.ReadFull(4);
        o := Got(Code(FixedValue(b)));
    }
  }

  method DecodeEventBody(opCode: byte, r: Reader) returns (o: Outcome<EventBody>)
    modifies r
    ensures Seen(o, r.rest) == ParseEvent(opCode, old(r.rest))
  {
    var isCustom :- r.ReadU1();
    var retried :- r.ReadU1();
    if isCustom != 0 {
      var data :- r.ReadLPBytes();
      return Got(Custom(isCustom, retried, data));
    }
    var key :- r.ReadLPBytes();
    if opCode == OP_ENTRY_CREATED || opCode == OP_ENTRY_MODIFIED {
      var version :- r.ReadLong();
      return Got(Plain(retried, key, Some(version)));
    }
    o := Got(Plain(retried, key, None));
  }

  datatype EventType = EventCreated | EventModified | EventRemoved | EventExpired

  /** The source drops the errors; only a panic matters to the caller. */
  method SkipEventBody(opCode: byte, r: Reader) returns (o: Outcome<byte>)
    modifies r
    ensures Seen(o, r.rest) == SkipEvent(old(r.rest))
  {
    var isCustom :- r.ReadU1();
    var retried :- r.ReadU1();
    var data :- r.ReadLPBytes();
    if isCustom != 0 {
      return Got(isCustom);
    }
    var evType := EventCreated;
    if opCode == OP_ENTRY_CREATED {
      evType := EventCreated;
    } else if opCode == OP_ENTRY_MODIFIED {
      evType := EventModified;
    }
    if evType == EventCreated || evType == EventModified {
      var version :- r.ReadLong();
    }
    o := Got(isCustom);
  }

  method DecodeCounterEventBody(r: Reader) returns (o: Outcome<CounterEvent>)
    modifies r
    ensures Seen(o, r.rest) == ParseCounterEvent(old(r.rest))
  {
    var name :- r.ReadLPBytes();
    var listener :- r.ReadLPBytes();
    var states :- r.ReadU1();
    var oldValue :- r.ReadLong();
    var newValue :- r.ReadLong();
    o := Got(CounterEvent(name, listener, states, oldValue, newValue));
  }

  /** The parts of a connection its read loop works on; other goroutines change them between rounds. */
  class Conn {
    const intelligence: byte
    var pending: F.Pending
    var listeners: set<Bytes>
    var draining: bool
    var topologyID: int32

    constructor (clientIntelligence: byte)
      ensures intelligence == clientIntelligence && pending == map[] && listeners == {} && !draining
      ensures topologyID == 0
    {
      intelligence, pending, listeners, draining, topologyID := clientIntelligence, map[], {}, false, 0;
    }

    /** An error on the way leaves `d`, unless it is a panic. */
    method Cope(d: F.Delivery, e: Error) returns (o: Outcome<F.Delivery>)
      ensures forall rest :: Seen(o, rest) == F.Coping(d, e, rest)
    {
      o := if e == NegativeLength then Err(e) else Got(d);
    }

    method HandleEvent(h: Header, r: Reader) returns (o: Outcome<F.Delivery>)
      modifies r
      ensures Seen(o, r.rest) == F.EventRound(h, old(r.rest), listeners)
    {
      if h.opCode == OP_COUNTER_EVENT {
        var e := DecodeCounterEventBody(r);
        if e.Err? {
          o := Cope(F.Dropped(h), e.error);
          return;
        }
        return Got(if e.value.listener in listeners then F.CounterEvent(h, e.value) else F.Dropped(h));
      }
      var id := r.ReadLPBytes();
      if id.Err? {
        o := Cope(F.Dropped(h), id.error);
        return;
      }
      if id.value !in listeners {
        var skipped := SkipEventBody(h.opCode, r);
        if skipped.Err? {
          o := Cope(F.Dropped(h), skipped.error);
          return;
        }
        return Got(F.Dropped(h));
      }
      var e := DecodeEventBody(h.opCode, r);
      if e.Err? {
        o := Cope(F.Dropped(h), e.error);
        return;
      }
      o := Got(F.EntryEvent(h, id.value, e.value));
    }

    /** A topology update is taken over from every response, an orphan included, but not from an event. */
    method HandleResponse(h: Header, r: Reader) returns (o: Outcome<F.Delivery>)
      modifies this`pending, this`topologyID, r
      ensures Seen(o, r.rest) == F.ResponseRound(h, old(r.rest), old(pending))
      ensures pending == old(pending) - {h.messageId}
      ensures topologyID == if h.topology.Some? then h.topology.value.id else old(topologyID)
    {
      var known := h.messageId in pending;
      var decoder := if known then pending[h.messageId] else NoBody;
      pending := pending - {h.messageId};
      if h.topology.Some? {
        topologyID := h.topology.value.id;
      }
      if !known {
        return Got(F.Orphan(h));
      }
      if F.IsError(h.status) {
        var message := r.ReadLPBytes();
        if message.Err? {
          o := Cope(F.ServerError(h, []), message.error);
          return;
        }
        return Got(F.ServerError(h, message.value));
      }
      var body := DecodeResponse(decoder, h.status, r);
      if body.Err? {
        o := Cope(F.Undecoded(h, body.error), body.error);
        return;
      }
      o := Got(F.Answer(h, body.value));
    }

    /** One round of the loop. */
    method ReadOne(r: Reader) returns (o: Outcome<F.Delivery>)
      modifies this`pending, this`topologyID, r
      ensures Seen(o, r.rest) == F.ReadOne(old(r.rest), intelligence, old(pending), listeners)
      ensures ParseHeader(old(r.rest), intelligence).Ok? ==>
                var h := ParseHeader(old(r.rest), intelligence).value;
                && pending == (if F.IsEvent(h.opCode) then old(pending) else old(pending) - {h.messageId})
                && topologyID == (if F.IsEvent(h.opCode) || h.topology.None? then old(topologyID)
                                  else h.topology.value.id)
      ensures ParseHeader(old(r.rest), intelligence).Fail? ==> pending == old(pending) && topologyID == old(topologyID)
    {
      var h :- ReadResponseHeader(r, intelligence);
      if F.IsEvent(h.opCode) {
        o := HandleEvent(h, r);
      } else {
        o := HandleResponse(h, r);
      }
    }

    method HasPending() returns (has: bool)
      ensures has <==> pending != map[]
    {
      has := |pending| > 0;
    }

    method HasListeners() returns (has: bool)
      ensures has <==> listeners != {}
    {
      has := |listeners| > 0;
    }

    /**
     * The loop while callers and listeners come and go: before each round, and when it looks after a decoded
     * response, pending entries, listeners and the draining flag are whatever `arrivals` says the others made of them.
     */
    method Loop(r: Reader, arrivals: seq<F.Arrival>) returns (o: Outcome<seq<F.Delivery>>)
      modifies this, r
      ensures Seen(o, r.rest) == F.ReadAll(old(r.rest), intelligence, arrivals)
    {
      var deliveries := [];
      PrependToNone(F.ReadAll(r.rest, intelligence, arrivals));
      assert arrivals[0..] == arrivals;
      for i := 0 to |arrivals|
        invariant F.ReadAll(old(r.rest), intelligence, arrivals) ==
                  Prepend(deliveries, F.ReadAll(r.rest, intelligence, arrivals[i..]))
      {
        ghost var before, more := deliveries, F.ReadAll(r.rest, intelligence, arrivals[i..]);
        pending, listeners := arrivals[i].pending, arrivals[i].listeners;
        assert arrivals[i..][0] == arrivals[i] && arrivals[i..][1..] == arrivals[i + 1..];
        var d :- ReadOne(r);
        deliveries := deliveries + [d];
        if d.Answer? || d.Undecoded? {
          var found := arrivals[i].after;
          draining, pending, listeners := found.draining, found.pending, found.listeners;
          var hasPending := HasPending();
          var hasListeners := HasListeners();
          if draining && !hasPending && !hasListeners {
            assert more == Ok([d], r.rest);
            return Got(deliveries);
          }
        }
        PrependTwice(before, [d], F.ReadAll(r.rest, intelligence, arrivals[i + 1..]));
      }
      PrependNothing(deliveries, r.rest);
      o := Got(deliveries);
    }
  }
}
