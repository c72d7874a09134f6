/**
 * The read loop over the byte stream of one connection (internal/connection/conn.go): which bytes each round
 * consumes, and when the next round starts at the first byte of the next frame.
 */
module Framing {
  import opened Words
  import opened Varint
  import opened Wire
  import opened Headers
  import B = Bodies

  type Pending = map<int64, B.Decoder>

  /** What a round hands on: to the caller, to a listener, or to nobody. */
  datatype Delivery =
    | Answer(header: Header, body: B.Body)
    | Undecoded(header: Header, error: Error)        // the caller gets the decoding error
    | ServerError(header: Header, message: Bytes)
    | Orphan(header: Header)                         // no pending entry has the message ID
    | EntryEvent(header: Header, listener: Bytes, event: B.EventBody)
    | CounterEvent(header: Header, counter: B.CounterEvent)
    | Dropped(header: Header)                        // an event nobody listens to, or that does not decode

  predicate IsError(status: byte) {
    status >= 0x81
  }

  predicate IsEvent(opCode: byte) {
    (B.OP_ENTRY_CREATED <= opCode <= B.OP_ENTRY_EXPIRED) || opCode == B.OP_COUNTER_EVENT
  }

  // ---------- one round as a parser ----------

  /** The round copes with a read error, except that a negative length or count panics and ends the process. */
  function Coping(d: Delivery, e: Error, rest: Bytes): Parsed<Delivery> {
    if e == NegativeLength then Fail(e, rest) else Ok(d, rest)
  }

  function EventRound(h: Header, s: Bytes, listeners: set<Bytes>): Parsed<Delivery> {
    if h.opCode == B.OP_COUNTER_EVENT then
      match B.ParseCounterEvent(s)
      case Fail(e, rest) => Coping(Dropped(h), e, rest)
      case Ok(e, rest) => Ok(if e.listener in listeners then CounterEvent(h, e) else Dropped(h), rest)
    else
      match ParseLP(s)
      case Fail(e, rest) => Coping(Dropped(h), e, rest)
      case Ok(id, s1) =>
        if id !in listeners then
          match B.SkipEvent(s1)
          case Fail(e, rest) => Coping(Dropped(h), e, rest)
          case Ok(_, rest) => Ok(Dropped(h), rest)
        else
          match B.ParseEvent(h.opCode, s1)
          case Fail(e, rest) => Coping(Dropped(h), e, rest)
          case Ok(e, rest) => Ok(EntryEvent(h, id, e), rest)
  }

  function ResponseRound(h: Header, s: Bytes, pending: Pending): Parsed<Delivery> {
    if h.messageId !in pending then Ok(Orphan(h), s)
    else if IsError(h.status) then
      match ParseLP(s)
      case Fail(e, rest) => Coping(ServerError(h, []), e, rest)
      case Ok(message, rest) => Ok(ServerError(h, message), rest)
    else
      match B.ParseBody(pending[h.messageId], h.status, s)
      case Fail(e, rest) => Coping(Undecoded(h, e), e, rest)
      case Ok(b, rest) => Ok(Answer(h, b), rest)
  }

  /** One round of the loop; a header that cannot be read ends the loop. */
  function ReadOne(s: Bytes, intelligence: byte, pending: Pending, listeners: set<Bytes>): Parsed<Delivery> {
    var (h, s1) :- ParseHeader(s, intelligence);
    if IsEvent(h.opCode) then EventRound(h, s1, listeners) else ResponseRound(h, s1, pending)
  }

  // ---------- frames as a server writes them ----------

  datatype Frame =
    | ResponseFrame(header: Header, body: Bytes)
    | EventFrame(header: Header, listener: Bytes, event: B.EventBody)
    | CounterFrame(header: Header, counter: B.CounterEvent)

  /** The frame is written as documented; a response body is any byte string here. */
  ghost predicate WellFormedFrame(f: Frame, intelligence: byte) {
    && Printable(f.header, intelligence)
    && match f
       case ResponseFrame(h, _) => !IsEvent(h.opCode)
       case EventFrame(h, id, e) =>
         && B.OP_ENTRY_CREATED <= h.opCode <= B.OP_ENTRY_EXPIRED
         && Fits(id) && B.IsEventBody(h.opCode, e)
       case CounterFrame(h, e) => h.opCode == B.OP_COUNTER_EVENT && Fits(e.name) && Fits(e.listener)
  }

  /** A response that is pending carries the body its operation expects, or an error message. */
  ghost predicate Fitting(f: Frame, pending: Pending) {
    f.ResponseFrame? && f.header.messageId in pending ==>
      if IsError(f.header.status) then exists m: Bytes :: Fits(m) && f.body == PrintLP(m)
      else exists b :: B.Answers(pending[f.header.messageId], f.header.status, b) && f.body == B.PrintBody(b)
  }

  function PrintFrameBody(f: Frame): Bytes {
    match f
    case ResponseFrame(_, body) => body
    case EventFrame(_, id, e) => PrintLP(id) + B.PrintEvent(e)
    case CounterFrame(_, e) => B.PrintCounterEvent(e)
  }

  function PrintFrame(f: Frame, intelligence: byte): Bytes {
    PrintHeader(f.header, intelligence) + PrintFrameBody(f)
  }

  /** What the frame delivers when the client can make sense of it. */
  ghost predicate Delivers(f: Frame, pending: Pending, listeners: set<Bytes>, d: Delivery) {
    match f
    case ResponseFrame(h, body) =>
      if h.messageId !in pending then d == Orphan(h)
      else if IsError(h.status) then d.ServerError? && d.header == h && body == PrintLP(d.message)
      else d.Answer? && d.header == h && body == B.PrintBody(d.body)
    case EventFrame(h, id, e) => d == if id in listeners then EntryEvent(h, id, e) else Dropped(h)
    case CounterFrame(h, e) => d == if e.listener in listeners then CounterEvent(h, e) else Dropped(h)
  }

  /** What a round over the frame leaves unread of the frame and of the bytes behind it. */
  function Unread(f: Frame, pending: Pending, listeners: set<Bytes>, tail: Bytes): Bytes {
    match f
    case ResponseFrame(h, body) => if h.messageId in pending then tail else body + tail
    case EventFrame(h, id, e) =>
      if id in listeners || e.Custom? || B.CarriesVersion(h.opCode) then tail
      else if |tail| < 8 then [] else tail[8..]
    case CounterFrame(_, _) => tail
  }

  lemma ResponseConsumed(h: Header, body: Bytes, pending: Pending, tail: Bytes)
    requires Fitting(ResponseFrame(h, body), pending)
    ensures var r := ResponseRound(h, body + tail, pending);
            && r.Ok? && r.rest == Unread(ResponseFrame(h, body), pending, {}, tail)
            && Delivers(ResponseFrame(h, body), pending, {}, r.value)
  {
    if h.messageId in pending {
      if IsError(h.status) {
        var m: Bytes :| Fits(m) && body == PrintLP(m);
        LPRoundTrip(m, tail);
      } else {
        var b :| B.Answers(pending[h.messageId], h.status, b) && body == B.PrintBody(b);
        B.BodyRoundTrip(pending[h.messageId], h.status, b, tail);
      }
    }
  }

  lemma EventConsumed(h: Header, id: Bytes, e: B.EventBody, listeners: set<Bytes>, tail: Bytes)
    requires h.opCode != B.OP_COUNTER_EVENT && Fits(id) && B.IsEventBody(h.opCode, e)
    ensures var r := EventRound(h, (PrintLP(id) + B.PrintEvent(e)) + tail, listeners);
            && r.Ok? && r.rest == Unread(EventFrame(h, id, e), map[], listeners, tail)
            && Delivers(EventFrame(h, id, e), map[], listeners, r.value)
  {
    Join(PrintLP(id), B.PrintEvent(e), tail);
    LPRoundTrip(id, B.PrintEvent(e) + tail);
    B.EventRoundTrip(h.opCode, e, tail);
    B.SkipEventRest(h.opCode, e, tail);
  }

  /** The header of a well-formed frame ends where its body begins. */
  lemma FrameHeaderRead(f: Frame, intelligence: byte, tail: Bytes)
    requires WellFormedFrame(f, intelligence)
    ensures ParseHeader(PrintFrame(f, intelligence) + tail, intelligence) == Ok(f.header, PrintFrameBody(f) + tail)
  {
    Join(PrintHeader(f.header, intelligence), PrintFrameBody(f), tail);
    HeaderRoundTrip(f.header, intelligence, PrintFrameBody(f) + tail);
  }

  /** What comes after the header, by the event or the response branch. */
  lemma FrameBodyConsumed(f: Frame, intelligence: byte, pending: Pending, listeners: set<Bytes>, tail: Bytes)
    requires WellFormedFrame(f, intelligence) && Fitting(f, pending)
    ensures var r := if IsEvent(f.header.opCode) then EventRound(f.header, PrintFrameBody(f) + tail, listeners)
                     else ResponseRound(f.header, PrintFrameBody(f) + tail, pending);
            && r.Ok?
            && r.rest == Unread(f, pending, listeners, tail)
            && Delivers(f, pending, listeners, r.value)
  {
    match f {
      case ResponseFrame(h, body) => ResponseConsumed(h, body, pending, tail);
      case EventFrame(h, id, e) => EventConsumed(h, id, e, listeners, tail);
      case CounterFrame(_, e) => B.CounterEventRoundTrip(e, tail);
    }
  }

  /** One round over a well-formed frame: its delivery, and exactly what it leaves unread. */
  lemma FrameConsumed(f: Frame, intelligence: byte, pending: Pending, listeners: set<Bytes>, tail: Bytes)
    requires WellFormedFrame(f, intelligence) && Fitting(f, pending)
    ensures var r := ReadOne(PrintFrame(f, intelligence) + tail, intelligence, pending, listeners);
            && r.Ok?
            && r.rest == Unread(f, pending, listeners, tail)
            && Delivers(f, pending, listeners, r.value)
  {
    FrameHeaderRead(f, intelligence, tail);
    FrameBodyConsumed(f, intelligence, pending, listeners, tail);
  }

  /** The guards under which a frame is consumed to its last byte and no further. */
  predicate Aligned(f: Frame, pending: Pending, listeners: set<Bytes>) {
    match f
    case ResponseFrame(h, body) => h.messageId in pending || body == []
    case EventFrame(h, id, e) => id in listeners || e.Custom? || B.CarriesVersion(h.opCode)
    case CounterFrame(_, _) => true
  }

  /** With more bytes to come, the next round starts at the next frame's first byte exactly under those guards. */
  lemma NextFrameAligned(f: Frame, intelligence: byte, pending: Pending, listeners: set<Bytes>, tail: Bytes)
    requires WellFormedFrame(f, intelligence) && Fitting(f, pending) && tail != []
    ensures ReadOne(PrintFrame(f, intelligence) + tail, intelligence, pending, listeners).rest == tail
            <==> Aligned(f, pending, listeners)
  {
    FrameConsumed(f, intelligence, pending, listeners, tail);
    var rest := Unread(f, pending, listeners, tail);
    if f.ResponseFrame? && f.header.messageId !in pending && f.body != [] {
      assert |rest| > |tail|;
    }
  }

  // ---------- whole streams ----------

  /** What callers, Drain and UnregisterListener have made of the connection by the time the loop looks at it. */
  datatype Shared = Shared(draining: bool, pending: Pending, listeners: set<Bytes>)

  /** A frame with the pending entries and listeners the loop finds when it reads it, and what it finds afterwards. */
  datatype Arrival = Arrival(frame: Frame, pending: Pending, listeners: set<Bytes>, after: Shared)

  /** The loop closes the connection and ends: after a decoded response, draining and with nothing left to serve. */
  predicate Ends(a: Arrival, d: Delivery) {
    (d.Answer? || d.Undecoded?) && a.after.draining && a.after.pending == map[] && a.after.listeners == {}
  }

  ghost predicate Acceptable(a: Arrival, intelligence: byte) {
    WellFormedFrame(a.frame, intelligence) && Fitting(a.frame, a.pending) && Aligned(a.frame, a.pending, a.listeners)
  }

  function Stream(arrivals: seq<Arrival>, intelligence: byte): Bytes {
    if arrivals == [] then []
    else PrintFrame(arrivals[0].frame, intelligence) + Stream(arrivals[1..], intelligence)
  }

  /** Rounds over the stream, one for each arrival's pending entries and listeners. */
  function ReadAll(s: Bytes, intelligence: byte, arrivals: seq<Arrival>): Parsed<seq<Delivery>>
    decreases |arrivals|
  {
    if arrivals == [] then Ok([], s)
    else
      var (d, s1) :- ReadOne(s, intelligence, arrivals[0].pending, arrivals[0].listeners);
      if Ends(arrivals[0], d) then Ok([d], s1) else Prepend([d], ReadAll(s1, intelligence, arrivals[1..]))
  }

  lemma AcceptableConsumed(a: Arrival, intelligence: byte, tail: Bytes)
    requires Acceptable(a, intelligence)
    ensures var r := ReadOne(PrintFrame(a.frame, intelligence) + tail, intelligence, a.pending, a.listeners);
            r.Ok? && r.rest == tail && Delivers(a.frame, a.pending, a.listeners, r.value)
  {
    FrameConsumed(a.frame, intelligence, a.pending, a.listeners, tail);
  }

  /** The deliveries are those of the first frames, one for one and in order. */
  ghost predicate DeliversFirst(arrivals: seq<Arrival>, ds: seq<Delivery>) {
    |ds| <= |arrivals| &&
    (ds != [] ==>
       && Delivers(arrivals[0].frame, arrivals[0].pending, arrivals[0].listeners, ds[0])
       && DeliversFirst(arrivals[1..], ds[1..]))
  }

  /** They stop short of the last frame only where the loop ended. */
  predicate StopsOnlyAtEnd(arrivals: seq<Arrival>, ds: seq<Delivery>) {
    0 < |ds| < |arrivals| ==> Ends(arrivals[|ds| - 1], ds[|ds| - 1])
  }

  /** Every frame was delivered as sent until the loop ended; what comes behind is untouched. */
  ghost predicate Kept(arrivals: seq<Arrival>, intelligence: byte, tail: Bytes, r: Parsed<seq<Delivery>>) {
    && r.Ok? && DeliversFirst(arrivals, r.value) && StopsOnlyAtEnd(arrivals, r.value)
    && (arrivals != [] ==> r.value != [])
    && r.rest == Stream(arrivals[|r.value|..], intelligence) + tail
  }

  lemma FirstEnds(arrivals: seq<Arrival>, intelligence: byte, tail: Bytes, d: Delivery)
    requires arrivals != [] && Ends(arrivals[0], d)
    requires Delivers(arrivals[0].frame, arrivals[0].pending, arrivals[0].listeners, d)
    ensures Kept(arrivals, intelligence, tail, Ok([d], Stream(arrivals[1..], intelligence) + tail))
  {
    assert [d][1..] == [];
  }

  lemma FirstGoesOn(arrivals: seq<Arrival>, intelligence: byte, tail: Bytes, d: Delivery, r: Parsed<seq<Delivery>>)
    requires arrivals != [] && Kept(arrivals[1..], intelligence, tail, r)
    requires Delivers(arrivals[0].frame, arrivals[0].pending, arrivals[0].listeners, d)
    ensures Kept(arrivals, intelligence, tail, Prepend([d], r))
  {
    var ds := [d] + r.value;
    assert ds[1..] == r.value;
    assert arrivals[|ds|..] == arrivals[1..][|r.value|..];
  }

  lemma ReadAllStep(s: Bytes, intelligence: byte, arrivals: seq<Arrival>, d: Delivery, s1: Bytes)
    requires arrivals != []
    requires ReadOne(s, intelligence, arrivals[0].pending, arrivals[0].listeners) == Ok(d, s1)
    ensures ReadAll(s, intelligence, arrivals) ==
            if Ends(arrivals[0], d) then Ok([d], s1) else Prepend([d], ReadAll(s1, intelligence, arrivals[1..]))
  {
  }

  lemma {:induction false} FramingIsKept(arrivals: seq<Arrival>, intelligence: byte, tail: Bytes)
    requires forall i :: 0 <= i < |arrivals| ==> Acceptable(arrivals[i], intelligence)
    ensures Kept(arrivals, intelligence, tail,
                 ReadAll(Stream(arrivals, intelligence) + tail, intelligence, arrivals))
  {
    if arrivals == [] {
      assert Stream(arrivals, intelligence) + tail == tail;
    } else {
      var a, s1 := arrivals[0], Stream(arrivals[1..], intelligence) + tail;
      FramingIsKept(arrivals[1..], intelligence, tail);
      Join(PrintFrame(a.frame, intelligence), Stream(arrivals[1..], intelligence), tail);
      AcceptableConsumed(a, intelligence, s1);
      var d := ReadOne(PrintFrame(a.frame, intelligence) + s1, intelligence, a.pending, a.listeners).value;
      ReadAllStep(PrintFrame(a.frame, intelligence) + s1, intelligence, arrivals, d, s1);
      if Ends(a, d) {
        FirstEnds(arrivals, intelligence, tail, d);
      } else {
        FirstGoesOn(arrivals, intelligence, tail, d, ReadAll(s1, intelligence, arrivals[1..]));
      }
    }
  }

  /** The frame is a response that somebody waits for, without an error status, and then nothing is left to serve. */
  predicate IsLast(a: Arrival) {
    && a.frame.ResponseFrame? && a.frame.header.messageId in a.pending && a.frame.header.status < 0x81
    && a.after.draining && |a.after.pending| == 0 && |a.after.listeners| == 0
  }

  lemma EndsIff(a: Arrival, d: Delivery)
    requires Delivers(a.frame, a.pending, a.listeners, d)
    ensures Ends(a, d) <==> IsLast(a)
  {
  }

  /** How many frames are delivered: all up to the first one after which the loop finds itself draining and idle. */
  function DeliveredUpTo(arrivals: seq<Arrival>): nat {
    if arrivals == [] then 0 else if IsLast(arrivals[0]) then 1 else 1 + DeliveredUpTo(arrivals[1..])
  }

  lemma {:induction false} DeliveredCount(arrivals: seq<Arrival>, intelligence: byte, tail: Bytes)
    requires forall i :: 0 <= i < |arrivals| ==> Acceptable(arrivals[i], intelligence)
    ensures var r := ReadAll(Stream(arrivals, intelligence) + tail, intelligence, arrivals);
            r.Ok? && |r.value| == DeliveredUpTo(arrivals)
  {
    if arrivals != [] {
      var a, s1 := arrivals[0], Stream(arrivals[1..], intelligence) + tail;
      DeliveredCount(arrivals[1..], intelligence, tail);
      Join(PrintFrame(a.frame, intelligence), Stream(arrivals[1..], intelligence), tail);
      AcceptableConsumed(a, intelligence, s1);
      var d := ReadOne(PrintFrame(a.frame, intelligence) + s1, intelligence, a.pending, a.listeners).value;
      EndsIff(a, d);
      ReadAllStep(PrintFrame(a.frame, intelligence) + s1, intelligence, arrivals, d, s1);
    }
  }
}
