/**
 * The connection as a whole (internal/connection/conn.go): the interleaved steps of callers and read loop, with the
 * read loop working on the bytes that the server sends. Each Execute returns the body sent for its own message ID,
 * up to the first frame that the loop does not consume exactly.
 */
module Serving {
  import opened Wrappers
  import opened Words
  import opened Varint
  import opened Wire
  import opened Headers
  import B = Bodies
  import F = Framing
  import M = Multiplex

  /**
   * What the server sends: frames, and whatever comes behind them. `decoder` says how an operation reads, `listener`
   * which bytes a listener ID stands for.
   */
  datatype Server = Server(frames: seq<F.Frame>, tail: Bytes, intelligence: byte, decoder: M.Op -> B.Decoder,
                           listener: M.ListenerId -> Bytes)

  /** What a call got: a body, or an error message; `sure` if every frame had been consumed exactly until then. */
  datatype Answer = Answer(body: B.Body, sure: bool) | Refusal(message: Bytes, sure: bool)

  /** `read` counts the headers read, `header` is the last response's, `rest` what is unread. */
  datatype State = State(m: M.State, rest: Bytes, read: nat, header: Option<Header>, aligned: bool,
                         answers: map<M.CallId, Answer>)

  datatype Action = Step(step: M.Action) | ReadEvent

  /** The bytes of the frames from frame k on, and what is behind them. */
  function From(v: Server, k: nat): Bytes
    decreases |v.frames| - k
  {
    if k >= |v.frames| then v.tail else F.PrintFrame(v.frames[k], v.intelligence) + From(v, k + 1)
  }

  function Initial(v: Server): State {
    State(M.INITIAL, From(v, 0), 0, None, true, map[])
  }

  function Listeners(v: Server, s: State): set<Bytes> {
    set l | l in s.m.listeners :: v.listener(l)
  }

  /** The call the loop serves reads with its operation's decoder. */
  function DecoderOf(v: Server, s: State): B.Decoder
    requires s.m.loop.InHand? && s.m.loop.call in s.m.calls
  {
    v.decoder(s.m.calls[s.m.loop.call].op)
  }

  /** The body behind a header, or the error message, as the loop reads it before it sends. */
  function BodyRead(v: Server, s: State): Parsed<Answer>
    requires s.m.loop.InHand? && s.m.loop.call in s.m.calls && s.header.Some?
  {
    if s.m.loop.error then
      match ParseLP(s.rest)
      case Ok(message, rest) => Ok(Refusal(message, s.aligned), rest)
      case Fail(e, rest) => Fail(e, rest)
    else
      match B.ParseBody(DecoderOf(v, s), s.header.value.status, s.rest)
      case Ok(body, rest) => Ok(Answer(body, s.aligned), rest)
      case Fail(e, rest) => Fail(e, rest)
  }

  /** An error message that cannot be read is an empty one, and a body that cannot be decoded no answer at all. */
  function AnswerSent(v: Server, s: State): Option<Answer>
    requires s.m.loop.InHand? && s.m.loop.call in s.m.calls && s.header.Some?
  {
    match BodyRead(v, s)
    case Ok(answer, _) => Some(answer)
    case Fail(_, _) => if s.m.loop.error then Some(Refusal([], s.aligned)) else None
  }

  /** The multiplexer's steps, the loop's reads as the bytes have it; a negative length ends the process. */
  predicate Enabled(v: Server, s: State, a: Action) {
    match a
    case ReadEvent =>
      var p := ParseHeader(s.rest, v.intelligence);
      s.m.loop.Reading? && p.Ok? && F.IsEvent(p.value.opCode) && F.EventRound(p.value, p.rest, Listeners(v, s)).Ok?
    case Step(step) =>
      && M.Enabled(s.m, step)
      && match step
         case ReadHeader(id, error) =>
           var p := ParseHeader(s.rest, v.intelligence);
           p.Ok? && !F.IsEvent(p.value.opCode) && p.value.messageId == id && error == F.IsError(p.value.status)
         case Send(decodes) =>
           && s.header.Some?
           && var p := BodyRead(v, s);
           && decodes == p.Ok?
           && (p.Fail? ==> p.error != NegativeLength)
         case _ => true
  }

  function Next(v: Server, s: State, a: Action): State
    requires Enabled(v, s, a)
  {
    match a
    case ReadEvent =>
      var p := ParseHeader(s.rest, v.intelligence);
      s.(rest := F.EventRound(p.value, p.rest, Listeners(v, s)).rest, read := s.read + 1,
         aligned := s.aligned && s.read < |v.frames| && F.Aligned(v.frames[s.read], map[], Listeners(v, s)))
    case Step(step) =>
      var t := s.(m := M.Next(s.m, step));
      match step
      case ReadHeader(_, _) =>
        var p := ParseHeader(s.rest, v.intelligence);
        t.(rest := p.rest, read := s.read + 1, header := Some(p.value), aligned := s.aligned && s.read < |v.frames|)
      case LoadAndDelete =>
        t.(aligned := s.aligned && (s.m.loop.id in s.m.pending || Bodiless(v, s)))
      case Send(decodes) =>
        var p := BodyRead(v, s);
        t.(rest := p.rest,
           answers := if AnswerSent(v, s).None? then s.answers
                      else s.answers[s.m.loop.call := AnswerSent(v, s).value])
      case _ => t
  }

  /** The frame whose header was read last has no body. */
  predicate Bodiless(v: Server, s: State) {
    0 < s.read <= |v.frames| && F.PrintFrameBody(v.frames[s.read - 1]) == []
  }

  /** The server keeps to the protocol: to a request it sends the body its operation expects, or an error message. */
  ghost predicate Honest(v: Server, s: State, a: Action) {
    a.Step? && a.step.Send? && M.Enabled(s.m, a.step) && s.aligned && 0 < s.read <= |v.frames| ==>
      F.Fitting(v.frames[s.read - 1], map[v.frames[s.read - 1].header.messageId := DecoderOf(v, s)])
  }

  ghost predicate Possible(v: Server, actions: seq<Action>)
    decreases |actions|, 0
  {
    actions != [] ==>
      var n := |actions| - 1;
      && Possible(v, actions[..n])
      && Enabled(v, After(v, actions[..n]), actions[n]) && Honest(v, After(v, actions[..n]), actions[n])
  }

  ghost function After(v: Server, actions: seq<Action>): State
    requires Possible(v, actions)
    decreases |actions|, 1
  {
    if actions == [] then Initial(v)
    else var n := |actions| - 1; Next(v, After(v, actions[..n]), actions[n])
  }

  // ---------- the invariant ----------

  /** Between reading a response's header and consuming its body. */
  predicate Midway(l: M.Loop) {
    l.Took? || l.InHand?
  }

  /** Where the reader is while every frame has been consumed exactly. */
  ghost predicate Positioned(v: Server, s: State) {
    if Midway(s.m.loop) then
      && 0 < s.read <= |v.frames| && v.frames[s.read - 1].ResponseFrame?
      && var f := v.frames[s.read - 1];
      && s.header == Some(f.header) && s.rest == f.body + From(v, s.read)
      && s.m.loop.id == f.header.messageId && s.m.loop.error == F.IsError(f.header.status)
    else s.read <= |v.frames| && s.rest == From(v, s.read)
  }

  /** Frame i carries this answer for call c. */
  ghost predicate SentFor(v: Server, s: State, c: M.CallId, a: Answer, i: nat) {
    && c in s.m.calls && s.m.calls[c].id > 0
    && i < |v.frames| && v.frames[i].ResponseFrame?
    && var f := v.frames[i];
    && f.header.messageId == s.m.calls[c].id
    && F.IsError(f.header.status) == a.Refusal?
    && match a
       case Answer(b, _) => B.Answers(v.decoder(s.m.calls[c].op), f.header.status, b) && f.body == B.PrintBody(b)
       case Refusal(message, _) => Fits(message) && f.body == PrintLP(message)
  }

  ghost predicate AnswerOk(v: Server, s: State, c: M.CallId)
    requires c in s.answers
  {
    && (s.aligned ==> s.answers[c].sure)
    && (s.answers[c].sure ==> exists i :: SentFor(v, s, c, s.answers[c], i))
  }

  /** A decoded answer comes with its body, and a server error with its message. */
  predicate Backed(answers: map<M.CallId, Answer>, c: M.CallId, r: M.Response) {
    && (r.Decoded? ==> c in answers && answers[c].Answer?)
    && (r.ServerError? ==> c in answers && answers[c].Refusal?)
  }

  ghost predicate Inv(v: Server, s: State) {
    && M.Inv(s.m)
    && (s.aligned ==> Positioned(v, s))
    && (forall c :: c in s.answers ==> AnswerOk(v, s, c))
    && (forall c, r :: c in s.m.calls && M.Has(s.m.calls[c], r) ==> Backed(s.answers, c, r))
  }

  ghost predicate WellFormed(v: Server) {
    forall i :: 0 <= i < |v.frames| ==> F.WellFormedFrame(v.frames[i], v.intelligence)
  }

  // ---------- reading the bytes ----------

  lemma HeaderAhead(v: Server, k: nat)
    requires WellFormed(v) && k < |v.frames|
    ensures ParseHeader(From(v, k), v.intelligence) ==
            Ok(v.frames[k].header, F.PrintFrameBody(v.frames[k]) + From(v, k + 1))
    ensures F.IsEvent(v.frames[k].header.opCode) <==> !v.frames[k].ResponseFrame?
  {
    F.FrameHeaderRead(v.frames[k], v.intelligence, From(v, k + 1));
  }

  lemma EventAhead(v: Server, k: nat, listeners: set<Bytes>)
    requires WellFormed(v) && k < |v.frames| && !v.frames[k].ResponseFrame?
    requires F.Aligned(v.frames[k], map[], listeners)
    ensures var p := ParseHeader(From(v, k), v.intelligence);
            p.Ok? && F.EventRound(p.value, p.rest, listeners).rest == From(v, k + 1)
  {
    HeaderAhead(v, k);
    F.FrameBodyConsumed(v.frames[k], v.intelligence, map[], listeners, From(v, k + 1));
  }

  lemma BodyAhead(v: Server, s: State)
    requires WellFormed(v) && s.aligned && Positioned(v, s) && s.m.loop.InHand? && s.m.loop.call in s.m.calls
    requires F.Fitting(v.frames[s.read - 1], map[v.frames[s.read - 1].header.messageId := DecoderOf(v, s)])
    ensures var p, f := BodyRead(v, s), v.frames[s.read - 1];
            && p.Ok? && p.rest == From(v, s.read)
            && match p.value
               case Answer(b, _) =>
                 !s.m.loop.error && B.Answers(DecoderOf(v, s), f.header.status, b) && f.body == B.PrintBody(b)
               case Refusal(message, _) => s.m.loop.error && Fits(message) && f.body == PrintLP(message)
  {
    var f, tail := v.frames[s.read - 1], From(v, s.read);
    if s.m.loop.error {
      var m: Bytes :| Fits(m) && f.body == PrintLP(m);
      LPRoundTrip(m, tail);
    } else {
      var b :| B.Answers(DecoderOf(v, s), f.header.status, b) && f.body == B.PrintBody(b);
      B.BodyRoundTrip(DecoderOf(v, s), f.header.status, b, tail);
    }
  }

  // ---------- what a step of the multiplexer leaves alone ----------

  predicate TouchesStream(a: M.Action) {
    a.ReadHeader? || a.LoadAndDelete? || a.Send?
  }

  lemma LoopStaysMidway(s: M.State, a: M.Action)
    requires !M.IsCallerStep(a) && M.LoopEnabled(s, a) && !TouchesStream(a)
    ensures !Midway(s.loop) && !Midway(M.LoopNext(s, a).loop)
  {
  }

  lemma LoopLeft(s: M.State, a: M.Action)
    requires M.Enabled(s, a) && !TouchesStream(a)
    ensures if Midway(s.loop) then M.Next(s, a).loop == s.loop else !Midway(M.Next(s, a).loop)
  {
    if M.IsCallerStep(a) {
      M.CallerLeavesLoop(s, a);
    } else {
      LoopStaysMidway(s, a);
    }
  }

  lemma OnlySendAnswers(s: M.State, a: M.Action, c: M.CallId, r: M.Response)
    requires M.Enabled(s, a) && c in M.Next(s, a).calls && M.Has(M.Next(s, a).calls[c], r)
    ensures || (c in s.calls && M.Has(s.calls[c], r))
            || r == M.StreamError
            || (a.Send? && c == s.loop.call && M.Next(s, a).calls[c].channel == Some(r))
  {
    if M.IsSetupStep(a) {
      M.SetupKeepsResponse(s, a, c, r);
    } else if M.IsCallerStep(a) {
      M.SelectKeepsResponse(s, a, c, r);
    } else {
      M.LoopKeepsResponse(s, a, c, r);
    }
  }

  lemma NumberIsKept(s: M.State, a: M.Action, c: M.CallId)
    requires M.Inv(s) && M.Enabled(s, a) && c in s.calls && s.calls[c].id > 0
    ensures c in M.Next(s, a).calls && M.Next(s, a).calls[c].id == s.calls[c].id
    ensures M.Next(s, a).calls[c].op == s.calls[c].op
  {
    M.CallStays(s, a, c);
    assert M.CallOk(s, c);
  }

  lemma SentForKept(v: Server, s: State, a: Action, c: M.CallId, answer: Answer, i: nat)
    requires M.Inv(s.m) && Enabled(v, s, a) && SentFor(v, s, c, answer, i)
    ensures SentFor(v, Next(v, s, a), c, answer, i)
  {
    if a.Step? {
      NumberIsKept(s.m, a.step, c);
    }
  }

  // ---------- every step keeps the invariant ----------

  lemma AlignedOnlyFalls(v: Server, s: State, a: Action)
    requires Enabled(v, s, a)
    ensures Next(v, s, a).aligned ==> s.aligned
    ensures a.ReadEvent? ==> Next(v, s, a).m == s.m
    ensures a.Step? ==> Next(v, s, a).m == M.Next(s.m, a.step)
  {
  }

  lemma HeaderMoves(s: M.State, id: M.MsgId, error: bool)
    requires s.loop.Reading?
    ensures M.Enabled(s, M.ReadHeader(id, error))
    ensures M.Next(s, M.ReadHeader(id, error)) == s.(loop := M.Took(id, error))
  {
  }

  lemma TakeMoves(s: M.State)
    requires s.loop.Took?
    ensures M.Enabled(s, M.LoadAndDelete)
    ensures var t, id := M.Next(s, M.LoadAndDelete), s.loop.id;
            if id in s.pending then t.loop == M.InHand(id, s.pending[id], s.loop.error) else t.loop == M.Reading
  {
  }

  lemma SendMoves(s: M.State, decodes: bool)
    requires M.Enabled(s, M.Send(decodes))
    ensures s.loop.InHand? && s.loop.call in s.calls && !Midway(M.Next(s, M.Send(decodes)).loop)
  {
  }

  lemma EventKeepsPosition(v: Server, s: State, a: Action)
    requires WellFormed(v) && s.aligned && Positioned(v, s) && Enabled(v, s, a) && a.ReadEvent? && Next(v, s, a).aligned
    ensures Positioned(v, Next(v, s, a))
  {
    HeaderAhead(v, s.read);
    EventAhead(v, s.read, Listeners(v, s));
  }

  lemma HeaderTaken(v: Server, s: State, id: M.MsgId, error: bool) returns (t: State, h: Header)
    requires s.m.loop.Reading? && Enabled(v, s, Step(M.ReadHeader(id, error)))
    ensures t == Next(v, s, Step(M.ReadHeader(id, error))) && t.m.loop == M.Took(id, error)
    ensures ParseHeader(s.rest, v.intelligence) == Ok(h, t.rest)
    ensures t.header == Some(h) && h.messageId == id && error == F.IsError(h.status) && !F.IsEvent(h.opCode)
    ensures t.read == s.read + 1 && (t.aligned ==> s.read < |v.frames|)
  {
    HeaderMoves(s.m, id, error);
    t, h := Next(v, s, Step(M.ReadHeader(id, error))), ParseHeader(s.rest, v.intelligence).value;
  }

  lemma HeaderPositions(v: Server, k: nat, t: State, h: Header)
    requires WellFormed(v) && k < |v.frames| && t.read == k + 1 && t.m.loop.Took?
    requires ParseHeader(From(v, k), v.intelligence) == Ok(h, t.rest) && t.header == Some(h)
    requires h.messageId == t.m.loop.id && t.m.loop.error == F.IsError(h.status) && !F.IsEvent(h.opCode)
    ensures Positioned(v, t)
  {
    HeaderAhead(v, k);
  }

  lemma HeaderKeepsPosition(v: Server, s: State, id: M.MsgId, error: bool)
    requires WellFormed(v) && s.rest == From(v, s.read) && s.m.loop.Reading?
    requires Enabled(v, s, Step(M.ReadHeader(id, error))) && Next(v, s, Step(M.ReadHeader(id, error))).aligned
    ensures Positioned(v, Next(v, s, Step(M.ReadHeader(id, error))))
  {
    var t, h := HeaderTaken(v, s, id, error);
    HeaderPositions(v, s.read, t, h);
  }

  lemma TakeKeepsPosition(v: Server, s: State)
    requires s.aligned && Positioned(v, s) && s.m.loop.Took?
    requires Enabled(v, s, Step(M.LoadAndDelete)) && Next(v, s, Step(M.LoadAndDelete)).aligned
    ensures Positioned(v, Next(v, s, Step(M.LoadAndDelete)))
  {
    TakeMoves(s.m);
    assert [] + From(v, s.read) == From(v, s.read);
  }

  lemma SendKeepsPosition(v: Server, s: State, decodes: bool)
    requires WellFormed(v) && s.aligned && Positioned(v, s) && Honest(v, s, Step(M.Send(decodes)))
    requires M.Enabled(s.m, M.Send(decodes)) && Enabled(v, s, Step(M.Send(decodes)))
    ensures Positioned(v, Next(v, s, Step(M.Send(decodes))))
  {
    SendMoves(s.m, decodes);
    BodyAhead(v, s);
  }

  lemma OtherKeepsPosition(v: Server, s: State, a: Action)
    requires s.aligned && Positioned(v, s) && Enabled(v, s, a) && a.Step? && !TouchesStream(a.step)
    ensures Positioned(v, Next(v, s, a))
  {
    LoopLeft(s.m, a.step);
    var t := Next(v, s, a);
    assert t == s.(m := M.Next(s.m, a.step));
  }

  lemma StepKeepsPosition(v: Server, s: State, a: Action)
    requires WellFormed(v) && Inv(v, s) && Enabled(v, s, a) && Honest(v, s, a) && Next(v, s, a).aligned
    ensures Positioned(v, Next(v, s, a))
  {
    AlignedOnlyFalls(v, s, a);
    if a.ReadEvent? {
      EventKeepsPosition(v, s, a);
    } else if a.step.ReadHeader? {
      HeaderKeepsPosition(v, s, a.step.id, a.step.error);
    } else if a.step.LoadAndDelete? {
      TakeKeepsPosition(v, s);
    } else if a.step.Send? {
      SendKeepsPosition(v, s, a.step.decodes);
    } else {
      OtherKeepsPosition(v, s, a);
    }
  }

  /** The call that a Send answers. */
  predicate Answers(v: Server, s: State, a: Action, c: M.CallId)
    requires Enabled(v, s, a)
  {
    a.Step? && a.step.Send? && c == s.m.loop.call && AnswerSent(v, s).Some?
  }

  lemma AnswersKept(v: Server, s: State, a: Action, c: M.CallId)
    requires Enabled(v, s, a) && !Answers(v, s, a, c)
    ensures c in Next(v, s, a).answers <==> c in s.answers
    ensures c in s.answers ==> Next(v, s, a).answers[c] == s.answers[c]
  {
  }

  lemma NewAnswer(v: Server, s: State, a: Action)
    requires WellFormed(v) && Inv(v, s) && Enabled(v, s, a) && Honest(v, s, a) && a.Step? && a.step.Send?
    requires Answers(v, s, a, s.m.loop.call)
    ensures AnswerOk(v, Next(v, s, a), s.m.loop.call)
  {
    var t, c := Next(v, s, a), s.m.loop.call;
    if s.aligned {
      BodyAhead(v, s);
      NumberIsKept(s.m, a.step, c);
      assert SentFor(v, t, c, t.answers[c], s.read - 1);
    }
  }

  lemma StepKeepsAnswer(v: Server, s: State, a: Action, c: M.CallId)
    requires WellFormed(v) && Inv(v, s) && Enabled(v, s, a) && Honest(v, s, a) && c in Next(v, s, a).answers
    ensures AnswerOk(v, Next(v, s, a), c)
  {
    if Answers(v, s, a, c) {
      NewAnswer(v, s, a);
    } else {
      AnswersKept(v, s, a, c);
      AlignedOnlyFalls(v, s, a);
      assert AnswerOk(v, s, c);
      if s.answers[c].sure {
        var i :| SentFor(v, s, c, s.answers[c], i);
        SentForKept(v, s, a, c, s.answers[c], i);
      }
    }
  }

  /** No call is sent a second response. */
  lemma SendFindsNothing(s: M.State, decodes: bool, r: M.Response)
    requires M.Inv(s) && M.Enabled(s, M.Send(decodes))
    ensures !M.Has(s.calls[s.loop.call], r)
  {
    assert M.CallOk(s, s.loop.call);
  }

  /** The response sent is of the kind of the answer recorded for it. */
  lemma SendKeepsBacked(v: Server, s: State, a: Action, r: M.Response)
    requires Enabled(v, s, a) && a.Step? && a.step.Send?
    requires r.ServerError? ==> s.m.loop.error
    requires r.Decoded? ==> !s.m.loop.error && a.step.decodes
    ensures Backed(Next(v, s, a).answers, s.m.loop.call, r)
  {
    var sent := AnswerSent(v, s);
    assert Next(v, s, a).answers == if sent.None? then s.answers else s.answers[s.m.loop.call := sent.value];
  }

  lemma OnlySendBacks(s: M.State, a: M.Action, r: M.Response)
    requires M.Inv(s) && M.Enabled(s, a) && a.Send?
    requires s.loop.call in M.Next(s, a).calls && M.Has(M.Next(s, a).calls[s.loop.call], r)
    ensures r.ServerError? ==> s.loop.error
    ensures r.Decoded? ==> !s.loop.error && a.decodes
  {
    SendFindsNothing(s, a.decodes, r);
    OnlySendAnswers(s, a, s.loop.call, r);
    M.SendDelivers(s, a.decodes);
  }

  lemma StepKeepsBacked(v: Server, s: State, a: Action, c: M.CallId, r: M.Response)
    requires Inv(v, s) && Enabled(v, s, a) && c in Next(v, s, a).m.calls && M.Has(Next(v, s, a).m.calls[c], r)
    ensures Backed(Next(v, s, a).answers, c, r)
  {
    AlignedOnlyFalls(v, s, a);
    if r == M.StreamError {
    } else if a.Step? && a.step.Send? && c == s.m.loop.call {
      OnlySendBacks(s.m, a.step, r);
      SendKeepsBacked(v, s, a, r);
    } else {
      AnswersKept(v, s, a, c);
      if a.Step? {
        OnlySendAnswers(s.m, a.step, c, r);
      }
    }
  }

  lemma StepKeepsInv(v: Server, s: State, a: Action)
    requires WellFormed(v) && Inv(v, s) && Enabled(v, s, a) && Honest(v, s, a)
    ensures Inv(v, Next(v, s, a))
  {
    var t := Next(v, s, a);
    AlignedOnlyFalls(v, s, a);
    if a.Step? {
      M.NextKeepsInv(s.m, a.step);
    }
    if t.aligned {
      StepKeepsPosition(v, s, a);
    }
    forall c | c in t.answers
      ensures AnswerOk(v, t, c)
    {
      StepKeepsAnswer(v, s, a, c);
    }
    forall c, r | c in t.m.calls && M.Has(t.m.calls[c], r)
      ensures Backed(t.answers, c, r)
    {
      StepKeepsBacked(v, s, a, c, r);
    }
  }

  lemma {:induction false} ReachableInv(v: Server, actions: seq<Action>)
    requires WellFormed(v) && Possible(v, actions)
    ensures Inv(v, After(v, actions))
  {
    if actions != [] {
      var n := |actions| - 1;
      ReachableInv(v, actions[..n]);
      StepKeepsInv(v, After(v, actions[..n]), actions[n]);
    }
  }

  // ---------- when the loop loses its place ----------

  /** The step reads past the frames, an event that it does not consume exactly, or leaves an orphan's body behind. */
  predicate Misconsumes(v: Server, s: State, a: Action) {
    match a
    case ReadEvent => s.read >= |v.frames| || !F.Aligned(v.frames[s.read], map[], Listeners(v, s))
    case Step(ReadHeader(_, _)) => s.read >= |v.frames|
    case Step(LoadAndDelete) =>
      s.m.loop.Took? && s.m.loop.id !in s.m.pending &&
      !(0 < s.read <= |v.frames| && F.PrintFrameBody(v.frames[s.read - 1]) == [])
    case _ => false
  }

  ghost predicate MisconsumedAt(v: Server, actions: seq<Action>, i: nat) {
    i < |actions| && Possible(v, actions[..i]) && Misconsumes(v, After(v, actions[..i]), actions[i])
  }

  lemma StepLoses(v: Server, s: State, a: Action)
    requires Enabled(v, s, a)
    ensures Next(v, s, a).aligned <==> s.aligned && !Misconsumes(v, s, a)
  {
  }

  lemma MisconsumedBefore(v: Server, actions: seq<Action>, i: nat)
    requires Possible(v, actions) && i < |actions| - 1
    ensures MisconsumedAt(v, actions, i) <==> MisconsumedAt(v, actions[..|actions| - 1], i)
  {
    assert actions[..|actions| - 1][..i] == actions[..i];
  }

  lemma {:induction false} FindMisconsumed(v: Server, actions: seq<Action>) returns (i: nat)
    requires Possible(v, actions) && !After(v, actions).aligned
    ensures MisconsumedAt(v, actions, i)
  {
    var n := |actions| - 1;
    StepLoses(v, After(v, actions[..n]), actions[n]);
    if After(v, actions[..n]).aligned {
      i := n;
    } else {
      i := FindMisconsumed(v, actions[..n]);
      MisconsumedBefore(v, actions, i);
    }
  }

  lemma {:induction false} MisalignedFrom(v: Server, actions: seq<Action>, i: nat)
    requires Possible(v, actions) && MisconsumedAt(v, actions, i)
    ensures !After(v, actions).aligned
  {
    var n := |actions| - 1;
    StepLoses(v, After(v, actions[..n]), actions[n]);
    if i < n {
      MisconsumedBefore(v, actions, i);
      MisalignedFrom(v, actions[..n], i);
    }
  }

  /** Some frame has not been consumed exactly as soon as a step has misconsumed one. */
  lemma MisalignedIff(v: Server, actions: seq<Action>)
    requires Possible(v, actions)
    ensures !After(v, actions).aligned <==> exists i :: MisconsumedAt(v, actions, i)
  {
    if !After(v, actions).aligned {
      var i := FindMisconsumed(v, actions);
    }
    forall i: nat | MisconsumedAt(v, actions, i)
      ensures !After(v, actions).aligned
    {
      MisalignedFrom(v, actions, i);
    }
  }

  // ---------- what callers get ----------

  /**
   * In every run, a call that has returned a decoded answer has returned, if all frames were consumed exactly until
   * it was sent, the body of a frame with its own message ID, read by its own operation's decoder.
   */
  lemma ExecuteReturnsItsBody(v: Server, actions: seq<Action>, c: M.CallId)
    requires WellFormed(v) && Possible(v, actions)
    requires c in After(v, actions).m.calls && M.Succeeded(After(v, actions).m.calls[c])
    ensures var s := After(v, actions);
            && c in s.answers && s.answers[c].Answer?
            && (s.aligned ==> s.answers[c].sure)
            && (s.answers[c].sure ==> exists i :: SentFor(v, s, c, s.answers[c], i))
  {
    ReachableInv(v, actions);
    assert M.Has(After(v, actions).m.calls[c], After(v, actions).m.calls[c].phase.result.response);
    assert AnswerOk(v, After(v, actions), c);
  }

  /** And one that has returned a server error has got, until then, the message of such a frame with an error status. */
  lemma ErrorsAreSent(v: Server, actions: seq<Action>, c: M.CallId, id: M.MsgId)
    requires WellFormed(v) && Possible(v, actions) && c in After(v, actions).m.calls
    requires M.Has(After(v, actions).m.calls[c], M.ServerError(id))
    ensures var s := After(v, actions);
            && c in s.answers && s.answers[c].Refusal?
            && (s.aligned ==> s.answers[c].sure)
            && (s.answers[c].sure ==> exists i :: SentFor(v, s, c, s.answers[c], i))
  {
    ReachableInv(v, actions);
    assert AnswerOk(v, After(v, actions), c);
  }

  /** And as long as they are, the loop is at a frame's first byte, or at the body of the response it deals with. */
  lemma LoopIsPositioned(v: Server, actions: seq<Action>)
    requires WellFormed(v) && Possible(v, actions) && After(v, actions).aligned
    ensures Positioned(v, After(v, actions))
  {
    ReachableInv(v, actions);
  }
}
