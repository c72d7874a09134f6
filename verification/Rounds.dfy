/**
 * A round of the read loop in two views (internal/connection/conn.go): the parser's round, which the imperative loop
 * computes, and the loop's own steps between those of the callers.
 */
module Rounds {
  import opened Wrappers
  import opened Words
  import opened Varint
  import opened Headers
  import B = Bodies
  import F = Framing
  import M = Multiplex
  import S = Serving

  /** The pending entries with their decoders. */
  function PendingDecoders(v: S.Server, m: M.State): F.Pending {
    map id: int64 | id in m.pending && m.pending[id] in m.calls :: v.decoder(m.calls[m.pending[id]].op)
  }

  /** What a delivery of the parser's round means for the call: the kind of its response, and what it carries. */
  predicate Corresponds(d: F.Delivery, r: M.Response, answer: Option<S.Answer>) {
    match d
    case Answer(_, body) => r.Decoded? && answer.Some? && answer.value.Answer? && answer.value.body == body
    case Undecoded(_, _) => r.DecodeError? && answer.None?
    case ServerError(_, message) =>
      r.ServerError? && answer.Some? && answer.value.Refusal? && answer.value.message == message
    case _ => false
  }

  lemma TakenUp(v: S.Server, s: S.State, h: Header, rest: Bytes) returns (t: S.State)
    requires s.m.loop.Reading? && ParseHeader(s.rest, v.intelligence) == Ok(h, rest)
    requires !F.IsEvent(h.opCode) && h.messageId >= 0
    ensures S.Enabled(v, s, S.Step(M.ReadHeader(h.messageId, F.IsError(h.status))))
    ensures t == S.Next(v, s, S.Step(M.ReadHeader(h.messageId, F.IsError(h.status))))
    ensures t.m == s.m.(loop := M.Took(h.messageId, F.IsError(h.status))) && t.rest == rest && t.header == Some(h)
  {
    S.HeaderMoves(s.m, h.messageId, F.IsError(h.status));
    t := S.Next(v, s, S.Step(M.ReadHeader(h.messageId, F.IsError(h.status))));
  }

  lemma TakenOut(v: S.Server, s: S.State) returns (t: S.State)
    requires s.m.loop.Took?
    ensures S.Enabled(v, s, S.Step(M.LoadAndDelete)) && t == S.Next(v, s, S.Step(M.LoadAndDelete))
    ensures t.rest == s.rest && t.header == s.header && t.m.calls == s.m.calls
    ensures var id := s.m.loop.id;
            if id in s.m.pending then t.m.loop == M.InHand(id, s.m.pending[id], s.m.loop.error)
            else t.m == s.m.(loop := M.Reading)
  {
    S.TakeMoves(s.m);
    t := S.Next(v, s, S.Step(M.LoadAndDelete));
  }

  /** Without a pending entry both leave the body unread and go on with the next header. */
  lemma OrphanAgrees(v: S.Server, s: S.State, h: Header, rest: Bytes, listeners: set<Bytes>)
    requires s.m.loop.Reading? && ParseHeader(s.rest, v.intelligence) == Ok(h, rest)
    requires !F.IsEvent(h.opCode) && h.messageId >= 0 && h.messageId !in s.m.pending
    ensures F.ReadOne(s.rest, v.intelligence, PendingDecoders(v, s.m), listeners) == Ok(F.Orphan(h), rest)
    ensures var header := S.Step(M.ReadHeader(h.messageId, F.IsError(h.status)));
            && S.Enabled(v, s, header)
            && var t := S.Next(v, s, header);
            && S.Enabled(v, t, S.Step(M.LoadAndDelete))
            && var u := S.Next(v, t, S.Step(M.LoadAndDelete));
            && u.m == s.m && u.rest == rest
  {
    var t := TakenUp(v, s, h, rest);
    var u := TakenOut(v, t);
  }

  /** The body in hand is read alike, and makes the answer that the parser delivers. */
  lemma BodyAgrees(v: S.Server, s: S.State, h: Header, pending: F.Pending)
    requires s.m.loop.InHand? && s.m.loop.call in s.m.calls
    requires s.header == Some(h) && s.m.loop.error == F.IsError(h.status)
    requires h.messageId in pending && pending[h.messageId] == S.DecoderOf(v, s)
    ensures var p, d, answer := S.BodyRead(v, s), F.ResponseRound(h, s.rest, pending), S.AnswerSent(v, s);
            && (d.Ok? <==> p.Ok? || p.error != NegativeLength)
            && (d.Ok? ==>
                  && d.rest == p.rest
                  && match d.value
                     case Answer(_, body) =>
                       !s.m.loop.error && p.Ok? && answer.Some? && answer.value.Answer? && answer.value.body == body
                     case Undecoded(_, _) => !s.m.loop.error && p.Fail? && answer.None?
                     case ServerError(_, message) =>
                       s.m.loop.error && answer.Some? && answer.value.Refusal? && answer.value.message == message
                     case _ => false)
  {
  }

  lemma SendMade(v: S.Server, s: S.State, decodes: bool)
    requires s.m.loop.InHand? && s.m.loop.call in s.m.calls && s.m.calls[s.m.loop.call].channel.None?
    requires s.header.Some? && decodes == S.BodyRead(v, s).Ok?
    ensures var p, send := S.BodyRead(v, s), S.Step(M.Send(decodes));
            && (S.Enabled(v, s, send) <==> p.Ok? || p.error != NegativeLength)
            && (S.Enabled(v, s, send) ==>
                  S.Next(v, s, send).rest == p.rest && S.Next(v, s, send).m == M.LoopNext(s.m, M.Send(decodes)))
  {
  }

  /** The loop's Send and the rest of the parser's round read the same bytes to the same effect. */
  lemma SendAgrees(v: S.Server, s: S.State, h: Header, pending: F.Pending)
    requires s.m.loop.InHand? && s.m.loop.call in s.m.calls && s.m.calls[s.m.loop.call].channel.None?
    requires s.header == Some(h) && s.m.loop.error == F.IsError(h.status)
    requires h.messageId in pending && pending[h.messageId] == S.DecoderOf(v, s)
    ensures var p, d := S.BodyRead(v, s), F.ResponseRound(h, s.rest, pending);
            var send := S.Step(M.Send(p.Ok?));
            && (S.Enabled(v, s, send) <==> d.Ok?)
            && (d.Ok? ==>
                  var t, c := S.Next(v, s, send), s.m.loop.call;
                  && t.rest == d.rest
                  && c in t.m.calls && t.m.calls[c].channel.Some?
                  && Corresponds(d.value, t.m.calls[c].channel.value, S.AnswerSent(v, s)))
  {
    var decodes := S.BodyRead(v, s).Ok?;
    BodyAgrees(v, s, h, pending);
    SendMade(v, s, decodes);
    M.SendDelivers(s.m, decodes);
  }

  /** With one they read the same bytes, panic alike, and give the call what the parser delivers. */
  lemma RoundAgrees(v: S.Server, s: S.State, h: Header, rest: Bytes, listeners: set<Bytes>)
    requires M.Inv(s.m) && s.m.loop.Reading? && ParseHeader(s.rest, v.intelligence) == Ok(h, rest)
    requires !F.IsEvent(h.opCode) && h.messageId >= 0 && h.messageId in s.m.pending
    ensures var header := S.Step(M.ReadHeader(h.messageId, F.IsError(h.status)));
            var d := F.ReadOne(s.rest, v.intelligence, PendingDecoders(v, s.m), listeners);
            && S.Enabled(v, s, header)
            && var t := S.Next(v, s, header);
            && S.Enabled(v, t, S.Step(M.LoadAndDelete))
            && var u, c := S.Next(v, t, S.Step(M.LoadAndDelete)), s.m.pending[h.messageId];
            && u.m.loop == M.InHand(h.messageId, c, F.IsError(h.status)) && c in u.m.calls
            && u.header.Some?
            && var send := S.Step(M.Send(S.BodyRead(v, u).Ok?));
            && (S.Enabled(v, u, send) <==> d.Ok?)
            && (d.Ok? ==>
                  var w := S.Next(v, u, send);
                  && w.rest == d.rest && c in w.m.calls && w.m.calls[c].channel.Some?
                  && Corresponds(d.value, w.m.calls[c].channel.value, S.AnswerSent(v, u)))
  {
    var id, c := h.messageId, s.m.pending[h.messageId];
    assert M.PendingOk(s.m, id);
    assert M.CallOk(s.m, c);
    var t := TakenUp(v, s, h, rest);
    var u := TakenOut(v, t);
    SendAgrees(v, u, h, PendingDecoders(v, s.m));
  }
}
