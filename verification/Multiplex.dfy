/**
 * One multiplexed connection (internal/connection/conn.go) as a state machine: every interleaving of the
 * atomic steps of callers in Execute and ExecuteListener, of the read loop, and of Drain and Close, against
 * a peer that may answer any message ID at any time, twice, or never.
 */
module Multiplex {
  import opened Wrappers

  type CallId = nat
  type MsgId = nat
  type Op = nat
  type ListenerId = nat

  /** What travels through a call's channel; an answer remembers the header's ID and the decoder used. */
  datatype Response =
    | Decoded(id: MsgId, decoder: Op)
    | DecodeError(id: MsgId, decoder: Op)
    | ServerError(id: MsgId)
    | StreamError

  datatype Result = Refused | WriteError | Got(response: Response) | ContextDone | ConnClosed

  /** Where a call stands; each phase ends with one atomic step. */
  datatype Phase =
    | Started                    // before loading `closed`
    | SawOpen                    // before loading `draining`
    | Admitted
    | Listening                  // ExecuteListener: the listener is stored
    | Numbered                   // the message ID is drawn
    | Writing                    // the pending entry is stored
    | WriteFailed                // before deleting the pending entry
    | Waiting                    // in the select
    | Cancelled                  // before deleting the pending entry
    | Unlistening(result: Result)  // before deleting the listener
    | Returned(result: Result)

  /**
   * `channel` is the capacity-one response channel, `sends` the number of sends it has seen; `listener` is the
   * listener ID of an ExecuteListener, which different calls may share.
   */
  datatype Call = Call(op: Op, listener: Option<ListenerId>, phase: Phase, id: MsgId, channel: Option<Response>,
                       sends: nat)

  datatype Loop =
    | Reading
    | Took(id: MsgId, error: bool)           // a response header has been read
    | InHand(id: MsgId, call: CallId, error: bool)  // its pending entry has been loaded and deleted
    | CheckDraining
    | CheckPending
    | CheckListeners
    | Closing
    | Visiting(visited: set<MsgId>)          // closeAllPending ranges over the pending entries
    | Failing(id: MsgId, call: CallId, visited: set<MsgId>)
    | Deleting(id: MsgId, call: CallId, visited: set<MsgId>)
    | ClearingListeners
    | Exiting                                // before the deferred close(done)
    | Stopped

  datatype State = State(
    calls: map<CallId, Call>,
    pending: map<MsgId, CallId>,
    listeners: map<ListenerId, CallId>,   // the call whose entry is stored under the ID
    nextMsgID: nat,
    closed: bool,
    draining: bool,
    done: bool,
    loop: Loop)

  const INITIAL := State(map[], map[], map[], 0, false, false, false, Reading)

  datatype Action =
    // callers
    | Start(call: CallId, op: Op, listener: Option<ListenerId>)
    | LoadClosed(call: CallId)
    | LoadDraining(call: CallId)
    | StoreListener(call: CallId)
    | DrawNumber(call: CallId)
    | StorePending(call: CallId)
    | Write(call: CallId, ok: bool)
    | Receive(call: CallId)
    | SeeContextDone(call: CallId)
    | SeeConnDone(call: CallId)
    | DeletePending(call: CallId)
    | DeleteListener(call: CallId)
    | UnregisterListener(listenerId: ListenerId)
    | Drain
    | Close
    // read loop
    | ReadHeader(id: MsgId, error: bool)
    | ReadFails
    | LoadAndDelete
    | Send(decodes: bool)
    | LoopLoadDraining
    | RangePending
    | RangeListeners
    | LoopClose
    | Visit(id: MsgId)
    | SendFailure
    | DeleteVisited
    | EndPending
    | ClearListener(listenerId: ListenerId)
    | EndListeners
    | CloseDone

  predicate In(s: State, c: CallId, p: Phase) {
    c in s.calls && s.calls[c].phase == p
  }

  predicate IsSetupStep(a: Action) {
    a.Start? || a.LoadClosed? || a.LoadDraining? || a.StoreListener? || a.DrawNumber?
  }

  predicate IsSelectStep(a: Action) {
    a.Write? || a.Receive? || a.SeeContextDone? || a.SeeConnDone? || a.DeleteListener?
  }

  predicate IsFlagStep(a: Action) {
    a.UnregisterListener? || a.Drain? || a.Close?
  }

  /** The steps of callers, and of Drain, Close and UnregisterListener. */
  predicate IsCallerStep(a: Action) {
    IsSetupStep(a) || IsSelectStep(a) || IsFlagStep(a) || a.StorePending? || a.DeletePending?
  }

  predicate CallerEnabled(s: State, a: Action)
    requires IsCallerStep(a)
  {
    match a
    case Start(c, _, _) => c !in s.calls
    case LoadClosed(c) => In(s, c, Started)
    case LoadDraining(c) => In(s, c, SawOpen)
    case StoreListener(c) => In(s, c, Admitted) && s.calls[c].listener.Some?
    case DrawNumber(c) => c in s.calls && s.calls[c].phase == if s.calls[c].listener.Some? then Listening else Admitted
    case StorePending(c) => In(s, c, Numbered)
    case Write(c, _) => In(s, c, Writing)
    case Receive(c) => In(s, c, Waiting) && s.calls[c].channel.Some?
    case SeeContextDone(c) => In(s, c, Waiting)
    case SeeConnDone(c) => In(s, c, Waiting) && s.done
    case DeletePending(c) => In(s, c, WriteFailed) || In(s, c, Cancelled)
    case DeleteListener(c) => c in s.calls && s.calls[c].phase.Unlistening?
    case _ => true
  }

  /** A send on a full channel blocks, so it is not possible then. */
  predicate LoopEnabled(s: State, a: Action)
    requires !IsCallerStep(a)
  {
    match a
    case ReadHeader(_, _) => s.loop.Reading?
    case ReadFails => s.loop.Reading?
    case LoadAndDelete => s.loop.Took?
    case Send(_) => s.loop.InHand? && s.loop.call in s.calls && s.calls[s.loop.call].channel.None?
    case LoopLoadDraining => s.loop.CheckDraining?
    case RangePending => s.loop.CheckPending?
    case RangeListeners => s.loop.CheckListeners?
    case LoopClose => s.loop.Closing?
    case Visit(id) => s.loop.Visiting? && id in s.pending && id !in s.loop.visited
    case SendFailure => s.loop.Failing? && s.loop.call in s.calls && s.calls[s.loop.call].channel.None?
    case DeleteVisited => s.loop.Deleting?
    case EndPending => s.loop.Visiting?
    case ClearListener(_) => s.loop.ClearingListeners?
    case EndListeners => s.loop.ClearingListeners?
    case CloseDone => s.loop.Exiting?
    case _ => false
  }

  predicate Enabled(s: State, a: Action) {
    if IsCallerStep(a) then CallerEnabled(s, a) else LoopEnabled(s, a)
  }

  function Move(s: State, c: CallId, p: Phase): State
    requires c in s.calls
  {
    s.(calls := s.calls[c := s.calls[c].(phase := p)])
  }

  /** A call with a listener deletes it before it returns an error. */
  function Finish(k: Call, r: Result): Phase {
    if k.listener.Some? && !(r.Got? && r.response.Decoded?) then Unlistening(r) else Returned(r)
  }

  function Deliver(s: State, c: CallId, r: Response): State
    requires c in s.calls
  {
    s.(calls := s.calls[c := s.calls[c].(channel := Some(r), sends := s.calls[c].sends + 1)])
  }

  /** Whatever is stored under the ID is deleted. */
  function WithoutListener(s: State, l: Option<ListenerId>): State {
    if l.Some? then s.(listeners := s.listeners - {l.value}) else s
  }

  function CallerNext(s: State, a: Action): State
    requires IsCallerStep(a) && CallerEnabled(s, a)
  {
    match a
    case Start(c, op, listener) => s.(calls := s.calls[c := Call(op, listener, Started, 0, None, 0)])
    case LoadClosed(c) => Move(s, c, if s.closed then Returned(Refused) else SawOpen)
    case LoadDraining(c) => Move(s, c, if s.draining then Returned(Refused) else Admitted)
    case StoreListener(c) => Move(s.(listeners := s.listeners[s.calls[c].listener.value := c]), c, Listening)
    case DrawNumber(c) =>
      var id := s.nextMsgID + 1;
      s.(calls := s.calls[c := s.calls[c].(phase := Numbered, id := id)], nextMsgID := id)
    case StorePending(c) => Move(s.(pending := s.pending[s.calls[c].id := c]), c, Writing)
    case Write(c, ok) => Move(s, c, if ok then Waiting else WriteFailed)
    case Receive(c) =>
      var k := s.calls[c];
      s.(calls := s.calls[c := k.(channel := None, phase := Finish(k, Got(k.channel.value)))])
    case SeeContextDone(c) => Move(s, c, Cancelled)
    case SeeConnDone(c) => Move(s, c, Finish(s.calls[c], ConnClosed))
    case DeletePending(c) =>
      var k := s.calls[c];
      Move(s.(pending := s.pending - {k.id}), c, Finish(k, if k.phase.WriteFailed? then WriteError else ContextDone))
    case DeleteListener(c) => Move(WithoutListener(s, s.calls[c].listener), c, Returned(s.calls[c].phase.result))
    case UnregisterListener(l) => WithoutListener(s, Some(l))
    case Drain => s.(draining := true)
    case Close => s.(closed := true)
  }

  function LoopNext(s: State, a: Action): State
    requires !IsCallerStep(a) && LoopEnabled(s, a)
  {
    match a
    case ReadHeader(id, error) => s.(loop := Took(id, error))
    case ReadFails => s.(loop := Visiting({}))
    case LoadAndDelete =>
      var id := s.loop.id;
      if id in s.pending then s.(pending := s.pending - {id}, loop := InHand(id, s.pending[id], s.loop.error))
      else s.(loop := Reading)
    case Send(decodes) =>
      var c, id := s.loop.call, s.loop.id;
      if s.loop.error then Deliver(s, c, ServerError(id)).(loop := Reading)
      else
        var r := if decodes then Decoded(id, s.calls[c].op) else DecodeError(id, s.calls[c].op);
        Deliver(s, c, r).(loop := CheckDraining)
    case LoopLoadDraining => s.(loop := if s.draining then CheckPending else Reading)
    case RangePending => s.(loop := if s.pending == map[] then CheckListeners else Reading)
    case RangeListeners => s.(loop := if s.listeners == map[] then Closing else Reading)
    case LoopClose => s.(closed := true, loop := Exiting)
    case Visit(id) => s.(loop := Failing(id, s.pending[id], s.loop.visited + {id}))
    case SendFailure => Deliver(s, s.loop.call, StreamError).(loop := Deleting(s.loop.id, s.loop.call, s.loop.visited))
    case DeleteVisited => s.(pending := s.pending - {s.loop.id}, loop := Visiting(s.loop.visited))
    case EndPending => s.(loop := ClearingListeners)
    case ClearListener(l) => WithoutListener(s, Some(l))
    case EndListeners => s.(loop := Exiting)
    case CloseDone => s.(done := true, loop := Stopped)
  }

  function Next(s: State, a: Action): State
    requires Enabled(s, a)
  {
    if IsCallerStep(a) then CallerNext(s, a) else LoopNext(s, a)
  }

  ghost predicate Possible(actions: seq<Action>)
    decreases |actions|, 0
  {
    actions != [] ==>
      var n := |actions| - 1;
      Possible(actions[..n]) && Enabled(After(actions[..n]), actions[n])
  }

  ghost function After(actions: seq<Action>): State
    requires Possible(actions)
    decreases |actions|, 1
  {
    if actions == [] then INITIAL
    else var n := |actions| - 1; Next(After(actions[..n]), actions[n])
  }

  // ---------- the invariant ----------

  /** Call c's own answer, decoded by its own operation, or the news that the stream has died. */
  predicate Matches(k: Call, r: Response) {
    match r
    case Decoded(id, decoder) => id == k.id && decoder == k.op
    case DecodeError(id, decoder) => id == k.id && decoder == k.op
    case ServerError(id) => id == k.id
    case StreamError => true
  }

  predicate Unnumbered(p: Phase) {
    p.Started? || p.SawOpen? || p.Admitted? || p.Listening? || p == Returned(Refused)
  }

  predicate LoopHolds(s: State, c: CallId) {
    (s.loop.InHand? || s.loop.Failing?) && s.loop.call == c
  }

  predicate CallOk(s: State, c: CallId)
    requires c in s.calls
  {
    var k := s.calls[c];
    && k.sends <= 1
    && (k.channel.Some? ==> k.sends == 1 && Matches(k, k.channel.value))
    && (k.phase.Returned? || k.phase.Unlistening? ==>
          k.phase.result.Got? ==> k.sends == 1 && Matches(k, k.phase.result.response))
    && (k.phase.Unlistening? ==> k.phase.result != Refused)
    && (Unnumbered(k.phase) <==> k.id == 0)
    && k.id <= s.nextMsgID
    && (Unnumbered(k.phase) || k.phase.Numbered? ==> k.sends == 0 && !LoopHolds(s, c) && k.id !in s.pending)
    && (k.phase.Writing? || k.phase.Waiting? ==>
          if k.sends == 1 then k.channel.Some?
          else (k.id in s.pending && s.pending[k.id] == c) || (s.loop.InHand? && s.loop.call == c))
  }

  predicate PendingOk(s: State, id: MsgId)
    requires id in s.pending
  {
    var c := s.pending[id];
    && c in s.calls && s.calls[c].id == id && id > 0
    && s.calls[c].sends == (if s.loop.Deleting? && s.loop.id == id then 1 else 0)
  }

  predicate LoopOk(s: State) {
    s.loop.InHand? || s.loop.Failing? || s.loop.Deleting? ==>
      && s.loop.call in s.calls
      && s.calls[s.loop.call].id == s.loop.id > 0
      && s.calls[s.loop.call].sends == (if s.loop.Deleting? then 1 else 0)
      && (s.loop.InHand? ==> s.loop.id !in s.pending)
  }

  ghost predicate AllCallsOk(s: State) {
    forall c :: c in s.calls ==> CallOk(s, c)
  }

  ghost predicate AllPendingOk(s: State) {
    forall id :: id in s.pending ==> PendingOk(s, id)
  }

  ghost predicate NumbersDiffer(s: State) {
    forall c, d :: c in s.calls && d in s.calls && s.calls[c].id == s.calls[d].id > 0 ==> c == d
  }

  ghost predicate Inv(s: State) {
    AllCallsOk(s) && AllPendingOk(s) && LoopOk(s) && NumbersDiffer(s)
  }

  /** A call that a step does not concern keeps its part of the invariant. */
  lemma CallFrame(s: State, t: State, d: CallId)
    requires d in s.calls && CallOk(s, d)
    requires d in t.calls && t.calls[d] == s.calls[d] && s.nextMsgID <= t.nextMsgID
    requires var id := s.calls[d].id;
             if id in s.pending then id in t.pending && t.pending[id] == s.pending[id] else id !in t.pending
    requires LoopHolds(s, d) == LoopHolds(t, d) && s.loop.InHand? == t.loop.InHand?
    ensures CallOk(t, d)
  {
  }

  /** Only numbers already drawn are pending. */
  lemma PendingDrawn(s: State, id: MsgId)
    requires Inv(s)
    ensures id in s.pending ==> 0 < id <= s.nextMsgID
  {
    if id in s.pending {
      assert PendingOk(s, id);
      assert CallOk(s, s.pending[id]);
    }
  }

  /** A call keeps its operation and its listener ID, and its number once it has drawn it. */
  predicate Stays(s: State, t: State, a: Action, d: CallId)
    requires d in s.calls
  {
    && d in t.calls && t.calls[d].op == s.calls[d].op && t.calls[d].listener == s.calls[d].listener
    && (a == DrawNumber(d) || t.calls[d].id == s.calls[d].id)
  }

  lemma SetupStays(s: State, a: Action, d: CallId)
    requires IsSetupStep(a) && CallerEnabled(s, a) && d in s.calls
    ensures Stays(s, CallerNext(s, a), a, d)
  {
  }

  lemma SelectStays(s: State, a: Action, d: CallId)
    requires !IsSetupStep(a) && IsCallerStep(a) && CallerEnabled(s, a) && d in s.calls
    ensures Stays(s, CallerNext(s, a), a, d)
  {
  }

  lemma OnlySendsTouchCalls(s: State, a: Action)
    requires !IsCallerStep(a) && LoopEnabled(s, a) && !a.Send? && !a.SendFailure?
    ensures LoopNext(s, a).calls == s.calls
  {
  }

  lemma SendTouchesOneCall(s: State, a: Action) returns (k: Call)
    requires (a.Send? || a.SendFailure?) && LoopEnabled(s, a)
    ensures LoopNext(s, a).calls == s.calls[s.loop.call := k]
    ensures s.calls[s.loop.call].(channel := k.channel, sends := k.sends) == k
  {
    k := LoopNext(s, a).calls[s.loop.call];
  }

  lemma SendStays(s: State, a: Action, d: CallId)
    requires (a.Send? || a.SendFailure?) && LoopEnabled(s, a) && d in s.calls
    ensures LoopNext(s, a).calls.Keys == s.calls.Keys && Stays(s, LoopNext(s, a), a, d)
  {
    var k := SendTouchesOneCall(s, a);
  }

  lemma LoopStays(s: State, a: Action, d: CallId)
    requires !IsCallerStep(a) && LoopEnabled(s, a) && d in s.calls
    ensures LoopNext(s, a).calls.Keys == s.calls.Keys && Stays(s, LoopNext(s, a), a, d)
  {
    if a.Send? || a.SendFailure? {
      SendStays(s, a, d);
    } else {
      OnlySendsTouchCalls(s, a);
    }
  }

  lemma CallStays(s: State, a: Action, d: CallId)
    requires Enabled(s, a) && d in s.calls
    ensures Stays(s, Next(s, a), a, d)
  {
    if IsSetupStep(a) {
      SetupStays(s, a, d);
    } else if IsCallerStep(a) {
      SelectStays(s, a, d);
    } else {
      LoopStays(s, a, d);
    }
  }

  lemma CallerLeavesLoop(s: State, a: Action)
    requires IsCallerStep(a) && CallerEnabled(s, a)
    ensures CallerNext(s, a).loop == s.loop
  {
  }

  lemma OnlyStartAddsCalls(s: State, a: Action)
    requires Enabled(s, a) && !a.Start?
    ensures Next(s, a).calls.Keys <= s.calls.Keys
  {
    if !IsCallerStep(a) {
      if s.calls.Keys == {} {
      } else {
        var d :| d in s.calls;
        LoopStays(s, a, d);
      }
    }
  }

  lemma NumbersKept(s: State, a: Action)
    requires Enabled(s, a) && !IsSetupStep(a) && NumbersDiffer(s)
    ensures NumbersDiffer(Next(s, a))
  {
    var t := Next(s, a);
    OnlyStartAddsCalls(s, a);
    forall c | c in t.calls
      ensures t.calls[c].id == s.calls[c].id
    {
      CallStays(s, a, c);
    }
  }

  // ---------- callers: calls, pending entries, loop ----------

  lemma SetupKeepsCall(s: State, a: Action)
    requires Inv(s) && IsSetupStep(a) && CallerEnabled(s, a)
    ensures CallOk(CallerNext(s, a), a.call)
  {
    if !a.Start? {
      assert CallOk(s, a.call);
    }
    PendingDrawn(s, 0);
    PendingDrawn(s, s.nextMsgID + 1);
  }

  lemma SelectKeepsCall(s: State, a: Action)
    requires IsSelectStep(a) && CallerEnabled(s, a) && CallOk(s, a.call)
    ensures CallOk(CallerNext(s, a), a.call)
  {
  }

  lemma PendingStepKeepsCall(s: State, a: Action)
    requires (a.StorePending? || a.DeletePending?) && CallerEnabled(s, a) && CallOk(s, a.call)
    ensures CallOk(CallerNext(s, a), a.call)
  {
  }

  // A call that is not the one taking the step.

  lemma SetupKeepsOthers(s: State, a: Action, c: CallId)
    requires IsSetupStep(a) && CallerEnabled(s, a) && c in s.calls && c != a.call && CallOk(s, c)
    ensures CallOk(CallerNext(s, a), c)
  {
    CallFrame(s, CallerNext(s, a), c);
  }

  lemma SelectKeepsOthers(s: State, a: Action, c: CallId)
    requires IsSelectStep(a) && CallerEnabled(s, a) && c in s.calls && c != a.call && CallOk(s, c)
    ensures CallOk(CallerNext(s, a), c)
  {
    CallFrame(s, CallerNext(s, a), c);
  }

  lemma FlagKeepsCall(s: State, a: Action, c: CallId)
    requires IsFlagStep(a) && CallerEnabled(s, a) && c in s.calls && CallOk(s, c)
    ensures CallOk(CallerNext(s, a), c)
  {
    CallFrame(s, CallerNext(s, a), c);
  }

  lemma PendingStepKeepsOthers(s: State, a: Action, c: CallId)
    requires Inv(s) && (a.StorePending? || a.DeletePending?) && CallerEnabled(s, a)
    requires c in s.calls && c != a.call
    ensures CallOk(CallerNext(s, a), c)
  {
    assert CallOk(s, c) && CallOk(s, a.call);
    assert s.calls[c].id != s.calls[a.call].id;
    CallFrame(s, CallerNext(s, a), c);
  }

  lemma CallerKeepsCall(s: State, a: Action, c: CallId)
    requires Inv(s) && IsCallerStep(a) && CallerEnabled(s, a) && c in CallerNext(s, a).calls
    ensures CallOk(CallerNext(s, a), c)
  {
    if IsSetupStep(a) {
      if c == a.call {
        SetupKeepsCall(s, a);
      } else {
        assert CallOk(s, c);
        SetupKeepsOthers(s, a, c);
      }
    } else {
      assert CallOk(s, c);
      if IsFlagStep(a) {
        FlagKeepsCall(s, a, c);
      } else if IsSelectStep(a) {
        if c == a.call {
          SelectKeepsCall(s, a);
        } else {
          SelectKeepsOthers(s, a, c);
        }
      } else if c == a.call {
        PendingStepKeepsCall(s, a);
      } else {
        PendingStepKeepsOthers(s, a, c);
      }
    }
  }

  lemma SetupKeepsPending(s: State, a: Action, id: MsgId)
    requires Inv(s) && IsSetupStep(a) && CallerEnabled(s, a) && id in CallerNext(s, a).pending
    ensures PendingOk(CallerNext(s, a), id)
  {
    if !a.Start? {
      assert CallOk(s, a.call);
    }
    assert PendingOk(s, id);
  }

  lemma SelectKeepsPending(s: State, a: Action, id: MsgId)
    requires IsSelectStep(a) && CallerEnabled(s, a) && id in s.pending && PendingOk(s, id)
    ensures PendingOk(CallerNext(s, a), id)
  {
  }

  lemma FlagKeepsRest(s: State, a: Action)
    requires IsFlagStep(a) && CallerEnabled(s, a)
    ensures var t := CallerNext(s, a); t.calls == s.calls && t.pending == s.pending && t.loop == s.loop
  {
  }

  lemma PendingStepKeepsPending(s: State, a: Action, id: MsgId)
    requires (a.StorePending? || a.DeletePending?) && CallerEnabled(s, a)
    requires LoopOk(s) && NumbersDiffer(s) && CallOk(s, a.call) && (id in s.pending ==> PendingOk(s, id))
    ensures id in CallerNext(s, a).pending ==> PendingOk(CallerNext(s, a), id)
  {
  }

  lemma SetupKeepsLoop(s: State, a: Action)
    requires Inv(s) && IsSetupStep(a) && CallerEnabled(s, a)
    ensures LoopOk(CallerNext(s, a))
  {
    if !a.Start? {
      assert CallOk(s, a.call);
    }
  }

  lemma SelectKeepsLoop(s: State, a: Action)
    requires IsSelectStep(a) && CallerEnabled(s, a) && LoopOk(s)
    ensures LoopOk(CallerNext(s, a))
  {
  }

  lemma PendingStepKeepsLoop(s: State, a: Action)
    requires (a.StorePending? || a.DeletePending?) && CallerEnabled(s, a)
    requires LoopOk(s) && NumbersDiffer(s) && CallOk(s, a.call)
    ensures LoopOk(CallerNext(s, a))
  {
  }

  lemma SetupKeepsNumbers(s: State, a: Action)
    requires Inv(s) && IsSetupStep(a) && CallerEnabled(s, a)
    ensures NumbersDiffer(CallerNext(s, a))
  {
    assert forall c :: c in s.calls ==> CallOk(s, c);
  }

  lemma CallerKeepsInv(s: State, a: Action)
    requires Inv(s) && IsCallerStep(a) && CallerEnabled(s, a)
    ensures Inv(CallerNext(s, a))
  {
    var t := CallerNext(s, a);
    forall c | c in t.calls
      ensures CallOk(t, c)
    {
      CallerKeepsCall(s, a, c);
    }
    if IsSetupStep(a) {
      SetupKeepsLoop(s, a);
      SetupKeepsNumbers(s, a);
    } else {
      NumbersKept(s, a);
      if a.StorePending? || a.DeletePending? {
        assert CallOk(s, a.call);
        PendingStepKeepsLoop(s, a);
      } else if IsSelectStep(a) {
        SelectKeepsLoop(s, a);
      } else {
        FlagKeepsRest(s, a);
      }
    }
    forall id | id in t.pending
      ensures PendingOk(t, id)
    {
      if IsSetupStep(a) {
        SetupKeepsPending(s, a, id);
      } else if a.StorePending? || a.DeletePending? {
        PendingStepKeepsPending(s, a, id);
      } else {
        assert id in s.pending ==> PendingOk(s, id);
        if IsSelectStep(a) {
          SelectKeepsPending(s, a, id);
        }
      }
    }
  }

  // ---------- the read loop: calls, pending entries, loop ----------

  /** Steps that touch neither a call nor a pending entry. */
  predicate IsQuietLoopStep(a: Action) {
    a.ReadHeader? || a.ReadFails? || a.LoopLoadDraining? || a.RangePending? || a.RangeListeners? || a.LoopClose? ||
    a.EndPending? || a.ClearListener? || a.EndListeners? || a.CloseDone?
  }

  lemma QuietLoopKeepsCall(s: State, a: Action, c: CallId)
    requires IsQuietLoopStep(a) && LoopEnabled(s, a) && c in s.calls && CallOk(s, c)
    ensures CallOk(LoopNext(s, a), c)
  {
    CallFrame(s, LoopNext(s, a), c);
  }

  lemma SendKeepsCall(s: State, a: Action)
    requires (a.Send? || a.SendFailure?) && LoopEnabled(s, a)
    requires LoopOk(s) && CallOk(s, s.loop.call)
    ensures CallOk(LoopNext(s, a), s.loop.call)
  {
  }

  /** Only the served call can be the one the loop holds. */
  lemma SendKeepsOthers(s: State, a: Action, c: CallId)
    requires (a.Send? || a.SendFailure?) && LoopEnabled(s, a)
    requires c in s.calls && c != s.loop.call && CallOk(s, c)
    ensures CallOk(LoopNext(s, a), c)
  {
    var t := LoopNext(s, a);
    assert t.calls[c] == s.calls[c] && t.pending == s.pending && t.nextMsgID == s.nextMsgID;
    assert !LoopHolds(s, c) && !LoopHolds(t, c);
  }

  /** The pending entry that the step takes out or looks at is its call's. */
  lemma TakeKeepsCall(s: State, a: Action, c: CallId)
    requires Inv(s) && (a.LoadAndDelete? || a.Visit? || a.DeleteVisited?) && LoopEnabled(s, a) && c in s.calls
    ensures CallOk(LoopNext(s, a), c)
  {
    assert CallOk(s, c);
    var id := if a.Visit? then a.id else s.loop.id;
    if id in s.pending {
      assert PendingOk(s, id);
      assert CallOk(s, s.pending[id]);
    }
  }

  lemma LoopKeepsCall(s: State, a: Action, c: CallId)
    requires Inv(s) && !IsCallerStep(a) && LoopEnabled(s, a) && c in s.calls
    ensures CallOk(LoopNext(s, a), c)
  {
    assert CallOk(s, c);
    if IsQuietLoopStep(a) {
      QuietLoopKeepsCall(s, a, c);
    } else if !a.Send? && !a.SendFailure? {
      TakeKeepsCall(s, a, c);
    } else if c == s.loop.call {
      SendKeepsCall(s, a);
    } else {
      SendKeepsOthers(s, a, c);
    }
  }

  lemma SendKeepsPending(s: State, a: Action, id: MsgId)
    requires (a.Send? || a.SendFailure?) && LoopEnabled(s, a) && LoopOk(s) && NumbersDiffer(s)
    requires id in LoopNext(s, a).pending && id in s.pending && PendingOk(s, id)
    ensures PendingOk(LoopNext(s, a), id)
  {
  }

  lemma LoopKeepsPending(s: State, a: Action, id: MsgId)
    requires !IsCallerStep(a) && LoopEnabled(s, a) && !a.Send? && !a.SendFailure?
    requires id in LoopNext(s, a).pending && (id in s.pending ==> PendingOk(s, id))
    ensures PendingOk(LoopNext(s, a), id)
  {
    OnlySendsTouchCalls(s, a);
  }

  lemma LoopKeepsLoop(s: State, a: Action)
    requires Inv(s) && !IsCallerStep(a) && LoopEnabled(s, a)
    ensures LoopOk(LoopNext(s, a))
  {
    var id := if a.Visit? then a.id else if a.LoadAndDelete? then s.loop.id else 0;
    if id in s.pending {
      assert PendingOk(s, id);
    }
  }

  lemma LoopDropsPending(s: State, a: Action)
    requires !IsCallerStep(a) && LoopEnabled(s, a)
    ensures LoopNext(s, a).pending.Keys <= s.pending.Keys
  {
  }

  lemma LoopKeepsAllPending(s: State, a: Action)
    requires Inv(s) && !IsCallerStep(a) && LoopEnabled(s, a)
    ensures AllPendingOk(LoopNext(s, a))
  {
    LoopDropsPending(s, a);
    forall id | id in LoopNext(s, a).pending
      ensures PendingOk(LoopNext(s, a), id)
    {
      assert PendingOk(s, id);
      if a.Send? || a.SendFailure? {
        SendKeepsPending(s, a, id);
      } else {
        LoopKeepsPending(s, a, id);
      }
    }
  }

  lemma LoopKeepsAllCalls(s: State, a: Action)
    requires Inv(s) && !IsCallerStep(a) && LoopEnabled(s, a)
    ensures AllCallsOk(LoopNext(s, a))
  {
    OnlyStartAddsCalls(s, a);
    forall c | c in LoopNext(s, a).calls
      ensures CallOk(LoopNext(s, a), c)
    {
      LoopKeepsCall(s, a, c);
    }
  }

  lemma NextKeepsInv(s: State, a: Action)
    requires Inv(s) && Enabled(s, a)
    ensures Inv(Next(s, a))
  {
    if IsCallerStep(a) {
      CallerKeepsInv(s, a);
    } else {
      LoopKeepsAllCalls(s, a);
      LoopKeepsAllPending(s, a);
      LoopKeepsLoop(s, a);
      NumbersKept(s, a);
    }
  }

  lemma {:induction false} ReachableInv(actions: seq<Action>)
    requires Possible(actions)
    ensures Inv(After(actions))
  {
    if actions != [] {
      var n := |actions| - 1;
      ReachableInv(actions[..n]);
      NextKeepsInv(After(actions[..n]), actions[n]);
    }
  }

  // ---------- what every run keeps ----------

  /** Each call's channel sees at most one response, so a send by the read loop never blocks. */
  lemma AtMostOneResponse(actions: seq<Action>, c: CallId)
    requires Possible(actions) && c in After(actions).calls
    ensures After(actions).calls[c].sends <= 1
  {
    ReachableInv(actions);
    assert CallOk(After(actions), c);
  }

  lemma SendNeverBlocks(actions: seq<Action>)
    requires Possible(actions)
    ensures After(actions).loop.InHand? ==> forall decodes :: Enabled(After(actions), Send(decodes))
    ensures After(actions).loop.Failing? ==> Enabled(After(actions), SendFailure)
  {
    ReachableInv(actions);
    var s := After(actions);
    if s.loop.InHand? || s.loop.Failing? {
      assert CallOk(s, s.loop.call);
    }
  }

  /** What a call returns from its channel is the answer to its own message, decoded by its own operation. */
  lemma OwnResponse(actions: seq<Action>, c: CallId, r: Response)
    requires Possible(actions) && c in After(actions).calls
    requires After(actions).calls[c].phase == Returned(Got(r))
    ensures r.Decoded? || r.DecodeError? ==>
              r.id == After(actions).calls[c].id && r.decoder == After(actions).calls[c].op
    ensures r.ServerError? ==> r.id == After(actions).calls[c].id
  {
    ReachableInv(actions);
    assert CallOk(After(actions), c);
  }

  /** A waiting call is never forgotten: its entry is pending, the loop has it in hand, or its response is there. */
  lemma WaitingIsServed(actions: seq<Action>, c: CallId)
    requires Possible(actions) && In(After(actions), c, Waiting)
    ensures var s := After(actions); var k := s.calls[c];
            || (k.id in s.pending && s.pending[k.id] == c)
            || (s.loop.InHand? && s.loop.call == c && s.loop.id == k.id)
            || (k.channel.Some? && Matches(k, k.channel.value))
  {
    ReachableInv(actions);
    assert CallOk(After(actions), c);
  }

  /** An answer to a call that still waits for one is never treated as an orphan. */
  lemma AnswerFindsItsCall(actions: seq<Action>, c: CallId)
    requires Possible(actions) && In(After(actions), c, Waiting) && After(actions).calls[c].channel.None?
    requires After(actions).loop.Took? && After(actions).loop.id == After(actions).calls[c].id
    ensures var t := Next(After(actions), LoadAndDelete); t.loop.InHand? && t.loop.call == c
  {
    ReachableInv(actions);
    assert CallOk(After(actions), c);
  }

  // ---------- the response that a call has got ----------

  /** The call has the response in its channel, or has taken it out and returns it. */
  predicate Has(k: Call, r: Response) {
    k.channel == Some(r) || ((k.phase.Returned? || k.phase.Unlistening?) && k.phase.result == Got(r))
  }

  lemma SetupKeepsResponse(s: State, a: Action, c: CallId, r: Response)
    requires IsSetupStep(a) && CallerEnabled(s, a) && c in CallerNext(s, a).calls && Has(CallerNext(s, a).calls[c], r)
    ensures c in s.calls && Has(s.calls[c], r)
  {
  }

  lemma ReceiveKeepsResponse(s: State, c: CallId, r: Response)
    requires CallerEnabled(s, Receive(c)) && Has(CallerNext(s, Receive(c)).calls[c], r)
    ensures Has(s.calls[c], r)
  {
  }

  lemma SelectKeepsResponse(s: State, a: Action, c: CallId, r: Response)
    requires !IsSetupStep(a) && IsCallerStep(a) && CallerEnabled(s, a)
    requires c in CallerNext(s, a).calls && Has(CallerNext(s, a).calls[c], r)
    ensures c in s.calls && Has(s.calls[c], r)
  {
    if a == Receive(c) {
      ReceiveKeepsResponse(s, c, r);
    }
  }

  /** Only a send gives a call a response that it did not have, and it gives one to a single call. */
  lemma LoopKeepsResponse(s: State, a: Action, c: CallId, r: Response)
    requires !IsCallerStep(a) && LoopEnabled(s, a) && c in LoopNext(s, a).calls && Has(LoopNext(s, a).calls[c], r)
    ensures c in s.calls
    ensures Has(s.calls[c], r) ||
            ((a.Send? || a.SendFailure?) && s.loop.call == c && LoopNext(s, a).calls[c].channel == Some(r))
  {
    if a.Send? || a.SendFailure? {
      var k := SendTouchesOneCall(s, a);
    } else {
      OnlySendsTouchCalls(s, a);
    }
  }

  lemma SendDelivers(s: State, decodes: bool)
    requires LoopEnabled(s, Send(decodes))
    ensures var r := LoopNext(s, Send(decodes)).calls[s.loop.call].channel;
            && r.Some? && (r.value.ServerError? <==> s.loop.error) && (r.value.Decoded? <==> !s.loop.error && decodes)
            && (r.value.DecodeError? <==> !s.loop.error && !decodes)
  {
  }

  // ---------- listeners, drain and the end of the stream ----------

  /** The entry of call c is stored under its own listener ID only, and not after the call has failed. */
  predicate ListenerOk(s: State, c: CallId, l: ListenerId) {
    l in s.listeners && s.listeners[l] == c ==>
      && c in s.calls
      && s.calls[c].listener == Some(l)
      && !(s.calls[c].phase.Started? || s.calls[c].phase.SawOpen? || s.calls[c].phase.Admitted?)
      && (s.calls[c].phase.Returned? ==> s.calls[c].phase.result.Got? && s.calls[c].phase.result.response.Decoded?)
  }

  lemma SetupKeepsListener(s: State, a: Action, c: CallId, l: ListenerId)
    requires IsSetupStep(a) && CallerEnabled(s, a) && ListenerOk(s, c, l)
    ensures ListenerOk(CallerNext(s, a), c, l)
  {
  }

  lemma SelectKeepsListener(s: State, a: Action, c: CallId, l: ListenerId)
    requires !IsSetupStep(a) && IsCallerStep(a) && CallerEnabled(s, a) && ListenerOk(s, c, l)
    ensures ListenerOk(CallerNext(s, a), c, l)
  {
  }

  lemma LoopKeepsListener(s: State, a: Action, c: CallId, l: ListenerId)
    requires !IsCallerStep(a) && LoopEnabled(s, a) && ListenerOk(s, c, l)
    ensures ListenerOk(LoopNext(s, a), c, l)
  {
  }

  lemma {:induction false} RunKeepsListener(actions: seq<Action>, c: CallId, l: ListenerId)
    requires Possible(actions)
    ensures ListenerOk(After(actions), c, l)
  {
    if actions != [] {
      var n := |actions| - 1;
      RunKeepsListener(actions[..n], c, l);
      if IsSetupStep(actions[n]) {
        SetupKeepsListener(After(actions[..n]), actions[n], c, l);
      } else if IsCallerStep(actions[n]) {
        SelectKeepsListener(After(actions[..n]), actions[n], c, l);
      } else {
        LoopKeepsListener(After(actions[..n]), actions[n], c, l);
      }
    }
  }

  predicate Succeeded(k: Call) {
    k.phase.Returned? && k.phase.result.Got? && k.phase.result.response.Decoded?
  }

  /** A listener call that returned an error, refusal included, has left no entry of its own under any ID. */
  lemma FailedCallLeavesNoListener(actions: seq<Action>, c: CallId)
    requires Possible(actions) && c in After(actions).calls
    requires After(actions).calls[c].phase.Returned? && !Succeeded(After(actions).calls[c])
    ensures c !in After(actions).listeners.Values
  {
    var s := After(actions);
    if c in s.listeners.Values {
      var l :| l in s.listeners && s.listeners[l] == c;
      RunKeepsListener(actions, c, l);
    }
  }

  /** The steps that store or delete the entry under a listener ID; calls keep their IDs, so any later state will do. */
  predicate TouchesEntry(s: State, a: Action, l: ListenerId) {
    match a
    case UnregisterListener(m) => m == l
    case ClearListener(m) => m == l
    case StoreListener(d) => d in s.calls && s.calls[d].listener == Some(l)
    case DeleteListener(d) => d in s.calls && s.calls[d].listener == Some(l)
    case _ => false
  }

  /** What such a step leaves under the ID, and any other step. */
  predicate EntryMoves(s: State, a: Action, t: State, l: ListenerId) {
    if !TouchesEntry(s, a, l) then
      (l in t.listeners <==> l in s.listeners) && (l in s.listeners ==> t.listeners[l] == s.listeners[l])
    else if a.StoreListener? then l in t.listeners && t.listeners[l] == a.call
    else l !in t.listeners
  }

  lemma SetupMovesEntry(s: State, a: Action, l: ListenerId)
    requires IsSetupStep(a) && CallerEnabled(s, a)
    ensures EntryMoves(s, a, CallerNext(s, a), l)
  {
  }

  lemma CallerMovesEntry(s: State, a: Action, l: ListenerId)
    requires IsCallerStep(a) && CallerEnabled(s, a)
    ensures EntryMoves(s, a, CallerNext(s, a), l)
  {
    if IsSetupStep(a) {
      SetupMovesEntry(s, a, l);
    }
  }

  lemma LoopMovesEntry(s: State, a: Action, l: ListenerId)
    requires !IsCallerStep(a) && LoopEnabled(s, a)
    ensures EntryMoves(s, a, LoopNext(s, a), l)
  {
  }

  lemma {:induction false} ListenerCallsExist(actions: seq<Action>, j: nat)
    requires Possible(actions) && j < |actions| && (actions[j].StoreListener? || actions[j].DeleteListener?)
    ensures actions[j].call in After(actions).calls
  {
    var n := |actions| - 1;
    var s := After(actions[..n]);
    if j < n {
      ListenerCallsExist(actions[..n], j);
    }
    CallStays(s, actions[n], actions[j].call);
  }

  lemma TouchesStill(s: State, a: Action, past: Action, l: ListenerId)
    requires Enabled(s, a) && (past.StoreListener? || past.DeleteListener? ==> past.call in s.calls)
    ensures TouchesEntry(Next(s, a), past, l) <==> TouchesEntry(s, past, l)
  {
    if past.StoreListener? || past.DeleteListener? {
      CallStays(s, a, past.call);
    }
  }

  /** Step i stored call c's entry, and no later step took it. */
  ghost predicate StoredAndKept(s: State, actions: seq<Action>, i: nat, c: CallId, l: ListenerId) {
    && i < |actions| && actions[i] == StoreListener(c) && TouchesEntry(s, actions[i], l)
    && forall j :: i < j < |actions| ==> !TouchesEntry(s, actions[j], l)
  }

  lemma TouchesAsBefore(actions: seq<Action>, j: nat, l: ListenerId)
    requires Possible(actions) && j < |actions| - 1
    ensures var n := |actions| - 1;
            TouchesEntry(After(actions), actions[j], l) <==> TouchesEntry(After(actions[..n]), actions[..n][j], l)
  {
    var n := |actions| - 1;
    if actions[j].StoreListener? || actions[j].DeleteListener? {
      ListenerCallsExist(actions[..n], j);
    }
    TouchesStill(After(actions[..n]), actions[n], actions[j], l);
  }

  lemma KeptOneMore(s: State, t: State, actions: seq<Action>, i: nat, c: CallId, l: ListenerId)
    requires i < |actions| - 1
    requires forall j :: 0 <= j < |actions| - 1 ==>
               (TouchesEntry(t, actions[j], l) <==> TouchesEntry(s, actions[j], l))
    ensures var n := |actions| - 1;
            StoredAndKept(t, actions, i, c, l) <==>
            StoredAndKept(s, actions[..n], i, c, l) && !TouchesEntry(t, actions[n], l)
  {
    var n := |actions| - 1;
    forall j | 0 <= j < n
      ensures actions[..n][j] == actions[j]
    {
    }
    if StoredAndKept(s, actions[..n], i, c, l) && !TouchesEntry(t, actions[n], l) {
      forall j | i < j < |actions|
        ensures !TouchesEntry(t, actions[j], l)
      {
        assert j < n ==> !TouchesEntry(s, actions[..n][j], l);
      }
    }
  }

  /**
   * The entry under a listener ID is call c's exactly if c stored it and no later step took it: UnregisterListener,
   * the clearing at the stream's end, or the store or delete of a call with the same ID.
   */
  lemma {:induction false} EntryIff(actions: seq<Action>, c: CallId, l: ListenerId)
    requires Possible(actions)
    ensures var s := After(actions);
            l in s.listeners && s.listeners[l] == c <==> exists i :: StoredAndKept(s, actions, i, c, l)
  {
    if actions != [] {
      var n := |actions| - 1;
      var s, t, a := After(actions[..n]), After(actions), actions[n];
      EntryIff(actions[..n], c, l);
      if IsCallerStep(a) {
        CallerMovesEntry(s, a, l);
      } else {
        LoopMovesEntry(s, a, l);
      }
      LastTouches(actions, l);
      forall j | 0 <= j < n
        ensures TouchesEntry(t, actions[j], l) <==> TouchesEntry(s, actions[j], l)
      {
        TouchesAsBefore(actions, j, l);
      }
      forall i: nat | i < n
        ensures StoredAndKept(t, actions, i, c, l) <==>
                StoredAndKept(s, actions[..n], i, c, l) && !TouchesEntry(s, a, l)
      {
        KeptOneMore(s, t, actions, i, c, l);
      }
      assert a == StoreListener(c) && TouchesEntry(t, a, l) ==> StoredAndKept(t, actions, n, c, l);
    }
  }

  lemma LastTouches(actions: seq<Action>, l: ListenerId)
    requires Possible(actions) && actions != []
    ensures var n := |actions| - 1;
            TouchesEntry(After(actions), actions[n], l) <==> TouchesEntry(After(actions[..n]), actions[n], l)
  {
    var n := |actions| - 1;
    TouchesStill(After(actions[..n]), actions[n], actions[n], l);
  }

  /** The call has stored its entry and, if it has returned, has not failed. */
  predicate Stored(k: Call) {
    k.listener.Some? && !k.phase.Started? && !k.phase.SawOpen? && !k.phase.Admitted? &&
    (k.phase.Returned? ==> Succeeded(k))
  }

  predicate Remembers(s: State, c: CallId, stored: bool, deleted: bool) {
    && (c in s.calls && Stored(s.calls[c]) <==> stored && !deleted)
    && (deleted ==> c in s.calls && s.calls[c].phase.Returned?)
    && (c in s.calls && s.calls[c].phase.Unlistening? ==>
          var r := s.calls[c].phase.result; s.calls[c].listener.Some? && !(r.Got? && r.response.Decoded?))
  }

  lemma SetupRemembers(s: State, a: Action, c: CallId, stored: bool, deleted: bool)
    requires IsSetupStep(a) && CallerEnabled(s, a) && Remembers(s, c, stored, deleted)
    ensures Remembers(CallerNext(s, a), c, stored || a == StoreListener(c), deleted)
  {
  }

  lemma FinishRemembers(s: State, a: Action, c: CallId, stored: bool, deleted: bool)
    requires (a.Receive? || a.SeeConnDone? || a.DeletePending?) && CallerEnabled(s, a)
    requires Remembers(s, c, stored, deleted)
    ensures Remembers(CallerNext(s, a), c, stored, deleted)
  {
  }

  lemma SelectRemembers(s: State, a: Action, c: CallId, stored: bool, deleted: bool)
    requires !IsSetupStep(a) && IsCallerStep(a) && CallerEnabled(s, a) && Remembers(s, c, stored, deleted)
    ensures Remembers(CallerNext(s, a), c, stored, deleted || a == DeleteListener(c))
  {
    if a.Receive? || a.SeeConnDone? || a.DeletePending? {
      FinishRemembers(s, a, c, stored, deleted);
    }
  }

  lemma LoopRemembers(s: State, a: Action, c: CallId, stored: bool, deleted: bool)
    requires !IsCallerStep(a) && LoopEnabled(s, a) && Remembers(s, c, stored, deleted)
    ensures Remembers(LoopNext(s, a), c, stored, deleted)
  {
    if a.Send? || a.SendFailure? {
      var k := SendTouchesOneCall(s, a);
    } else {
      OnlySendsTouchCalls(s, a);
    }
  }

  /** A call has its entry stored and has not failed exactly if its own steps have stored and not deleted it. */
  lemma {:induction false} StoredIff(actions: seq<Action>, c: CallId)
    requires Possible(actions)
    ensures Remembers(After(actions), c, StoreListener(c) in actions, DeleteListener(c) in actions)
  {
    if actions != [] {
      var n := |actions| - 1;
      var s, a := After(actions[..n]), actions[n];
      StoredIff(actions[..n], c);
      assert actions == actions[..n] + [a];
      var stored, deleted := StoreListener(c) in actions[..n], DeleteListener(c) in actions[..n];
      if IsSetupStep(a) {
        SetupRemembers(s, a, c, stored, deleted);
      } else if IsCallerStep(a) {
        SelectRemembers(s, a, c, stored, deleted);
      } else {
        LoopRemembers(s, a, c, stored, deleted);
      }
    }
  }

  /** The last of the call's own stores; there is only one. */
  lemma {:induction false} LastStore(actions: seq<Action>, c: CallId) returns (i: nat)
    requires StoreListener(c) in actions
    ensures i < |actions| && actions[i] == StoreListener(c)
    ensures forall j :: i < j < |actions| ==> actions[j] != StoreListener(c)
  {
    var n := |actions| - 1;
    if actions[n] == StoreListener(c) {
      i := n;
    } else {
      assert actions == actions[..n] + [actions[n]];
      i := LastStore(actions[..n], c);
    }
  }

  /** No other call uses the listener ID. */
  predicate SoleUser(s: State, c: CallId, l: ListenerId) {
    forall d :: d in s.calls && d != c ==> s.calls[d].listener != Some(l)
  }

  /**
   * Where no other call uses the ID, as with the IDs that the client draws at random, and nobody unregisters or clears
   * it, the entry is there exactly from the call's store on, as long as the call has not failed.
   */
  lemma SuccessIsRegistered(actions: seq<Action>, c: CallId, l: ListenerId)
    requires Possible(actions) && SoleUser(After(actions), c, l)
    requires forall i :: 0 <= i < |actions| ==> actions[i] != UnregisterListener(l) && actions[i] != ClearListener(l)
    ensures var s := After(actions);
            l in s.listeners && s.listeners[l] == c <==>
            c in s.calls && s.calls[c].listener == Some(l) && Stored(s.calls[c])
  {
    var s := After(actions);
    EntryIff(actions, c, l);
    StoredIff(actions, c);
    if l in s.listeners && s.listeners[l] == c {
      RunKeepsListener(actions, c, l);
    }
    if c in s.calls && s.calls[c].listener == Some(l) && Stored(s.calls[c]) {
      var i := LastStore(actions, c);
      forall j | i < j < |actions|
        ensures !TouchesEntry(s, actions[j], l)
      {
        assert actions[j] in actions;
      }
      assert StoredAndKept(s, actions, i, c, l);
    }
  }

  /**
   * A run in which a second call with the ID of a successful one fails to write, and the states it goes through. The
   * client itself draws sixteen random bytes for each ID, so only a caller of the connection's own API can do this.
   */
  function SharedActions(l: ListenerId): seq<Action> {
    [Start(0, 0, Some(l)), LoadClosed(0), LoadDraining(0), StoreListener(0), DrawNumber(0), StorePending(0),
     Write(0, true), ReadHeader(1, false), LoadAndDelete, Send(true), Receive(0),
     Start(1, 0, Some(l)), LoadClosed(1), LoadDraining(1), StoreListener(1), DrawNumber(1), StorePending(1),
     Write(1, false), DeletePending(1), DeleteListener(1)]
  }

  /** The phases of the two calls after i steps of their own. */
  function FirstPhase(i: nat): Phase {
    if i == 1 then Started else if i == 2 then SawOpen else if i == 3 then Admitted else if i == 4 then Listening
    else if i == 5 then Numbered else if i == 6 then Writing else if i < 11 then Waiting
    else Returned(Got(Decoded(1, 0)))
  }

  function SecondPhase(i: nat): Phase {
    if i == 1 then Started else if i == 2 then SawOpen else if i == 3 then Admitted else if i == 4 then Listening
    else if i == 5 then Numbered else if i == 6 then Writing else if i == 7 then WriteFailed
    else if i == 8 then Unlistening(WriteError) else Returned(WriteError)
  }

  function FirstCall(l: ListenerId, i: nat): Call {
    Call(0, Some(l), FirstPhase(i), if i < 5 then 0 else 1, if i == 10 then Some(Decoded(1, 0)) else None,
         if i < 10 then 0 else 1)
  }

  function SecondCall(l: ListenerId, i: nat): Call {
    Call(0, Some(l), SecondPhase(i), if i < 5 then 0 else 2, None, 0)
  }

  /** Before the second call starts. */
  function FirstState(l: ListenerId, i: nat): State
    requires i <= 11
  {
    if i == 0 then INITIAL
    else
      State(map[0 := FirstCall(l, i)], if 6 <= i < 9 then map[1 := 0] else map[], if i < 4 then map[] else map[l := 0],
            if i < 5 then 0 else 1, false, false, false,
            if i == 8 then Took(1, false) else if i == 9 then InHand(1, 0, false)
            else if i < 10 then Reading else CheckDraining)
  }

  function SecondState(l: ListenerId, i: nat): State
    requires 1 <= i <= 9
  {
    State(map[0 := FirstCall(l, 11), 1 := SecondCall(l, i)], if 6 <= i < 8 then map[2 := 1] else map[],
          if i < 4 then map[l := 0] else if i < 9 then map[l := 1] else map[],
          if i < 5 then 1 else 2, false, false, false, CheckDraining)
  }

  function SharedState(l: ListenerId, i: nat): State
    requires i <= 20
  {
    if i <= 11 then FirstState(l, i) else SecondState(l, i - 11)
  }

  lemma SharedStepSetup(l: ListenerId, i: nat)
    requires i < 7
    ensures Enabled(SharedState(l, i), SharedActions(l)[i])
    ensures Next(SharedState(l, i), SharedActions(l)[i]) == SharedState(l, i + 1)
  {
  }

  lemma SharedStepAnswer(l: ListenerId, i: nat)
    requires 7 <= i < 11
    ensures Enabled(SharedState(l, i), SharedActions(l)[i])
    ensures Next(SharedState(l, i), SharedActions(l)[i]) == SharedState(l, i + 1)
  {
  }

  lemma SharedStepStart(l: ListenerId, i: nat)
    requires 11 <= i < 16
    ensures Enabled(SharedState(l, i), SharedActions(l)[i])
    ensures Next(SharedState(l, i), SharedActions(l)[i]) == SharedState(l, i + 1)
  {
  }

  lemma SharedStepFail(l: ListenerId, i: nat)
    requires 16 <= i < 20
    ensures Enabled(SharedState(l, i), SharedActions(l)[i])
    ensures Next(SharedState(l, i), SharedActions(l)[i]) == SharedState(l, i + 1)
  {
  }

  lemma SharedStep(l: ListenerId, i: nat)
    requires i < 20
    ensures Enabled(SharedState(l, i), SharedActions(l)[i])
    ensures Next(SharedState(l, i), SharedActions(l)[i]) == SharedState(l, i + 1)
  {
    if i < 7 {
      SharedStepSetup(l, i);
    } else if i < 11 {
      SharedStepAnswer(l, i);
    } else if i < 16 {
      SharedStepStart(l, i);
    } else {
      SharedStepFail(l, i);
    }
  }

  /** A list of actions that takes each state of a list to the next is a run. */
  lemma {:induction false} RunThrough(actions: seq<Action>, states: seq<State>)
    requires |states| == |actions| + 1 && states[0] == INITIAL
    requires forall i :: 0 <= i < |actions| ==>
               Enabled(states[i], actions[i]) && Next(states[i], actions[i]) == states[i + 1]
    ensures Possible(actions) && After(actions) == states[|actions|]
  {
    if actions != [] {
      var n := |actions| - 1;
      RunThrough(actions[..n], states[..n + 1]);
    }
  }

  lemma SharedRun(l: ListenerId)
    ensures Possible(SharedActions(l)) && After(SharedActions(l)) == SharedState(l, 20)
  {
    var states := seq(21, i requires 0 <= i < 21 => SharedState(l, i));
    forall i | 0 <= i < 20
      ensures Enabled(states[i], SharedActions(l)[i])
      ensures Next(states[i], SharedActions(l)[i]) == states[i + 1]
    {
      SharedStep(l, i);
    }
    RunThrough(SharedActions(l), states);
  }

  /** The failing call deletes the entry that the successful one relies on. */
  lemma SecondCallTakesEntry(l: ListenerId)
    ensures Possible(SharedActions(l))
    ensures var s := After(SharedActions(l));
            && s.calls.Keys == {0, 1} && Succeeded(s.calls[0]) && s.calls[0].listener == Some(l)
            && s.calls[1].phase == Returned(WriteError) && s.calls[1].listener == Some(l)
            && s.listeners == map[]
  {
    SharedRun(l);
  }

  /** The flags only rise, and a call that starts after Drain or Close never draws a number. */
  predicate Turned(s: State, c: CallId) {
    || (s.closed && (c in s.calls ==> s.calls[c].phase in {Started, Returned(Refused)}))
    || (s.draining && (c in s.calls ==> s.calls[c].phase in {Started, SawOpen, Returned(Refused)}))
  }

  lemma CallerKeepsTurned(s: State, a: Action, c: CallId)
    requires IsCallerStep(a) && CallerEnabled(s, a) && Turned(s, c)
    ensures Turned(CallerNext(s, a), c)
  {
  }

  lemma LoopKeepsTurned(s: State, a: Action, c: CallId)
    requires !IsCallerStep(a) && LoopEnabled(s, a) && Turned(s, c)
    ensures Turned(LoopNext(s, a), c)
  {
  }

  lemma {:induction false} FlagsRefuseNewCalls(actions: seq<Action>, n: nat, c: CallId)
    requires Possible(actions) && n <= |actions| && Possible(actions[..n])
    requires After(actions[..n]).draining || After(actions[..n]).closed
    requires c !in After(actions[..n]).calls
    ensures Turned(After(actions), c)
  {
    if n == |actions| {
      assert actions[..n] == actions;
    } else {
      var m := |actions| - 1;
      assert actions[..m][..n] == actions[..n];
      FlagsRefuseNewCalls(actions[..m], n, c);
      if IsCallerStep(actions[m]) {
        CallerKeepsTurned(After(actions[..m]), actions[m], c);
      } else {
        LoopKeepsTurned(After(actions[..m]), actions[m], c);
      }
    }
  }

  lemma QuietLoopKeepsEnd(s: State, a: Action)
    requires IsQuietLoopStep(a) && LoopEnabled(s, a) && (s.done <==> s.loop.Stopped?)
    ensures LoopNext(s, a).done <==> LoopNext(s, a).loop.Stopped?
  {
  }

  lemma StepKeepsEnd(s: State, a: Action)
    requires Enabled(s, a) && (s.done <==> s.loop.Stopped?)
    ensures Next(s, a).done <==> Next(s, a).loop.Stopped?
  {
    if IsQuietLoopStep(a) {
      QuietLoopKeepsEnd(s, a);
    }
  }

  /** Once the read loop has ended, `done` is closed, so no call waits for ever. */
  lemma {:induction false} EndReleasesCalls(actions: seq<Action>, c: CallId)
    requires Possible(actions)
    ensures After(actions).done <==> After(actions).loop.Stopped?
    ensures After(actions).loop.Stopped? && In(After(actions), c, Waiting) ==> Enabled(After(actions), SeeConnDone(c))
  {
    if actions != [] {
      var n := |actions| - 1;
      EndReleasesCalls(actions[..n], c);
      StepKeepsEnd(After(actions[..n]), actions[n]);
    }
  }
}
