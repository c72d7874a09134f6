/**
 * What lies behind everything that a call of the multiplexed connection can return, and behind the loop's own end
 * (internal/connection/conn.go), over all runs of the state machine.
 */
module Causes {
  import opened Wrappers
  import opened Multiplex

  /** Step i read this header, and it is the last one that was read. */
  ghost predicate LastHeader(actions: seq<Action>, i: nat, id: MsgId, error: bool) {
    i < |actions| && actions[i] == ReadHeader(id, error) && forall j :: i < j < |actions| ==> !actions[j].ReadHeader?
  }

  ghost predicate HeaderRead(actions: seq<Action>, id: MsgId, error: bool) {
    exists i :: LastHeader(actions, i, id, error)
  }

  /** Step j sent what the last header read before it announced. */
  ghost predicate SentAt(actions: seq<Action>, j: nat, id: MsgId, error: bool, a: Action) {
    j < |actions| && actions[j] == a && HeaderRead(actions[..j], id, error)
  }

  /** What the server and the stream did for a call to have this response. */
  ghost predicate Caused(actions: seq<Action>, r: Response) {
    match r
    case Decoded(id, _) => exists j :: SentAt(actions, j, id, false, Send(true))
    case DecodeError(id, _) => exists j :: SentAt(actions, j, id, false, Send(false))
    case ServerError(id) => exists j, decodes :: SentAt(actions, j, id, true, Send(decodes))
    case StreamError => ReadFails in actions
  }

  lemma CausedMore(actions: seq<Action>, a: Action, r: Response)
    requires Caused(actions, r)
    ensures Caused(actions + [a], r)
  {
    var more := actions + [a];
    forall j: nat, id, error, b | SentAt(actions, j, id, error, b)
      ensures SentAt(more, j, id, error, b)
    {
      assert more[..j] == actions[..j];
    }
  }

  /** What the loop remembers of the header it deals with, and of the end of the stream. */
  ghost predicate LoopCaused(l: Loop, actions: seq<Action>) {
    && (l.Took? || l.InHand? ==> HeaderRead(actions, l.id, l.error))
    && (l.Visiting? || l.Failing? || l.Deleting? || l.ClearingListeners? ==> ReadFails in actions)
    && (l.CheckDraining? || l.CheckPending? || l.CheckListeners? || l.Closing? ==>
          exists id :: HeaderRead(actions, id, false))
    && (l.Exiting? || l.Stopped? ==> ReadFails in actions || LoopClose in actions)
  }

  lemma HeaderStillRead(actions: seq<Action>, a: Action, id: MsgId, error: bool)
    requires HeaderRead(actions, id, error) && !a.ReadHeader?
    ensures HeaderRead(actions + [a], id, error)
  {
    var i :| LastHeader(actions, i, id, error);
    assert LastHeader(actions + [a], i, id, error);
  }

  lemma LoopCausedMore(l: Loop, actions: seq<Action>, a: Action)
    requires LoopCaused(l, actions) && !a.ReadHeader?
    ensures LoopCaused(l, actions + [a])
  {
    forall id, error | HeaderRead(actions, id, error)
      ensures HeaderRead(actions + [a], id, error)
    {
      HeaderStillRead(actions, a, id, error);
    }
  }

  lemma LoopStepCaused(s: State, actions: seq<Action>, a: Action)
    requires LoopCaused(s.loop, actions) && !IsCallerStep(a) && LoopEnabled(s, a)
    ensures LoopCaused(LoopNext(s, a).loop, actions + [a])
  {
    var more := actions + [a];
    assert a in more;
    if a.ReadHeader? {
      assert LastHeader(more, |actions|, a.id, a.error);
    } else {
      LoopCausedMore(s.loop, actions, a);
    }
  }

  lemma SendCauses(s: State, actions: seq<Action>, a: Action)
    requires LoopCaused(s.loop, actions) && (a.Send? || a.SendFailure?) && LoopEnabled(s, a)
    ensures var k := LoopNext(s, a).calls[s.loop.call]; k.channel.Some? && Caused(actions + [a], k.channel.value)
  {
    var more, k := actions + [a], LoopNext(s, a).calls[s.loop.call];
    if a.Send? {
      assert more[..|actions|] == actions;
      assert SentAt(more, |actions|, s.loop.id, s.loop.error, a);
    }
  }

  ghost predicate AllCaused(s: State, actions: seq<Action>) {
    && LoopCaused(s.loop, actions)
    && forall c, r :: c in s.calls && Has(s.calls[c], r) ==> Caused(actions, r)
  }

  lemma StepCauses(s: State, actions: seq<Action>, a: Action)
    requires AllCaused(s, actions) && Enabled(s, a)
    ensures AllCaused(Next(s, a), actions + [a])
  {
    var t := Next(s, a);
    if IsCallerStep(a) {
      CallerLeavesLoop(s, a);
      LoopCausedMore(s.loop, actions, a);
    } else {
      LoopStepCaused(s, actions, a);
    }
    forall c, r | c in t.calls && Has(t.calls[c], r)
      ensures Caused(actions + [a], r)
    {
      if IsSetupStep(a) {
        SetupKeepsResponse(s, a, c, r);
      } else if IsCallerStep(a) {
        SelectKeepsResponse(s, a, c, r);
      } else {
        LoopKeepsResponse(s, a, c, r);
      }
      if c in s.calls && Has(s.calls[c], r) {
        CausedMore(actions, a, r);
      } else {
        SendCauses(s, actions, a);
      }
    }
  }

  lemma {:induction false} ReachableCauses(actions: seq<Action>)
    requires Possible(actions)
    ensures AllCaused(After(actions), actions)
  {
    if actions != [] {
      var n := |actions| - 1;
      ReachableCauses(actions[..n]);
      StepCauses(After(actions[..n]), actions[..n], actions[n]);
      assert actions[..n] + [actions[n]] == actions;
    }
  }

  /**
   * A call gets the kind of answer that the server gave: the stream's end only after a failed read, a server error
   * only after a header with its own number and an error status, and a decoded answer, or a failure to decode it,
   * only after such a header without one.
   */
  lemma AnswersAreCaused(actions: seq<Action>, c: CallId, r: Response)
    requires Possible(actions) && c in After(actions).calls && Has(After(actions).calls[c], r)
    ensures Caused(actions, r) && Matches(After(actions).calls[c], r)
  {
    ReachableCauses(actions);
    ReachableInv(actions);
    assert CallOk(After(actions), c);
  }

  /**
   * The loop deals with the header it read last, looks for idleness only after one without an error status, fails
   * calls only after a failed read, and ends only then or after closing its own connection.
   */
  lemma LoopIsCaused(actions: seq<Action>)
    requires Possible(actions)
    ensures LoopCaused(After(actions).loop, actions)
  {
    ReachableCauses(actions);
  }

  // ---------- where every other result comes from ----------

  /** The steps that lead a call to its result; a flag that was set stays set. */
  predicate ResultCaused(s: State, actions: seq<Action>, c: CallId, r: Result) {
    match r
    case Refused => s.closed || s.draining
    case WriteError => Write(c, false) in actions
    case Got(_) => Receive(c) in actions
    case ContextDone => SeeContextDone(c) in actions
    case ConnClosed => SeeConnDone(c) in actions && s.done
  }

  predicate PhaseCaused(s: State, actions: seq<Action>, c: CallId) {
    c in s.calls ==>
      match s.calls[c].phase
      case WriteFailed => Write(c, false) in actions
      case Cancelled => SeeContextDone(c) in actions
      case Unlistening(r) => ResultCaused(s, actions, c, r)
      case Returned(r) => ResultCaused(s, actions, c, r)
      case _ => true
  }

  /** Each flag is set exactly if one of its steps was taken. */
  predicate FlagsCaused(s: State, actions: seq<Action>) {
    && (s.draining <==> Drain in actions)
    && (s.closed <==> Close in actions || LoopClose in actions)
    && (s.done <==> CloseDone in actions)
  }

  lemma SetupCausesPhase(s: State, actions: seq<Action>, a: Action, c: CallId)
    requires IsSetupStep(a) && CallerEnabled(s, a) && PhaseCaused(s, actions, c)
    ensures PhaseCaused(CallerNext(s, a), actions + [a], c)
  {
  }

  lemma SelectCausesPhase(s: State, actions: seq<Action>, a: Action, c: CallId)
    requires !IsSetupStep(a) && IsCallerStep(a) && CallerEnabled(s, a) && PhaseCaused(s, actions, c)
    ensures PhaseCaused(CallerNext(s, a), actions + [a], c)
  {
    assert a in actions + [a];
  }

  lemma LoopCausesPhase(s: State, actions: seq<Action>, a: Action, c: CallId)
    requires !IsCallerStep(a) && LoopEnabled(s, a) && PhaseCaused(s, actions, c)
    ensures PhaseCaused(LoopNext(s, a), actions + [a], c)
  {
    if a.Send? || a.SendFailure? {
      var k := SendTouchesOneCall(s, a);
    } else {
      OnlySendsTouchCalls(s, a);
    }
  }

  lemma CallerCausesFlags(s: State, actions: seq<Action>, a: Action)
    requires IsCallerStep(a) && CallerEnabled(s, a) && FlagsCaused(s, actions)
    ensures FlagsCaused(CallerNext(s, a), actions + [a])
  {
  }

  lemma LoopCausesFlags(s: State, actions: seq<Action>, a: Action)
    requires !IsCallerStep(a) && LoopEnabled(s, a) && FlagsCaused(s, actions)
    ensures FlagsCaused(LoopNext(s, a), actions + [a])
  {
  }

  /** Whatever a call returns, it has gone the way to it, and the flags tell what has happened to the connection. */
  lemma {:induction false} ResultsAreCaused(actions: seq<Action>, c: CallId)
    requires Possible(actions)
    ensures PhaseCaused(After(actions), actions, c) && FlagsCaused(After(actions), actions)
  {
    if actions != [] {
      var n := |actions| - 1;
      var s, a := After(actions[..n]), actions[n];
      ResultsAreCaused(actions[..n], c);
      assert actions[..n] + [a] == actions;
      if IsSetupStep(a) {
        SetupCausesPhase(s, actions[..n], a, c);
        CallerCausesFlags(s, actions[..n], a);
      } else if IsCallerStep(a) {
        SelectCausesPhase(s, actions[..n], a, c);
        CallerCausesFlags(s, actions[..n], a);
      } else {
        LoopCausesPhase(s, actions[..n], a, c);
        LoopCausesFlags(s, actions[..n], a);
      }
    }
  }

  /** Every step of a call takes it to another phase, and every step of the loop the loop to another place. */
  lemma SetupMoves(s: State, a: Action)
    requires IsSetupStep(a) && CallerEnabled(s, a)
    ensures a.call in CallerNext(s, a).calls
    ensures a.call in s.calls ==> CallerNext(s, a).calls[a.call].phase != s.calls[a.call].phase
  {
  }

  lemma SelectMoves(s: State, a: Action)
    requires (IsSelectStep(a) || a.StorePending? || a.DeletePending?) && CallerEnabled(s, a)
    ensures a.call in s.calls && a.call in CallerNext(s, a).calls
    ensures CallerNext(s, a).calls[a.call].phase != s.calls[a.call].phase
  {
  }

  lemma LoopMoves(s: State, a: Action)
    requires !IsCallerStep(a) && !a.ClearListener? && LoopEnabled(s, a)
    ensures LoopNext(s, a).loop != s.loop
  {
  }

  /** Nothing but its own select makes a call wait, and there its context can always end it. */
  lemma CallsCanMove(s: State, c: CallId)
    requires c in s.calls
    ensures match s.calls[c].phase
            case Started => CallerEnabled(s, LoadClosed(c))
            case SawOpen => CallerEnabled(s, LoadDraining(c))
            case Admitted => CallerEnabled(s, if s.calls[c].listener.Some? then StoreListener(c) else DrawNumber(c))
            case Listening => s.calls[c].listener.Some? ==> CallerEnabled(s, DrawNumber(c))
            case Numbered => CallerEnabled(s, StorePending(c))
            case Writing => forall ok :: CallerEnabled(s, Write(c, ok))
            case WriteFailed => CallerEnabled(s, DeletePending(c))
            case Waiting =>
              && CallerEnabled(s, SeeContextDone(c))
              && (s.calls[c].channel.Some? ==> CallerEnabled(s, Receive(c)))
              && (s.done ==> CallerEnabled(s, SeeConnDone(c)))
            case Cancelled => CallerEnabled(s, DeletePending(c))
            case Unlistening(_) => CallerEnabled(s, DeleteListener(c))
            case Returned(_) => true
  {
  }

  /** The loop can always go on until it has stopped, whatever the stream brings. */
  lemma LoopCanMove(s: State)
    requires LoopOk(s)
    ensures match s.loop
            case Reading => LoopEnabled(s, ReadFails) && forall id, error :: LoopEnabled(s, ReadHeader(id, error))
            case Took(_, _) => LoopEnabled(s, LoadAndDelete)
            case CheckDraining => LoopEnabled(s, LoopLoadDraining)
            case CheckPending => LoopEnabled(s, RangePending)
            case CheckListeners => LoopEnabled(s, RangeListeners)
            case Closing => LoopEnabled(s, LoopClose)
            case Visiting(_) => LoopEnabled(s, EndPending)
            case Deleting(_, _, _) => LoopEnabled(s, DeleteVisited)
            case ClearingListeners => LoopEnabled(s, EndListeners)
            case Exiting => LoopEnabled(s, CloseDone)
            case _ => true
  {
  }

  // ---------- what is still pending ----------

  /** A pending entry's call waits, or is about to delete it; or the loop is, or the connection has ended. */
  predicate PendingLive(s: State, id: MsgId) {
    id in s.pending && s.pending[id] in s.calls ==>
      var p := s.calls[s.pending[id]].phase;
      || p.Writing? || p.WriteFailed? || p.Waiting? || p.Cancelled?
      || (s.loop.Deleting? && s.loop.id == id)
      || (p.Unlistening? && p.result == ConnClosed) || p == Returned(ConnClosed)
  }

  ghost predicate EntryOk(s: State, id: MsgId) {
    id in s.pending ==> PendingOk(s, id) && CallOk(s, s.pending[id])
  }

  lemma SetupKeepsLive(s: State, a: Action, id: MsgId)
    requires EntryOk(s, id) && IsSetupStep(a) && CallerEnabled(s, a) && PendingLive(s, id)
    ensures PendingLive(CallerNext(s, a), id)
  {
  }

  lemma SelectKeepsLive(s: State, a: Action, id: MsgId)
    requires EntryOk(s, id) && IsSelectStep(a) && CallerEnabled(s, a) && PendingLive(s, id)
    ensures PendingLive(CallerNext(s, a), id)
  {
  }

  lemma EntryStepKeepsLive(s: State, a: Action, id: MsgId)
    requires EntryOk(s, id) && (a.StorePending? || a.DeletePending?) && CallerEnabled(s, a) && PendingLive(s, id)
    ensures PendingLive(CallerNext(s, a), id)
  {
  }

  lemma FlagKeepsLive(s: State, a: Action, id: MsgId)
    requires IsFlagStep(a) && PendingLive(s, id)
    ensures PendingLive(CallerNext(s, a), id)
  {
  }

  lemma SendKeepsLive(s: State, a: Action, id: MsgId)
    requires EntryOk(s, id) && (a.Send? || a.SendFailure?) && LoopEnabled(s, a) && PendingLive(s, id)
    ensures PendingLive(LoopNext(s, a), id)
  {
    var k := SendTouchesOneCall(s, a);
    LoopDropsPending(s, a);
  }

  lemma LoopKeepsLive(s: State, a: Action, id: MsgId)
    requires !IsCallerStep(a) && !a.Send? && !a.SendFailure? && LoopEnabled(s, a) && PendingLive(s, id)
    ensures PendingLive(LoopNext(s, a), id)
  {
    OnlySendsTouchCalls(s, a);
  }

  /** So a call that has returned leaves nothing pending behind, while the connection lives. */
  lemma {:induction false} PendingIsLive(actions: seq<Action>, id: MsgId)
    requires Possible(actions)
    ensures PendingLive(After(actions), id)
  {
    if actions != [] {
      var n := |actions| - 1;
      var s, a := After(actions[..n]), actions[n];
      PendingIsLive(actions[..n], id);
      ReachableInv(actions[..n]);
      if id in s.pending {
        assert PendingOk(s, id);
        assert CallOk(s, s.pending[id]);
      }
      if IsSetupStep(a) {
        SetupKeepsLive(s, a, id);
      } else if IsSelectStep(a) {
        SelectKeepsLive(s, a, id);
      } else if IsFlagStep(a) {
        FlagKeepsLive(s, a, id);
      } else if IsCallerStep(a) {
        EntryStepKeepsLive(s, a, id);
      } else if a.Send? || a.SendFailure? {
        SendKeepsLive(s, a, id);
      } else {
        LoopKeepsLive(s, a, id);
      }
    }
  }

  // ---------- when the loop closes its own connection ----------

  /** At step i the loop looked for pending requests, or for listeners, and found none. */
  ghost predicate FoundNone(actions: seq<Action>, i: nat, a: Action) {
    && i < |actions| && actions[i] == a && Possible(actions[..i])
    && (a.RangePending? ==> After(actions[..i]).pending == map[])
    && (a.RangeListeners? ==> After(actions[..i]).listeners == map[])
  }

  /** While draining it found nothing pending, and after that no listener. */
  ghost predicate FoundIdle(actions: seq<Action>) {
    && Drain in actions
    && exists i: nat, j: nat :: i < j && FoundNone(actions, i, RangePending) && FoundNone(actions, j, RangeListeners)
  }

  ghost predicate IdleSoFar(l: Loop, actions: seq<Action>) {
    && (l.CheckPending? || l.CheckListeners? || l.Closing? ==> Drain in actions)
    && (l.CheckListeners? ==> exists i: nat :: FoundNone(actions, i, RangePending))
    && (l.Closing? || LoopClose in actions ==> FoundIdle(actions))
  }

  lemma FoundMore(actions: seq<Action>, a: Action, i: nat, b: Action)
    requires FoundNone(actions, i, b)
    ensures FoundNone(actions + [a], i, b)
  {
    assert (actions + [a])[..i] == actions[..i];
  }

  lemma IdleMore(actions: seq<Action>, a: Action)
    requires FoundIdle(actions)
    ensures FoundIdle(actions + [a])
  {
    var i: nat, j: nat :| i < j && FoundNone(actions, i, RangePending) && FoundNone(actions, j, RangeListeners);
    FoundMore(actions, a, i, RangePending);
    FoundMore(actions, a, j, RangeListeners);
  }

  lemma RangesFindIdle(actions: seq<Action>, a: Action)
    requires Possible(actions) && IdleSoFar(After(actions).loop, actions)
    requires (a.RangePending? || a.RangeListeners?) && LoopEnabled(After(actions), a)
    ensures IdleSoFar(LoopNext(After(actions), a).loop, actions + [a])
  {
    var s, more, n := After(actions), actions + [a], |actions|;
    assert more[..n] == actions;
    if LoopClose in actions {
      IdleMore(actions, a);
    }
    if a.RangePending? && s.pending == map[] {
      assert FoundNone(more, n, RangePending);
    }
    if a.RangeListeners? && s.listeners == map[] {
      var i: nat :| FoundNone(actions, i, RangePending);
      FoundMore(actions, a, i, RangePending);
      assert i < n && FoundNone(more, n, RangeListeners);
    }
  }

  lemma OthersFindIdle(s: State, actions: seq<Action>, a: Action)
    requires IdleSoFar(s.loop, actions) && FlagsCaused(s, actions)
    requires !IsCallerStep(a) && !a.RangePending? && !a.RangeListeners? && LoopEnabled(s, a)
    ensures IdleSoFar(LoopNext(s, a).loop, actions + [a])
  {
    if LoopClose in actions || s.loop.Closing? {
      IdleMore(actions, a);
    }
  }

  lemma CallersFindIdle(s: State, actions: seq<Action>, a: Action)
    requires IdleSoFar(s.loop, actions) && IsCallerStep(a) && CallerEnabled(s, a)
    ensures IdleSoFar(CallerNext(s, a).loop, actions + [a])
  {
    CallerLeavesLoop(s, a);
    if LoopClose in actions || s.loop.Closing? {
      IdleMore(actions, a);
    }
    if s.loop.CheckListeners? {
      var i: nat :| FoundNone(actions, i, RangePending);
      FoundMore(actions, a, i, RangePending);
    }
  }

  /** The loop closes its connection only where it is draining and has found nothing pending and no listener. */
  lemma {:induction false} ClosesOnlyIdle(actions: seq<Action>)
    requires Possible(actions)
    ensures IdleSoFar(After(actions).loop, actions)
    ensures LoopClose in actions ==> FoundIdle(actions)
  {
    if actions != [] {
      var n := |actions| - 1;
      var s, a := After(actions[..n]), actions[n];
      ClosesOnlyIdle(actions[..n]);
      ResultsAreCaused(actions[..n], 0);
      assert actions[..n] + [a] == actions;
      if IsCallerStep(a) {
        CallersFindIdle(s, actions[..n], a);
      } else if a.RangePending? || a.RangeListeners? {
        RangesFindIdle(actions[..n], a);
      } else {
        OthersFindIdle(s, actions[..n], a);
      }
    }
  }

  /** And where it has just answered and finds itself so, nothing coming between, it does close and end. */
  lemma ClosesWhenIdle(s: State)
    requires s.loop.CheckDraining? && s.draining && s.pending == map[] && s.listeners == map[]
    ensures var s1 := LoopNext(s, LoopLoadDraining);
            && LoopEnabled(s1, RangePending)
            && var s2 := LoopNext(s1, RangePending);
            && LoopEnabled(s2, RangeListeners)
            && var s3 := LoopNext(s2, RangeListeners);
            && LoopEnabled(s3, LoopClose)
            && var s4 := LoopNext(s3, LoopClose);
            && s4.closed && LoopEnabled(s4, CloseDone)
            && LoopNext(s4, CloseDone).done
  {
  }

  /** Anywhere else it goes on reading: without Drain, with a request pending, or with a listener. */
  lemma ReadsOnUnlessIdle(s: State)
    ensures s.loop.CheckDraining? && !s.draining ==> LoopNext(s, LoopLoadDraining) == s.(loop := Reading)
    ensures s.loop.CheckPending? && s.pending != map[] ==> LoopNext(s, RangePending) == s.(loop := Reading)
    ensures s.loop.CheckListeners? && s.listeners != map[] ==> LoopNext(s, RangeListeners) == s.(loop := Reading)
  {
  }

  // ---------- how the loop ends ----------

  /** A pending call is failed in three steps, after which its entry is gone and the loop looks for the next one. */
  lemma FailsOneCall(s: State, id: MsgId)
    requires Inv(s) && s.loop.Visiting? && id in s.pending && id !in s.loop.visited
    ensures LoopEnabled(s, Visit(id))
    ensures var s1 := LoopNext(s, Visit(id));
            && LoopEnabled(s1, SendFailure)
            && var s2 := LoopNext(s1, SendFailure);
            && LoopEnabled(s2, DeleteVisited)
            && var s3, c := LoopNext(s2, DeleteVisited), s.pending[id];
            && s3.pending == s.pending - {id} && s3.loop == Visiting(s.loop.visited + {id})
            && c in s3.calls && s3.calls[c].channel == Some(StreamError)
  {
    assert PendingOk(s, id);
    assert CallOk(s, s.pending[id]);
  }

  /** With nothing pending and no listener it ends and closes done, and nothing else happens to the calls. */
  lemma EndsAfterFailure(s: State)
    requires s.loop.Reading? && s.pending == map[] && s.listeners == map[]
    ensures LoopEnabled(s, ReadFails)
    ensures var s1 := LoopNext(s, ReadFails);
            && LoopEnabled(s1, EndPending)
            && var s2 := LoopNext(s1, EndPending);
            && LoopEnabled(s2, EndListeners)
            && var s3 := LoopNext(s2, EndListeners);
            && LoopEnabled(s3, CloseDone)
            && LoopNext(s3, CloseDone) == s.(done := true, loop := Stopped)
  {
  }
}
