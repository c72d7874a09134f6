/**
 * What becomes of the invalidations of a near cache (hotrod/near_cache.go, internal/connection/conn.go), over all runs:
 * which writes send one, in which order they arrive, which are dropped, and what else makes an item leave.
 */
module Invalidations {
  import opened Wrappers
  import opened Words
  import opened NearCache
  import L = LruModel

  // ---------- the channel ----------

  /** The connection reads the notice while the channel holds as many events as it can. */
  predicate Drops(s: State, a: Action, e: Notice) {
    a.ReadEvent? && s.wire != [] && s.wire[0] == e && |s.events| == 64
  }

  ghost predicate DroppedAt(max: int, actions: seq<Action>, i: nat, e: Notice) {
    i < |actions| && Possible(max, actions[..i]) && Drops(After(max, actions[..i]), actions[i], e)
  }

  lemma DroppedOneMore(max: int, actions: seq<Action>, i: nat, e: Notice)
    requires Possible(max, actions) && i < |actions| - 1
    ensures DroppedAt(max, actions, i, e) <==> DroppedAt(max, actions[..|actions| - 1], i, e)
  {
    assert actions[..|actions| - 1][..i] == actions[..i];
  }

  lemma DroppedOrNow(max: int, actions: seq<Action>, i: nat, e: Notice)
    requires Possible(max, actions) && actions != [] && DroppedAt(max, actions, i, e)
    ensures var n := |actions| - 1;
            DroppedAt(max, actions[..n], i, e) || Drops(After(max, actions[..n]), actions[n], e)
  {
    if i < |actions| - 1 {
      DroppedOneMore(max, actions, i, e);
    }
  }

  lemma DroppedSoFar(max: int, actions: seq<Action>, e: Notice)
    requires Possible(max, actions) && actions != []
    ensures var n := |actions| - 1;
            (exists i :: DroppedAt(max, actions, i, e)) <==>
            (exists i :: DroppedAt(max, actions[..n], i, e)) || Drops(After(max, actions[..n]), actions[n], e)
  {
    var n := |actions| - 1;
    forall i: nat | DroppedAt(max, actions, i, e)
      ensures DroppedAt(max, actions[..n], i, e) || Drops(After(max, actions[..n]), actions[n], e)
    {
      DroppedOrNow(max, actions, i, e);
    }
    forall i: nat | DroppedAt(max, actions[..n], i, e)
      ensures DroppedAt(max, actions, i, e)
    {
      DroppedOneMore(max, actions, i, e);
    }
    assert Drops(After(max, actions[..n]), actions[n], e) ==> DroppedAt(max, actions, n, e);
  }

  lemma StepDrops(max: int, s: State, a: Action, e: Notice)
    requires Enabled(s, a) && |s.events| <= 64
    ensures |Next(max, s, a).events| <= 64
    ensures e in Next(max, s, a).overflowed <==>
            e in s.overflowed || Drops(s, a, e)
  {
  }

  /** A notice is dropped exactly if it is read while the channel holds 64 events; it never holds more. */
  lemma {:induction false} OverflowedIff(max: int, actions: seq<Action>, e: Notice)
    requires Possible(max, actions)
    ensures |After(max, actions).events| <= 64
    ensures e in After(max, actions).overflowed <==> exists i :: DroppedAt(max, actions, i, e)
  {
    if actions != [] {
      var n := |actions| - 1;
      OverflowedIff(max, actions[..n], e);
      StepDrops(max, After(max, actions[..n]), actions[n], e);
      DroppedSoFar(max, actions, e);
    }
  }

  /** How many events the connection has read. */
  function EventsRead(actions: seq<Action>): nat {
    if actions == [] then 0
    else EventsRead(actions[..|actions| - 1]) + if actions[|actions| - 1].ReadEvent? then 1 else 0
  }

  lemma StepReads(max: int, s: State, a: Action)
    requires Enabled(s, a)
    ensures |Next(max, s, a).events| <= |s.events| + if a.ReadEvent? then 1 else 0
    ensures !a.ReadEvent? || |s.events| < 64 ==> Next(max, s, a).overflowed == s.overflowed
  {
  }

  /** A channel of 64 needs 64 events to be full, so the first one dropped is at least the 65th. */
  lemma {:induction false} FewEventsFit(max: int, actions: seq<Action>)
    requires Possible(max, actions)
    ensures |After(max, actions).events| <= EventsRead(actions)
    ensures EventsRead(actions) <= 64 ==> After(max, actions).overflowed == {}
  {
    if actions != [] {
      var n := |actions| - 1;
      FewEventsFit(max, actions[..n]);
      StepReads(max, After(max, actions[..n]), actions[n]);
    }
  }

  // ---------- which writes send an invalidation ----------

  /** The step makes the write: what it writes, whether the server's filter matches, and whether a notice goes out. */
  predicate Makes(s: State, a: Action, write: Write) {
    && write.filtered == (write.key in s.filter)
    && if write.own then
         && a.OwnWrite? && a.key == write.key && a.value == write.value
         && write.sent == (write.filtered && a.notified)
       else a == OtherWrite(write.key, write.value) && write.sent == write.filtered
  }

  /** Step i made write w. */
  ghost predicate WrittenAt(max: int, actions: seq<Action>, i: nat, w: nat, write: Write) {
    && i < |actions| && Possible(max, actions[..i])
    && |After(max, actions[..i]).writes| == w && Makes(After(max, actions[..i]), actions[i], write)
  }

  lemma WritesStay(max: int, s: State, a: Action, w: nat)
    requires Enabled(s, a) && w < |s.writes|
    ensures w < |Next(max, s, a).writes| && Next(max, s, a).writes[w] == s.writes[w]
  {
  }

  lemma StepWrites(max: int, s: State, a: Action)
    requires Enabled(s, a)
    ensures |Next(max, s, a).writes| <= |s.writes| + 1
    ensures |Next(max, s, a).writes| > |s.writes| ==> Makes(s, a, Next(max, s, a).writes[|s.writes|])
  {
  }

  /**
   * Every write is one that somebody made: another client's is announced exactly if the filter matched its key, an own
   * one exactly if, besides, the server notifies the writer.
   */
  lemma {:induction false} WritesAreMade(max: int, actions: seq<Action>, w: nat)
    requires Possible(max, actions) && w < |After(max, actions).writes|
    ensures exists i :: WrittenAt(max, actions, i, w, After(max, actions).writes[w])
  {
    var n := |actions| - 1;
    var s := After(max, actions[..n]);
    if w < |s.writes| {
      WritesAreMade(max, actions[..n], w);
      WritesStay(max, s, actions[n], w);
      var i: nat :| WrittenAt(max, actions[..n], i, w, s.writes[w]);
      assert actions[..n][..i] == actions[..i];
      assert WrittenAt(max, actions, i, w, s.writes[w]);
    } else {
      StepWrites(max, s, actions[n]);
      assert WrittenAt(max, actions, n, w, After(max, actions).writes[w]);
    }
  }

  /** Step i gave up the call that owed the notice. */
  ghost predicate GivenUpAt(max: int, actions: seq<Action>, i: nat, e: Notice) {
    && i < |actions| && actions[i].OwnFails? && Possible(max, actions[..i])
    && var s := After(max, actions[..i]);
    && actions[i].call in s.owns && s.owns[actions[i].call] == e
  }

  lemma StepGivesUp(max: int, s: State, a: Action, e: Notice)
    requires Enabled(s, a)
    ensures e in Next(max, s, a).abandoned <==>
            e in s.abandoned || (a.OwnFails? && a.call in s.owns && s.owns[a.call] == e)
  {
  }

  /** A local Remove is given up exactly where its call gets no answer. */
  lemma {:induction false} AbandonedIff(max: int, actions: seq<Action>, e: Notice)
    requires Possible(max, actions)
    ensures e in After(max, actions).abandoned <==> exists i :: GivenUpAt(max, actions, i, e)
  {
    if actions != [] {
      var n := |actions| - 1;
      AbandonedIff(max, actions[..n], e);
      StepGivesUp(max, After(max, actions[..n]), actions[n], e);
      forall i: nat | i < n
        ensures GivenUpAt(max, actions, i, e) <==> GivenUpAt(max, actions[..n], i, e)
      {
        assert actions[..n][..i] == actions[..i];
      }
      assert GivenUpAt(max, actions, n, e) <==>
          actions[n].OwnFails? && actions[n].call in After(max, actions[..n]).owns &&
          After(max, actions[..n]).owns[actions[n].call] == e;
    }
  }

  // ---------- the order of arrival ----------

  /** All notices on their way, the next to be applied first. */
  function OnTheWay(s: State): seq<Notice> {
    (if s.applying.Some? then [s.applying.value] else []) + s.events + s.wire
  }

  ghost predicate InOrder(notices: seq<Notice>, bound: nat) {
    && (forall i :: 0 <= i < |notices| ==> notices[i].write < bound)
    && (forall i, j :: 0 <= i < j < |notices| ==> notices[i].write < notices[j].write)
  }

  /** The queues of notices lose at their heads and grow at their ends. */
  ghost predicate Moves(s: State, a: Action, t: State) {
    match a
    case TakeEvent =>
      && t.wire == s.wire && t.writes == s.writes
      && s.applying.None? && t.applying.Some? && s.events == [t.applying.value] + t.events
    case ApplyEvent =>
      t.wire == s.wire && t.writes == s.writes && t.events == s.events && s.applying.Some? && t.applying.None?
    case ReadEvent =>
      && t.writes == s.writes && t.applying == s.applying && s.wire != [] && t.wire == s.wire[1..]
      && (t.events == s.events + [s.wire[0]] || t.events == s.events)
    case _ =>
      && t.applying == s.applying && t.events == s.events && |s.writes| <= |t.writes|
      && (t.wire == s.wire || (|s.writes| < |t.writes| && exists k :: t.wire == s.wire + [Notice(|s.writes|, k)]))
  }

  lemma StepMoves(max: int, s: State, a: Action)
    requires Enabled(s, a)
    ensures Moves(s, a, Next(max, s, a))
  {
    if a.TakeEvent? {
      assert s.events == [s.events[0]] + s.events[1..];
    }
  }

  lemma StepKeepsOrder(max: int, s: State, a: Action)
    requires Enabled(s, a) && InOrder(OnTheWay(s), |s.writes|)
    ensures InOrder(OnTheWay(Next(max, s, a)), |Next(max, s, a).writes|)
  {
    var t := Next(max, s, a);
    StepMoves(max, s, a);
    QueuesKeepOrder(s, a, t);
  }

  lemma OrderedWithout(notices: seq<Notice>, k: nat, bound: nat)
    requires InOrder(notices, bound) && k < |notices|
    ensures InOrder(notices[..k] + notices[k + 1..], bound)
  {
  }

  lemma OrderedWith(notices: seq<Notice>, e: Notice, bound: nat)
    requires InOrder(notices, e.write) && e.write < bound
    ensures InOrder(notices + [e], bound)
  {
  }

  lemma ReadKeepsOrder(s: State, t: State)
    requires s.wire != [] && t.applying == s.applying && t.wire == s.wire[1..] && t.writes == s.writes
    requires t.events == s.events + [s.wire[0]] || t.events == s.events
    requires InOrder(OnTheWay(s), |s.writes|)
    ensures InOrder(OnTheWay(t), |t.writes|)
  {
    var before := OnTheWay(s);
    assert s.wire == [s.wire[0]] + s.wire[1..];
    if t.events != s.events {
      assert OnTheWay(t) == before;
    } else {
      var k := |before| - |s.wire|;
      OrderedWithout(before, k, |s.writes|);
      assert OnTheWay(t) == before[..k] + before[k + 1..];
    }
  }

  lemma SendKeepsOrder(s: State, t: State)
    requires t.applying == s.applying && t.events == s.events && |s.writes| <= |t.writes|
    requires t.wire == s.wire || (|s.writes| < |t.writes| && exists k :: t.wire == s.wire + [Notice(|s.writes|, k)])
    requires InOrder(OnTheWay(s), |s.writes|)
    ensures InOrder(OnTheWay(t), |t.writes|)
  {
    if t.wire == s.wire {
      assert OnTheWay(t) == OnTheWay(s);
    } else {
      var k :| t.wire == s.wire + [Notice(|s.writes|, k)];
      OrderedWith(OnTheWay(s), Notice(|s.writes|, k), |t.writes|);
      assert OnTheWay(t) == OnTheWay(s) + [Notice(|s.writes|, k)];
    }
  }

  lemma QueuesKeepOrder(s: State, a: Action, t: State)
    requires InOrder(OnTheWay(s), |s.writes|)
    requires Moves(s, a, t)
    ensures InOrder(OnTheWay(t), |t.writes|)
  {
    if a.TakeEvent? {
      assert OnTheWay(t) == OnTheWay(s);
    } else if a.ApplyEvent? {
      OrderedWithout(OnTheWay(s), 0, |s.writes|);
      assert OnTheWay(t) == OnTheWay(s)[..0] + OnTheWay(s)[1..];
    } else if a.ReadEvent? {
      ReadKeepsOrder(s, t);
    } else {
      SendKeepsOrder(s, t);
    }
  }

  /** Invalidations are applied in the order of the writes they announce. */
  lemma {:induction false} AppliedInOrder(max: int, actions: seq<Action>)
    requires Possible(max, actions)
    ensures InOrder(OnTheWay(After(max, actions)), |After(max, actions).writes|)
  {
    if actions != [] {
      var n := |actions| - 1;
      AppliedInOrder(max, actions[..n]);
      StepKeepsOrder(max, After(max, actions[..n]), actions[n]);
    }
  }

  // ---------- how an item leaves ----------

  /** The step removes the item's key, stores something else under it, or needs the room. */
  predicate TakesOut(max: int, s: State, a: Action, x: L.Item) {
    match a
    case OwnRemove(call) => call in s.owns && s.owns[call].key == x.key
    case ApplyEvent => s.applying.Some? && s.applying.value.key == x.key
    case Store(call) => call in s.gets && (s.gets[call].key == x.key || |s.store| >= max)
    case _ => false
  }

  lemma LocalStepKeepsItem(max: int, s: State, a: Action, x: L.Item)
    requires L.KeysDiffer(s.store) && x in s.store && !IsUpdateStep(a) && CacheEnabled(s, a)
    requires a.Get? || a.OwnRemove? || a.ApplyEvent? || a.Store?
    ensures x in CacheNext(max, s, a).store || TakesOut(max, s, a, x)
  {
    var k := if a.Get? then a.key else if a.OwnRemove? then s.owns[a.call].key
             else if a.ApplyEvent? then s.applying.value.key else s.gets[a.call].key;
    L.WithoutFacts(s.store, k);
    L.LookupIn(s.store, x);
  }

  lemma RemoteStepKeepsItem(max: int, s: State, a: Action)
    requires Enabled(s, a) && !a.Get? && !a.OwnRemove? && !a.ApplyEvent? && !a.Store?
    ensures Next(max, s, a).store == s.store
  {
  }

  /** In every run an item stays until its own key is removed or stored again, or a full store evicts it. */
  lemma ItemsStay(max: int, actions: seq<Action>, x: L.Item)
    requires Possible(max, actions) && actions != []
    requires x in After(max, actions[..|actions| - 1]).store
    ensures x in After(max, actions).store ||
            TakesOut(max, After(max, actions[..|actions| - 1]), actions[|actions| - 1], x)
  {
    var n := |actions| - 1;
    var s, a := After(max, actions[..n]), actions[n];
    ReachableInv(max, actions[..n]);
    if a.Get? || a.OwnRemove? || a.ApplyEvent? || a.Store? {
      LocalStepKeepsItem(max, s, a, x);
    } else {
      RemoteStepKeepsItem(max, s, a);
    }
  }

  // ---------- how calls begin and end ----------

  /**
   * A Get is under way from its local miss until the server answers that there is nothing, the request fails, or the
   * fetched value has been stored and its update scheduled; an own write until its local Remove or until it gives up.
   */
  lemma CallsAreUnderWay(max: int, s: State, a: Action, c: nat)
    requires Enabled(s, a)
    ensures var t := Next(max, s, a);
            && (c !in s.gets && c in t.gets <==> a.Get? && a.call == c && L.Lookup(s.store, a.key).None?)
            && (c in s.gets && c !in t.gets <==>
                  || (a == Fetch(c) && Current(s, s.gets[c].key).None?)
                  || a == FetchFails(c) || (a.Schedule? && a.call == c))
            && (c !in s.owns && c in t.owns <==> a.OwnWrite? && a.call == c)
            && (c in s.owns && c !in t.owns <==> a == OwnRemove(c) || a == OwnFails(c))
  {
  }

  // ---------- without overflow ----------

  /**
   * Where fewer than 65 events have been read and nothing is under way, an item is stale exactly if the last write to
   * its key wrote something else and either fell between fetch and store, or was not announced and, if it was an own
   * one, was given up.
   */
  lemma StaleWithoutOverflow(max: int, actions: seq<Action>, x: L.Item)
    requires Possible(max, actions) && Quiet(After(max, actions)) && EventsRead(actions) <= 64
    requires x in After(max, actions).store
    ensures x.key in After(max, actions).born
    ensures var s := After(max, actions);
            Current(s, x.key) != Some(x.value) <==>
            match LastWrite(s.writes, x.key)
            case None => false
            case Some(last) =>
              && last < |s.writes| && s.writes[last].value != Some(x.value) && s.born[x.key].fetched <= last
              && (|| last < s.born[x.key].stored
                  || (!s.writes[last].sent && (s.writes[last].own ==> Notice(last, x.key) in s.abandoned)))
  {
    var s := After(max, actions);
    QuietStaleIff(max, actions, x);
    FewEventsFit(max, actions);
    LastWriteDecides(s.writes, x.key);
  }
}
