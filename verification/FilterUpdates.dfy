/**
 * Which stored keys the filter covers that a near cache has sent last (hotrod/near_cache.go): updates started by a
 * Get run one at a time, those started by removals beside them, and an update collects its keys once.
 */
module FilterUpdates {
  import opened Wrappers
  import opened Words
  import opened NearCache
  import L = LruModel

  /** No filter update is running, nor about to be scheduled. */
  ghost predicate UpdatesQuiet(s: State) {
    s.updates.running == map[] && forall c :: c in s.gets ==> !s.gets[c].Scheduling?
  }

  /** The key is not in the snapshot whose filter the server took over last. */
  predicate Uncovered(u: Updates, k: Key) {
    match u.installed
    case None => true
    case Some(number) => number < |u.snapshots| ==> k !in u.snapshots[number]
  }

  ghost predicate ToBeScheduled(s: State, k: Key) {
    exists c :: c in s.gets && s.gets[c] == Scheduling(k)
  }

  ghost predicate ToBeCollected(u: Updates) {
    exists id :: IsStarting(u, id)
  }

  /** The last snapshot has the key, or the next one is still to come, or the key was skipped. */
  ghost predicate Accounted(s: State, k: Key) {
    k in LastSnapshot(s.updates) || k in s.updates.skipped || ToBeScheduled(s, k) || ToBeCollected(s.updates)
  }

  ghost predicate AllAccounted(s: State) {
    && (forall x :: x in s.store ==> Accounted(s, x.key))
    && (forall k :: k in s.updates.skipped ==> k !in LastSnapshot(s.updates))
    && L.KeysDiffer(s.store)
  }

  /** A step that has nothing to do with updates keeps all accounts, if it adds no item. */
  lemma AccountedTransfer(s: State, t: State)
    requires AllAccounted(s) && L.KeysDiffer(t.store)
    requires forall x :: x in t.store ==> exists y :: y in s.store && y.key == x.key
    requires t.updates.snapshots == s.updates.snapshots && t.updates.skipped == s.updates.skipped
    requires forall k :: ToBeScheduled(s, k) ==> ToBeScheduled(t, k)
    requires ToBeCollected(s.updates) ==> ToBeCollected(t.updates)
    ensures AllAccounted(t)
  {
    forall x | x in t.store
      ensures Accounted(t, x.key)
    {
      var y :| y in s.store && y.key == x.key;
      assert Accounted(s, y.key);
    }
  }

  lemma LocalKeepsAccounts(max: int, s: State, a: Action)
    requires AllAccounted(s) && Enabled(s, a) && (a.Get? || a.OwnRemove? || a.ApplyEvent?)
    ensures AllAccounted(Next(max, s, a))
  {
    var t := Next(max, s, a);
    var op := if a.Get? then L.Get(a.key) else
              L.Remove(if a.OwnRemove? then s.owns[a.call].key else s.applying.value.key);
    StoreMembers(max, s.store, op);
    forall k | ToBeScheduled(s, k)
      ensures ToBeScheduled(t, k)
    {
      var c :| c in s.gets && s.gets[c] == Scheduling(k);
      assert t.gets[c] == Scheduling(k);
    }
    AccountedTransfer(s, t);
  }

  lemma StoreKeepsAccounts(max: int, s: State, a: Action)
    requires AllAccounted(s) && Enabled(s, a) && a.Store?
    ensures AllAccounted(Next(max, s, a))
  {
    var t, g := Next(max, s, a), s.gets[a.call];
    StoreMembers(max, s.store, L.Put(g.key, g.value));
    forall x | x in t.store
      ensures Accounted(t, x.key)
    {
      if x == L.Item(g.key, g.value) {
        assert t.gets[a.call] == Scheduling(x.key);
      } else {
        assert Accounted(s, x.key);
        if ToBeScheduled(s, x.key) {
          var c :| c in s.gets && s.gets[c] == Scheduling(x.key);
          assert t.gets[c] == Scheduling(x.key);
        }
      }
    }
  }

  lemma ScheduleKeepsAccounts(s: State, a: Action)
    requires AllAccounted(s) && a.Schedule? && UpdateEnabled(s, a)
    ensures AllAccounted(UpdateNext(s, a))
  {
    var t := UpdateNext(s, a);
    forall x | x in t.store
      ensures Accounted(t, x.key)
    {
      assert Accounted(s, x.key);
      if !s.updates.bloomDirty {
        assert IsStarting(t.updates, a.update);
      } else if ToBeCollected(s.updates) {
        assert t.updates.running == s.updates.running;
        var id :| IsStarting(s.updates, id);
        assert IsStarting(t.updates, id);
      } else if ToBeScheduled(s, x.key) && x.key != s.gets[a.call].key {
        var c :| c in s.gets && s.gets[c] == Scheduling(x.key);
        assert t.gets[c] == Scheduling(x.key);
      }
    }
  }

  lemma SnapshotKeepsAccounts(max: int, s: State, a: Action)
    requires AllAccounted(s) && Enabled(s, a) && a.Snapshot?
    ensures AllAccounted(Next(max, s, a))
  {
    var t := Next(max, s, a);
    assert LastSnapshot(t.updates) == StoredKeys(s.store);
  }

  predicate IsAnswerStep(a: Action) {
    a.RemovalUpdate? || a.Install? || a.UpdateFails? || a.ClearDirty?
  }

  lemma AnswerKeepsAccounts(s: State, a: Action)
    requires AllAccounted(s) && IsAnswerStep(a) && UpdateEnabled(s, a)
    ensures AllAccounted(UpdateNext(s, a))
  {
    var t := UpdateNext(s, a);
    if ToBeCollected(s.updates) {
      var id :| IsStarting(s.updates, id);
      assert IsStarting(t.updates, id);
    }
    AccountedTransfer(s, t);
  }

  predicate IsRemoteStep(a: Action) {
    !IsUpdateStep(a) && !a.Get? && !a.OwnRemove? && !a.ApplyEvent? && !a.Store?
  }

  lemma RemoteKeepsAccounts(max: int, s: State, a: Action)
    requires AllAccounted(s) && IsRemoteStep(a) && CacheEnabled(s, a)
    ensures AllAccounted(CacheNext(max, s, a))
  {
    var t := CacheNext(max, s, a);
    assert t.store == s.store && t.updates == s.updates;
    forall k | ToBeScheduled(s, k)
      ensures ToBeScheduled(t, k)
    {
      var c :| c in s.gets && s.gets[c] == Scheduling(k);
      assert t.gets[c] == Scheduling(k);
    }
    AccountedTransfer(s, t);
  }

  lemma {:induction false} ReachableAccounts(max: int, actions: seq<Action>)
    requires Possible(max, actions)
    ensures AllAccounted(After(max, actions))
  {
    if actions != [] {
      var n := |actions| - 1;
      var s, a := After(max, actions[..n]), actions[n];
      ReachableAccounts(max, actions[..n]);
      if a.Get? || a.OwnRemove? || a.ApplyEvent? {
        LocalKeepsAccounts(max, s, a);
      } else if a.Store? {
        StoreKeepsAccounts(max, s, a);
      } else if a.Schedule? {
        ScheduleKeepsAccounts(s, a);
      } else if a.Snapshot? {
        SnapshotKeepsAccounts(max, s, a);
      } else if IsAnswerStep(a) {
        AnswerKeepsAccounts(s, a);
      } else {
        RemoteKeepsAccounts(max, s, a);
      }
    }
  }

  // ---------- the fate of the last snapshot ----------

  /** The last snapshot's update failed, or its filter was replaced by that of an older snapshot. */
  predicate LastWasted(u: Updates) {
    var last := |u.snapshots| - 1;
    last >= 0 && (last in u.failed || last in u.overtaken)
  }

  ghost predicate OnItsWay(u: Updates, number: int) {
    exists id :: IsSent(u, id) && u.running[id].number == number
  }

  predicate Wasted(u: Updates, number: nat) {
    number in u.failed || number in u.overtaken
  }

  /** Each snapshot is sent once, and one that has arrived or failed is no longer on its way. */
  ghost predicate SentOnce(u: Updates) {
    && (forall id :: IsSent(u, id) ==> u.running[id].number < |u.snapshots|)
    && (forall i, j :: IsSent(u, i) && IsSent(u, j) && u.running[i].number == u.running[j].number ==> i == j)
  }

  ghost predicate WastedIsOver(u: Updates) {
    forall n: nat :: Wasted(u, n) ==> n < |u.snapshots| && !OnItsWay(u, n)
  }

  ghost predicate InstalledIsOver(u: Updates) {
    u.installed.Some? ==>
      u.installed.value < |u.snapshots| && !OnItsWay(u, u.installed.value) && !Wasted(u, u.installed.value)
  }

  ghost predicate LastIsKnown(u: Updates) {
    var last := |u.snapshots| - 1;
    last >= 0 ==> OnItsWay(u, last) || u.installed == Some(last) || LastWasted(u)
  }

  ghost predicate FatesKnown(u: Updates) {
    SentOnce(u) && WastedIsOver(u) && InstalledIsOver(u) && LastIsKnown(u)
  }

  lemma OnItsWayAfter(u: Updates, update: nat, t: Updates, n: int)
    requires SentOnce(u) && IsSent(u, update) && t.running == AfterAnswer(u, update)
    ensures OnItsWay(t, n) <==> OnItsWay(u, n) && n != u.running[update].number
  {
    if OnItsWay(u, n) && n != u.running[update].number {
      var id :| IsSent(u, id) && u.running[id].number == n;
      assert IsSent(t, id) && t.running[id] == u.running[id];
    }
    if OnItsWay(t, n) {
      var id :| IsSent(t, id) && t.running[id].number == n;
      assert IsSent(u, id) && u.running[id] == t.running[id];
    }
  }

  lemma SentOnceAfter(u: Updates, update: nat, t: Updates)
    requires SentOnce(u) && IsSent(u, update) && t.running == AfterAnswer(u, update) && t.snapshots == u.snapshots
    ensures SentOnce(t)
  {
    forall id | IsSent(t, id)
      ensures IsSent(u, id) && t.running[id] == u.running[id]
    {
    }
  }

  lemma InstallKeepsFates(s: State, a: Action)
    requires FatesKnown(s.updates) && a.Install? && UpdateEnabled(s, a)
    ensures FatesKnown(UpdatesNext(s, a))
  {
    var u, t := s.updates, UpdatesNext(s, a);
    var number := u.running[a.update].number;
    SentOnceAfter(u, a.update, t);
    assert OnItsWay(u, number);
    forall n: int
      ensures OnItsWay(t, n) <==> OnItsWay(u, n) && n != number
    {
      OnItsWayAfter(u, a.update, t, n);
    }
    forall n: nat | Wasted(t, n)
      ensures n < |t.snapshots| && !OnItsWay(t, n)
    {
      assert Wasted(u, n) || u.installed == Some(n);
    }
    assert !Wasted(u, number);
  }

  lemma FailureKeepsFates(s: State, a: Action)
    requires FatesKnown(s.updates) && a.UpdateFails? && UpdateEnabled(s, a)
    ensures FatesKnown(UpdatesNext(s, a))
  {
    var u, t := s.updates, UpdatesNext(s, a);
    var number := u.running[a.update].number;
    SentOnceAfter(u, a.update, t);
    assert OnItsWay(u, number);
    forall n: int
      ensures OnItsWay(t, n) <==> OnItsWay(u, n) && n != number
    {
      OnItsWayAfter(u, a.update, t, n);
    }
    forall n: nat | Wasted(t, n)
      ensures n < |t.snapshots| && !OnItsWay(t, n)
    {
      assert Wasted(u, n) || n == number;
    }
  }

  lemma SnapshotKeepsFates(s: State, a: Action)
    requires FatesKnown(s.updates) && a.Snapshot? && UpdateEnabled(s, a)
    ensures FatesKnown(UpdatesNext(s, a))
  {
    var u, t := s.updates, UpdatesNext(s, a);
    assert IsSent(t, a.update) && t.running[a.update].number == |t.snapshots| - 1;
    forall id | IsSent(t, id) && id != a.update
      ensures IsSent(u, id) && t.running[id] == u.running[id]
    {
    }
    forall n: int | OnItsWay(t, n) && n != |u.snapshots|
      ensures OnItsWay(u, n)
    {
      var id :| IsSent(t, id) && t.running[id].number == n;
      assert IsSent(u, id);
    }
    forall n: nat | Wasted(t, n)
      ensures n < |t.snapshots| && !OnItsWay(t, n)
    {
      assert Wasted(u, n);
    }
  }

  lemma SameSent(u: Updates, t: Updates)
    requires FatesKnown(u) && t.snapshots == u.snapshots && t.installed == u.installed
    requires t.failed == u.failed && t.overtaken == u.overtaken
    requires forall id :: IsSent(t, id) <==> IsSent(u, id)
    requires forall id :: IsSent(t, id) && IsSent(u, id) ==> t.running[id] == u.running[id]
    ensures FatesKnown(t)
  {
    forall n: int
      ensures OnItsWay(t, n) <==> OnItsWay(u, n)
    {
      if OnItsWay(u, n) {
        var id :| IsSent(u, id) && u.running[id].number == n;
        assert IsSent(t, id);
      }
      if OnItsWay(t, n) {
        var id :| IsSent(t, id) && t.running[id].number == n;
        assert IsSent(u, id);
      }
    }
    forall n: nat | Wasted(t, n)
      ensures Wasted(u, n)
    {
    }
  }

  lemma OtherKeepsFates(s: State, a: Action)
    requires FatesKnown(s.updates) && (a.Schedule? || a.RemovalUpdate? || a.ClearDirty?) && UpdateEnabled(s, a)
    ensures FatesKnown(UpdatesNext(s, a))
  {
    SameSent(s.updates, UpdatesNext(s, a));
  }

  lemma CacheKeepsUpdates(max: int, s: State, a: Action)
    requires !IsUpdateStep(a) && CacheEnabled(s, a)
    ensures CacheNext(max, s, a).updates == s.updates
  {
  }

  lemma StepKeepsFates(max: int, s: State, a: Action)
    requires FatesKnown(s.updates) && Enabled(s, a)
    ensures FatesKnown(Next(max, s, a).updates)
  {
    if a.Install? {
      InstallKeepsFates(s, a);
    } else if a.UpdateFails? {
      FailureKeepsFates(s, a);
    } else if a.Snapshot? {
      SnapshotKeepsFates(s, a);
    } else if IsUpdateStep(a) {
      OtherKeepsFates(s, a);
    } else {
      CacheKeepsUpdates(max, s, a);
    }
  }

  lemma {:induction false} ReachableFates(max: int, actions: seq<Action>)
    requires Possible(max, actions)
    ensures FatesKnown(After(max, actions).updates)
  {
    if actions != [] {
      var n := |actions| - 1;
      ReachableFates(max, actions[..n]);
      StepKeepsFates(max, After(max, actions[..n]), actions[n]);
    }
  }

  // ---------- the flag ----------

  /** Updates that a Get has started, up to the clearing of the flag. */
  predicate IsFlagged(u: Updates, id: nat) {
    id in u.running && (u.running[id].Settled? || u.running[id].flagged)
  }

  ghost predicate FlagOk(u: Updates) {
    && (forall i, j :: IsFlagged(u, i) && IsFlagged(u, j) ==> i == j)
    && (u.bloomDirty <==> exists id :: IsFlagged(u, id))
  }

  lemma ScheduleKeepsFlag(s: State, a: Action)
    requires FlagOk(s.updates) && a.Schedule? && UpdateEnabled(s, a)
    ensures FlagOk(UpdatesNext(s, a))
  {
    var u, t := s.updates, UpdatesNext(s, a);
    if u.bloomDirty {
      assert t.running == u.running;
      assert forall id :: IsFlagged(t, id) <==> IsFlagged(u, id);
    } else {
      var update := a.update;
      forall id
        ensures IsFlagged(t, id) <==> id == update
      {
        assert !IsFlagged(u, id);
      }
      assert IsFlagged(t, update);
    }
  }

  lemma ClearKeepsFlag(s: State, a: Action)
    requires FlagOk(s.updates) && a.ClearDirty? && UpdateEnabled(s, a)
    ensures FlagOk(UpdatesNext(s, a))
  {
    var update := a.update;
    assert IsFlagged(s.updates, update);
    assert forall id :: IsFlagged(UpdatesNext(s, a), id) ==> IsFlagged(s.updates, id) && id != update;
  }

  lemma OtherKeepsFlag(s: State, a: Action)
    requires FlagOk(s.updates) && IsUpdateStep(a) && !a.Schedule? && !a.ClearDirty? && UpdateEnabled(s, a)
    ensures FlagOk(UpdatesNext(s, a))
  {
    forall id
      ensures IsFlagged(UpdatesNext(s, a), id) <==> IsFlagged(s.updates, id)
    {
    }
  }

  lemma StepKeepsFlag(max: int, s: State, a: Action)
    requires FlagOk(s.updates) && Enabled(s, a)
    ensures FlagOk(Next(max, s, a).updates)
  {
    if a.Schedule? {
      ScheduleKeepsFlag(s, a);
    } else if a.ClearDirty? {
      ClearKeepsFlag(s, a);
    } else if IsUpdateStep(a) {
      OtherKeepsFlag(s, a);
    } else {
      CacheKeepsUpdates(max, s, a);
    }
  }

  /** Updates started by a Get run one at a time, and the flag is set exactly while there is one. */
  lemma {:induction false} SingleFlight(max: int, actions: seq<Action>)
    requires Possible(max, actions)
    ensures FlagOk(After(max, actions).updates)
  {
    if actions != [] {
      var n := |actions| - 1;
      SingleFlight(max, actions[..n]);
      StepKeepsFlag(max, After(max, actions[..n]), actions[n]);
    }
  }

  /** Without failures and without updates beside the flag, snapshots are installed in order. */
  ghost predicate InOrder(u: Updates) {
    && u.failed == {} && u.overtaken == {}
    && (forall id :: id in u.running ==> IsFlagged(u, id))
    && (u.installed.Some? ==>
          u.installed.value < |u.snapshots| &&
          forall id :: IsSent(u, id) ==> u.installed.value < u.running[id].number)
  }

  lemma StepKeepsOrder(s: State, a: Action)
    requires InOrder(s.updates) && FlagOk(s.updates) && FatesKnown(s.updates)
    requires IsUpdateStep(a) && !a.RemovalUpdate? && !a.UpdateFails? && UpdateEnabled(s, a)
    ensures InOrder(UpdatesNext(s, a))
  {
    var u, t := s.updates, UpdatesNext(s, a);
    forall id | id in t.running
      ensures IsFlagged(t, id)
      ensures IsSent(t, id) ==> (a.Snapshot? && id == a.update) || (IsSent(u, id) && t.running[id] == u.running[id])
    {
      assert id in u.running ==> IsFlagged(u, id);
    }
    if a.Install? {
      var update := a.update;
      assert IsFlagged(u, update);
      assert forall id :: IsSent(t, id) ==> IsFlagged(u, id) && id != update;
    }
  }

  lemma {:induction false} ReachableOrder(max: int, actions: seq<Action>)
    requires Possible(max, actions)
    requires forall i :: 0 <= i < |actions| ==> !actions[i].RemovalUpdate? && !actions[i].UpdateFails?
    ensures InOrder(After(max, actions).updates)
  {
    if actions != [] {
      var n := |actions| - 1;
      var s := After(max, actions[..n]);
      ReachableOrder(max, actions[..n]);
      if IsUpdateStep(actions[n]) {
        SingleFlight(max, actions[..n]);
        ReachableFates(max, actions[..n]);
        assert !actions[n].RemovalUpdate? && !actions[n].UpdateFails?;
        StepKeepsOrder(s, actions[n]);
      } else {
        CacheKeepsUpdates(max, s, actions[n]);
      }
    }
  }

  // ---------- what starts an update, and what its filter does ----------

  /** A step starts an update exactly if it is one for removals, or a Get's that finds the flag clear. */
  lemma StartsIff(s: State, a: Action, id: nat)
    requires IsUpdateStep(a) && UpdateEnabled(s, a)
    ensures IsStarting(UpdatesNext(s, a), id) && !IsStarting(s.updates, id) <==>
            a == RemovalUpdate(id) || (a.Schedule? && a.update == id && !s.updates.bloomDirty)
  {
  }

  /** The server's filter matches the keys of the snapshot installed last. */
  ghost predicate FilterMatches(s: State) {
    s.updates.installed.Some? ==>
      s.updates.installed.value < |s.updates.snapshots| && s.updates.snapshots[s.updates.installed.value] <= s.filter
  }

  lemma UpdateKeepsFilter(s: State, a: Action)
    requires FilterMatches(s) && IsUpdateStep(a) && UpdateEnabled(s, a)
    ensures FilterMatches(UpdateNext(s, a))
  {
  }

  lemma CacheKeepsFilter(max: int, s: State, a: Action)
    requires FilterMatches(s) && !IsUpdateStep(a) && CacheEnabled(s, a)
    ensures FilterMatches(CacheNext(max, s, a))
  {
    CacheKeepsUpdates(max, s, a);
  }

  lemma {:induction false} ReachableFilter(max: int, actions: seq<Action>)
    requires Possible(max, actions)
    ensures FilterMatches(After(max, actions))
  {
    if actions != [] {
      var n := |actions| - 1;
      var s, a := After(max, actions[..n]), actions[n];
      ReachableFilter(max, actions[..n]);
      if IsUpdateStep(a) {
        UpdateKeepsFilter(s, a);
      } else {
        CacheKeepsFilter(max, s, a);
      }
    }
  }

  /** So another client's write to a covered key is announced. */
  lemma CoveredKeysMatch(max: int, actions: seq<Action>, k: Key, v: Option<Bytes>)
    requires Possible(max, actions) && !Uncovered(After(max, actions).updates, k)
    ensures var s := After(max, actions);
            k in s.filter && Notice(|s.writes|, k) in Next(max, s, OtherWrite(k, v)).wire
  {
    ReachableFilter(max, actions);
  }

  // ---------- what is covered when nothing is under way ----------

  /**
   * When no update is under way, a stored key is outside the last snapshot exactly if its Get found the flag set after
   * that snapshot had been taken.
   */
  lemma OutsideLastSnapshotIff(max: int, actions: seq<Action>, x: L.Item)
    requires Possible(max, actions) && UpdatesQuiet(After(max, actions)) && x in After(max, actions).store
    ensures var u := After(max, actions).updates; x.key !in LastSnapshot(u) <==> x.key in u.skipped
  {
    ReachableAccounts(max, actions);
    assert Accounted(After(max, actions), x.key);
  }

  /** And the last snapshot is the one installed exactly if its update did not fail and no older one came behind it. */
  lemma LastIsInstalledIff(max: int, actions: seq<Action>)
    requires Possible(max, actions) && UpdatesQuiet(After(max, actions)) && After(max, actions).updates.snapshots != []
    ensures var u := After(max, actions).updates; u.installed == Some(|u.snapshots| - 1) <==> !LastWasted(u)
  {
    ReachableFates(max, actions);
  }

  /** No filter is installed, or that of an older snapshot without the key. */
  predicate OutsideOlder(u: Updates, k: Key) {
    u.installed.None? || (u.installed.value < |u.snapshots| - 1 && k !in u.snapshots[u.installed.value])
  }

  /**
   * So a stored key is outside the last installed filter, with nothing under way, exactly if it was skipped; or, where
   * the last snapshot was wasted, exactly if the older one that is installed, if any, does not have it.
   */
  lemma UncoveredIff(max: int, actions: seq<Action>, x: L.Item)
    requires Possible(max, actions) && UpdatesQuiet(After(max, actions)) && x in After(max, actions).store
    ensures var u := After(max, actions).updates;
            Uncovered(u, x.key) <==> if LastWasted(u) then OutsideOlder(u, x.key) else x.key in u.skipped
  {
    var u := After(max, actions).updates;
    OutsideLastSnapshotIff(max, actions, x);
    ReachableFates(max, actions);
  }

  /** Where no update fails and none is started by removals, the flag alone decides. */
  lemma SkippedIffUncovered(max: int, actions: seq<Action>, x: L.Item)
    requires Possible(max, actions) && UpdatesQuiet(After(max, actions)) && x in After(max, actions).store
    requires forall i :: 0 <= i < |actions| ==> !actions[i].RemovalUpdate? && !actions[i].UpdateFails?
    ensures Uncovered(After(max, actions).updates, x.key) <==> x.key in After(max, actions).updates.skipped
  {
    UncoveredIff(max, actions, x);
    ReachableOrder(max, actions);
  }
}
