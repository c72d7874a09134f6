/**
 * Coherence of the near cache (hotrod/near_cache.go): every interleaving of reads, own writes, writes of
 * other clients, invalidation events and filter updates, with the recency list as the local store.
 */
module NearCache {
  import opened Wrappers
  import opened Words
  import L = LruModel
  type Key = L.Key

  /**
   * One write on the server. `filtered` says that the server's filter matched the key, `own` that the writer is
   * this near cache's client, `sent` that an invalidation went out: for a filtered write of another client
   * always, for an own one if the server notifies the writer too.
   */
  datatype Write = Write(key: Key, value: Option<Bytes>, filtered: bool, own: bool, sent: bool)

  /**
   * A Get after its local miss: the request is on its way, the reply fetched at `time` is to be stored, or a filter
   * update is to be scheduled for the stored key.
   */
  datatype GetCall = Asked(key: Key) | Holding(key: Key, value: Bytes, time: nat) | Scheduling(key: Key)

  /**
   * A running filter update: its keys are still to be collected, or snapshot `number` is on its way to the server. Of
   * those that a Get has started, `flagged`, there is one at a time: it has yet to clear the flag when it is settled.
   */
  datatype Update = Starting(flagged: bool) | Sent(flagged: bool, number: nat) | Settled

  /** When an item was fetched and when it was stored, counted in writes. */
  datatype Birth = Birth(fetched: nat, stored: nat)

  const EVENTS_CAPACITY := 64

  /** What one write owes the near cache: its position in `writes` and the key to invalidate. */
  datatype Notice = Notice(write: nat, key: Key)

  datatype Updates = Updates(
    bloomDirty: bool,
    running: map<nat, Update>,
    snapshots: seq<set<Key>>,           // the keys collected by filter updates, in the order of collection
    installed: Option<nat>,             // the snapshot whose filter the server took over last
    failed: set<nat>,                   // snapshots whose update failed
    overtaken: set<nat>,                // snapshots that an older one has replaced on the server
    skipped: set<Key>)                  // keys not in the last snapshot, for which a Get found the flag set since then

  datatype State = State(
    writes: seq<Write>,
    filter: set<Key>,
    wire: seq<Notice>,                  // events sent and not yet read by the connection
    events: seq<Notice>,                // the channel to the invalidation loop
    applying: Option<Notice>,           // the event taken from the channel and not yet applied
    overflowed: set<Notice>,            // events dropped because the channel was full
    gets: map<nat, GetCall>,
    owns: map<nat, Notice>,             // own Put and Remove calls the server has executed, before the local Remove
    abandoned: set<Notice>,             // own writes whose call returned an error, without a local Remove
    store: L.Recency,
    born: map<Key, Birth>,
    updates: Updates)

  const INITIAL :=
    State([], {}, [], [], None, {}, map[], map[], {}, [], map[], Updates(false, map[], [], None, {}, {}, {}))

  datatype Action =
    | Get(call: nat, key: Key)                       // local lookup; a miss goes on to the server
    | Fetch(call: nat)                               // the server answers the read
    | FetchFails(call: nat)
    | Store(call: nat)                               // the fetched value is stored locally
    | OtherWrite(key: Key, value: Option<Bytes>)
    | OwnWrite(call: nat, key: Key, value: Option<Bytes>, notified: bool)
    | OwnRemove(call: nat)                           // the eager local Remove after an own write
    | OwnFails(call: nat)                            // the answer to an own write is lost: the call gives up
    | ReadEvent                                      // the connection moves an event into the channel, or drops it
    | TakeEvent
    | ApplyEvent
    | Schedule(call: nat, update: nat)               // the compare-and-swap on the flag
    | RemovalUpdate(update: nat)                     // enough removals start an update without the flag
    | Snapshot(update: nat)                          // a filter update collects the local keys
    | Install(update: nat, matched: set<Key>)        // it reaches the server; matched includes false positives
    | UpdateFails(update: nat)
    | ClearDirty(update: nat)
    | ServerAdds(key: Key)                           // the server extends its filter on its own

  /** The server's contents after a sequence of writes. */
  function Contents(writes: seq<Write>): map<Key, Bytes> {
    if writes == [] then map[]
    else
      var w := writes[|writes| - 1];
      var before := Contents(writes[..|writes| - 1]);
      if w.value.Some? then before[w.key := w.value.value] else before - {w.key}
  }

  function Current(s: State, k: Key): Option<Bytes> {
    var m := Contents(s.writes);
    if k in m then Some(m[k]) else None
  }

  /** The steps of filter updates, from the flag to the server. */
  predicate IsUpdateStep(a: Action) {
    a.Schedule? || a.RemovalUpdate? || a.Snapshot? || a.Install? || a.UpdateFails? || a.ClearDirty?
  }

  predicate IsStarting(u: Updates, update: nat) {
    update in u.running && u.running[update].Starting?
  }

  predicate IsSent(u: Updates, update: nat) {
    update in u.running && u.running[update].Sent?
  }

  predicate UpdateEnabled(s: State, a: Action)
    requires IsUpdateStep(a)
  {
    match a
    case Schedule(call, update) => call in s.gets && s.gets[call].Scheduling? && update !in s.updates.running
    case RemovalUpdate(update) => update !in s.updates.running
    case Snapshot(update) => IsStarting(s.updates, update)
    case Install(update, matched) =>
      && IsSent(s.updates, update) && s.updates.running[update].number < |s.updates.snapshots|
      && s.updates.snapshots[s.updates.running[update].number] <= matched
    case UpdateFails(update) => IsSent(s.updates, update)
    case ClearDirty(update) => update in s.updates.running && s.updates.running[update].Settled?
  }

  predicate CacheEnabled(s: State, a: Action)
    requires !IsUpdateStep(a)
  {
    match a
    case Get(call, _) => call !in s.gets
    case Fetch(call) => call in s.gets && s.gets[call].Asked?
    case FetchFails(call) => call in s.gets && s.gets[call].Asked?
    case Store(call) => call in s.gets && s.gets[call].Holding?
    case OwnWrite(call, _, _, _) => call !in s.owns
    case OwnRemove(call) => call in s.owns
    case OwnFails(call) => call in s.owns
    case ReadEvent => s.wire != []
    case TakeEvent => s.events != [] && s.applying.None?
    case ApplyEvent => s.applying.Some?
    case _ => true
  }

  predicate Enabled(s: State, a: Action) {
    if IsUpdateStep(a) then UpdateEnabled(s, a) else CacheEnabled(s, a)
  }

  function LocalRemove(max: int, s: State, k: Key): State {
    s.(store := L.Apply(max, s.store, L.Remove(k)))
  }

  function StoredKeys(store: L.Recency): set<Key> {
    set x | x in store :: x.key
  }

  function LastSnapshot(u: Updates): set<Key> {
    if u.snapshots == [] then {} else u.snapshots[|u.snapshots| - 1]
  }

  /** After the server's answer a flagged update clears the flag, and any other one is over. */
  function AfterAnswer(u: Updates, update: nat): map<nat, Update>
    requires IsSent(u, update)
  {
    if u.running[update].flagged then u.running[update := Settled] else u.running - {update}
  }

  function UpdatesNext(s: State, a: Action): Updates
    requires IsUpdateStep(a) && UpdateEnabled(s, a)
  {
    var u := s.updates;
    match a
    case Schedule(call, update) =>
      var k := s.gets[call].key;
      if !u.bloomDirty then u.(bloomDirty := true, running := u.running[update := Starting(true)])
      else u.(skipped := if k in LastSnapshot(u) then u.skipped else u.skipped + {k})
    case RemovalUpdate(update) => u.(running := u.running[update := Starting(false)])
    case Snapshot(update) =>
      u.(running := u.running[update := Sent(u.running[update].flagged, |u.snapshots|)],
         snapshots := u.snapshots + [StoredKeys(s.store)], skipped := {})
    case Install(update, _) =>
      var number := u.running[update].number;
      u.(running := AfterAnswer(u, update), installed := Some(number),
         overtaken := if u.installed.Some? && u.installed.value > number then u.overtaken + {u.installed.value}
                      else u.overtaken)
    case UpdateFails(update) =>
      u.(running := AfterAnswer(u, update), failed := u.failed + {u.running[update].number})
    case ClearDirty(update) => u.(bloomDirty := false, running := u.running - {update})
  }

  function UpdateNext(s: State, a: Action): State
    requires IsUpdateStep(a) && UpdateEnabled(s, a)
  {
    s.(updates := UpdatesNext(s, a), gets := if a.Schedule? then s.gets - {a.call} else s.gets,
       filter := if a.Install? then a.matched else s.filter)
  }

  function CacheNext(max: int, s: State, a: Action): State
    requires !IsUpdateStep(a) && CacheEnabled(s, a)
  {
    var n := |s.writes|;
    match a
    case Get(call, k) =>
      if L.Lookup(s.store, k).Some? then s.(store := L.Apply(max, s.store, L.Get(k)))
      else s.(gets := s.gets[call := Asked(k)])
    case Fetch(call) =>
      var k := s.gets[call].key;
      match Current(s, k) {
        case Some(v) => s.(gets := s.gets[call := Holding(k, v, n)])
        case None => s.(gets := s.gets - {call})
      }
    case FetchFails(call) => s.(gets := s.gets - {call})
    case Store(call) =>
      var g := s.gets[call];
      s.(store := L.Apply(max, s.store, L.Put(g.key, g.value)),
         born := s.born[g.key := Birth(g.time, n)], gets := s.gets[call := Scheduling(g.key)])
    case OtherWrite(k, v) =>
      s.(writes := s.writes + [Write(k, v, k in s.filter, false, k in s.filter)],
         wire := if k in s.filter then s.wire + [Notice(n, k)] else s.wire)
    case OwnWrite(call, k, v, notified) =>
      s.(writes := s.writes + [Write(k, v, k in s.filter, true, k in s.filter && notified)],
         wire := if k in s.filter && notified then s.wire + [Notice(n, k)] else s.wire,
         owns := s.owns[call := Notice(n, k)])
    case OwnRemove(call) =>
      LocalRemove(max, s.(owns := s.owns - {call}), s.owns[call].key)
    case OwnFails(call) => s.(owns := s.owns - {call}, abandoned := s.abandoned + {s.owns[call]})
    case ReadEvent =>
      if |s.events| < EVENTS_CAPACITY then s.(wire := s.wire[1..], events := s.events + [s.wire[0]])
      else s.(wire := s.wire[1..], overflowed := s.overflowed + {s.wire[0]})
    case TakeEvent => s.(events := s.events[1..], applying := Some(s.events[0]))
    case ApplyEvent => LocalRemove(max, s.(applying := None), s.applying.value.key)
    case ServerAdds(k) => s.(filter := s.filter + {k})
  }

  function Next(max: int, s: State, a: Action): State
    requires Enabled(s, a)
  {
    if IsUpdateStep(a) then UpdateNext(s, a) else CacheNext(max, s, a)
  }

  /** A run from the initial state in which every action is possible when it is taken. */
  ghost predicate Possible(max: int, actions: seq<Action>)
    decreases |actions|, 0
  {
    actions != [] ==>
      var n := |actions| - 1;
      Possible(max, actions[..n]) && Enabled(After(max, actions[..n]), actions[n])
  }

  ghost function After(max: int, actions: seq<Action>): State
    requires Possible(max, actions)
    decreases |actions|, 1
  {
    if actions == [] then INITIAL
    else var n := |actions| - 1; Next(max, After(max, actions[..n]), actions[n])
  }

  // ---------- what explains a stale item ----------

  /** The event is still queued somewhere or being applied. */
  predicate InvalidationPending(s: State, e: Notice) {
    e in s.wire || e in s.events || s.applying == Some(e)
  }

  /** The local Remove after own write w is still to come, or never comes because the call gave up. */
  predicate Unremoved(s: State, w: nat)
    requires w < |s.writes|
  {
    var owed := Notice(w, s.writes[w].key);
    s.writes[w].own ==> owed in s.owns.Values || owed in s.abandoned
  }

  /** The invalidation for write w was never sent, is on its way, or was dropped because the channel was full. */
  predicate Uninvalidated(s: State, w: nat)
    requires w < |s.writes|
  {
    var owed := Notice(w, s.writes[w].key);
    s.writes[w].sent ==> InvalidationPending(s, owed) || owed in s.overflowed
  }

  /** Why write w has not removed an item born at b: it fell between fetch and store, or nothing has acted on it yet. */
  predicate Explained(s: State, b: Birth, w: nat)
    requires w < |s.writes|
  {
    w < b.stored || (Unremoved(s, w) && Uninvalidated(s, w))
  }

  ghost predicate ItemOk(s: State, x: L.Item) {
    && x.key in s.born
    && var b := s.born[x.key];
    && b.fetched <= b.stored <= |s.writes|
    && x.key in Contents(s.writes[..b.fetched]) && Contents(s.writes[..b.fetched])[x.key] == x.value
    && forall w :: b.stored <= w < |s.writes| && s.writes[w].key == x.key ==> Explained(s, b, w)
  }

  ghost predicate CallOk(s: State, g: GetCall) {
    g.Holding? ==>
      && g.time <= |s.writes|
      && g.key in Contents(s.writes[..g.time]) && Contents(s.writes[..g.time])[g.key] == g.value
  }

  ghost predicate Inv(s: State) {
    && L.KeysDiffer(s.store)
    && (forall x :: x in s.store ==> ItemOk(s, x))
    && (forall c :: c in s.gets ==> CallOk(s, s.gets[c]))
  }

  lemma StoreMembers(max: int, s: L.Recency, op: L.LruOp)
    requires L.KeysDiffer(s) && !op.Clear?
    ensures L.KeysDiffer(L.Apply(max, s, op))
    ensures forall x :: x in L.Apply(max, s, op) ==>
              (x in s && (op.Get? || x.key != op.key)) || (op.Put? && x == L.Item(op.key, op.value))
  {
    L.ApplyKeepsKeysDifferent(max, s, op);
    L.WithoutFacts(s, op.key);
    assert forall x :: x in L.Evicted(max, s) ==> x in s;
  }

  /** Appending a write changes nothing recorded before it. */
  lemma ItemOkAfterWrite(s: State, t: State, x: L.Item, w: Write)
    requires ItemOk(s, x)
    requires t.writes == s.writes + [w] && t.born == s.born
    requires forall e :: InvalidationPending(s, e) ==> InvalidationPending(t, e)
    requires s.overflowed <= t.overflowed && s.owns.Values <= t.owns.Values && s.abandoned == t.abandoned
    requires w.key == x.key ==> Explained(t, s.born[x.key], |s.writes|)
    ensures ItemOk(t, x)
  {
    var b := s.born[x.key];
    assert t.writes[..b.fetched] == s.writes[..b.fetched];
    forall i | b.stored <= i < |t.writes| && t.writes[i].key == x.key
      ensures Explained(t, b, i)
    {
      if i < |s.writes| {
        assert Explained(s, b, i);
      }
    }
  }

  lemma CallOkAfterWrite(s: State, t: State, g: GetCall, w: Write)
    requires CallOk(s, g) && t.writes == s.writes + [w]
    ensures CallOk(t, g)
  {
    if g.Holding? {
      assert t.writes[..g.time] == s.writes[..g.time];
    }
  }

  /** An item stays explained when no explanation of a write to its key goes away. */
  lemma ItemOkTransfer(s: State, t: State, x: L.Item)
    requires ItemOk(s, x) && t.writes == s.writes
    requires x.key in t.born && t.born[x.key] == s.born[x.key]
    requires forall w :: 0 <= w < |s.writes| && s.writes[w].key == x.key && Explained(s, s.born[x.key], w) ==>
               Explained(t, s.born[x.key], w)
    ensures ItemOk(t, x)
  {
  }

  lemma WriteKeepsInv(max: int, s: State, a: Action)
    requires Inv(s) && Enabled(s, a) && (a.OtherWrite? || a.OwnWrite?)
    ensures Inv(Next(max, s, a))
  {
    var t := Next(max, s, a);
    var w := t.writes[|s.writes|];
    if a.OwnWrite? {
      assert t.owns[a.call] == Notice(|s.writes|, a.key);
      forall v | v in s.owns.Values
        ensures v in t.owns.Values
      {
        var c :| c in s.owns && s.owns[c] == v;
        assert t.owns[c] == v;
      }
    }
    forall x | x in t.store
      ensures ItemOk(t, x)
    {
      ItemOkAfterWrite(s, t, x, w);
    }
    forall c | c in t.gets
      ensures CallOk(t, t.gets[c])
    {
      CallOkAfterWrite(s, t, s.gets[c], w);
    }
  }

  /** Removing a key locally ends every item of that key, so the explanations that end with it are not missed. */
  lemma RemoveKeepsInv(max: int, s: State, a: Action)
    requires Inv(s) && Enabled(s, a) && (a.OwnRemove? || a.ApplyEvent?)
    ensures Inv(Next(max, s, a))
  {
    var t := Next(max, s, a);
    var done := if a.OwnRemove? then s.owns[a.call] else s.applying.value;
    var k := done.key;
    StoreMembers(max, s.store, L.Remove(k));
    forall x | x in t.store
      ensures ItemOk(t, x)
    {
      if a.OwnRemove? {
        forall v | v in s.owns.Values && v != done
          ensures v in t.owns.Values
        {
          var c :| c in s.owns && s.owns[c] == v;
          assert t.owns[c] == v;
        }
      }
      ItemOkTransfer(s, t, x);
    }
    assert forall c :: c in t.gets ==> CallOk(s, s.gets[c]);
  }

  lemma FailureKeepsInv(max: int, s: State, a: Action)
    requires Inv(s) && Enabled(s, a) && a.OwnFails?
    ensures Inv(Next(max, s, a))
  {
    var t := Next(max, s, a);
    forall v | v in s.owns.Values
      ensures v in t.owns.Values || v in t.abandoned
    {
      var c :| c in s.owns && s.owns[c] == v;
      assert c != a.call ==> t.owns[c] == v;
    }
    forall x | x in t.store
      ensures ItemOk(t, x)
    {
      ItemOkTransfer(s, t, x);
    }
    assert forall c :: c in t.gets ==> CallOk(s, s.gets[c]);
  }

  lemma EventKeepsInv(max: int, s: State, a: Action)
    requires Inv(s) && Enabled(s, a) && (a.ReadEvent? || a.TakeEvent?)
    ensures Inv(Next(max, s, a))
  {
    var t := Next(max, s, a);
    if a.ReadEvent? {
      assert s.wire == [s.wire[0]] + s.wire[1..];
    } else {
      assert s.events == [s.events[0]] + s.events[1..];
    }
    forall x | x in t.store
      ensures ItemOk(t, x)
    {
      ItemOkTransfer(s, t, x);
    }
    assert forall c :: c in t.gets ==> CallOk(s, s.gets[c]);
  }

  lemma StoreKeepsInv(max: int, s: State, a: Action)
    requires Inv(s) && Enabled(s, a) && a.Store?
    ensures Inv(Next(max, s, a))
  {
    var t, g := Next(max, s, a), s.gets[a.call];
    assert CallOk(s, g);
    StoreMembers(max, s.store, L.Put(g.key, g.value));
    forall x | x in t.store
      ensures ItemOk(t, x)
    {
      if x != L.Item(g.key, g.value) {
        ItemOkTransfer(s, t, x);
      }
    }
    assert forall c :: c in t.gets ==> CallOk(s, s.gets[c]);
  }

  lemma ReadKeepsInv(max: int, s: State, a: Action)
    requires Inv(s) && Enabled(s, a)
    requires a.Fetch? || a.FetchFails? || a.ServerAdds?
    ensures Inv(Next(max, s, a))
  {
    var t := Next(max, s, a);
    forall x | x in t.store
      ensures ItemOk(t, x)
    {
      ItemOkTransfer(s, t, x);
    }
    assert s.writes[..|s.writes|] == s.writes;
    forall c | c in t.gets
      ensures CallOk(t, t.gets[c])
    {
      if c in s.gets {
        assert CallOk(s, s.gets[c]);
      }
    }
  }

  /** Filter updates leave all that invalidations depend on alone. */
  lemma UpdateKeepsInv(s: State, a: Action)
    requires Inv(s) && IsUpdateStep(a) && UpdateEnabled(s, a)
    ensures Inv(UpdateNext(s, a))
  {
    var t := UpdateNext(s, a);
    forall x | x in t.store
      ensures ItemOk(t, x)
    {
      ItemOkTransfer(s, t, x);
    }
    assert forall c :: c in t.gets ==> CallOk(s, s.gets[c]);
  }

  lemma GetKeepsInv(max: int, s: State, a: Action)
    requires Inv(s) && Enabled(s, a) && a.Get?
    ensures Inv(Next(max, s, a))
  {
    var t := Next(max, s, a);
    StoreMembers(max, s.store, L.Get(a.key));
    forall x | x in t.store
      ensures ItemOk(t, x)
    {
      ItemOkTransfer(s, t, x);
    }
    assert forall c :: c in t.gets && c in s.gets ==> CallOk(s, s.gets[c]);
  }

  lemma NextKeepsInv(max: int, s: State, a: Action)
    requires Inv(s) && Enabled(s, a)
    ensures Inv(Next(max, s, a))
  {
    if IsUpdateStep(a) {
      UpdateKeepsInv(s, a);
    } else {
      match a {
        case OtherWrite(_, _) => WriteKeepsInv(max, s, a);
        case OwnWrite(_, _, _, _) => WriteKeepsInv(max, s, a);
        case OwnRemove(_) => RemoveKeepsInv(max, s, a);
        case OwnFails(_) => FailureKeepsInv(max, s, a);
        case ApplyEvent => RemoveKeepsInv(max, s, a);
        case ReadEvent => EventKeepsInv(max, s, a);
        case TakeEvent => EventKeepsInv(max, s, a);
        case Store(_) => StoreKeepsInv(max, s, a);
        case Get(_, _) => GetKeepsInv(max, s, a);
        case _ => ReadKeepsInv(max, s, a);
      }
    }
  }

  lemma {:induction false} ReachableInv(max: int, actions: seq<Action>)
    requires Possible(max, actions)
    ensures Inv(After(max, actions))
  {
    if actions != [] {
      var n := |actions| - 1;
      ReachableInv(max, actions[..n]);
      NextKeepsInv(max, After(max, actions[..n]), actions[n]);
    }
  }

  /** A key no write touched since position t has the value it had then. */
  lemma {:induction false} UntouchedKey(writes: seq<Write>, t: nat, k: Key)
    requires t <= |writes| && forall w :: t <= w < |writes| ==> writes[w].key != k
    ensures k in Contents(writes) <==> k in Contents(writes[..t])
    ensures k in Contents(writes) ==> Contents(writes)[k] == Contents(writes[..t])[k]
  {
    if t == |writes| {
      assert writes[..t] == writes;
    } else {
      var n := |writes| - 1;
      UntouchedKey(writes[..n], t, k);
      assert writes[..n][..t] == writes[..t];
    }
  }

  /**
   * In every run, a stored item that differs from the server has been overtaken by a write since its fetch,
   * and every such write is explained.
   */
  lemma StaleIsExplained(max: int, actions: seq<Action>, x: L.Item)
    requires Possible(max, actions)
    requires x in After(max, actions).store && Current(After(max, actions), x.key) != Some(x.value)
    ensures var s := After(max, actions);
            x.key in s.born &&
            exists w :: s.born[x.key].fetched <= w < |s.writes| && s.writes[w].key == x.key
    ensures var s := After(max, actions);
            forall w :: s.born[x.key].fetched <= w < |s.writes| && s.writes[w].key == x.key ==>
              Explained(s, s.born[x.key], w)
  {
    ReachableInv(max, actions);
    var s := After(max, actions);
    assert ItemOk(s, x);
    if forall w :: s.born[x.key].fetched <= w < |s.writes| ==> s.writes[w].key != x.key {
      UntouchedKey(s.writes, s.born[x.key].fetched, x.key);
    }
  }

  /** Nothing is on its way that could still invalidate an item. */
  predicate Quiet(s: State) {
    s.wire == [] && s.events == [] && s.applying.None? && s.owns == map[]
  }

  /**
   * Nothing has acted, nor will, on a write to an item's key since its fetch: it came before the store step; or it
   * was not this client's, or this client's with its answer lost, and no invalidation was sent, or that one was
   * dropped because the channel was full.
   */
  predicate Unnoticed(s: State, x: L.Item, w: nat)
    requires x.key in s.born && w < |s.writes|
  {
    var owed := Notice(w, s.writes[w].key);
    && s.writes[w].key == x.key
    && s.born[x.key].fetched <= w
    && (|| w < s.born[x.key].stored
        || ((s.writes[w].own ==> owed in s.abandoned) && (s.writes[w].sent ==> owed in s.overflowed)))
  }

  /** The position of the last write to a key. */
  function LastWrite(writes: seq<Write>, k: Key): Option<nat> {
    if writes == [] then None
    else
      var n := |writes| - 1;
      if writes[n].key == k then Some(n) else LastWrite(writes[..n], k)
  }

  /** The last write to a key decides what the server has. */
  lemma {:induction false} LastWriteDecides(writes: seq<Write>, k: Key)
    ensures match LastWrite(writes, k)
            case None => k !in Contents(writes) && forall w :: 0 <= w < |writes| ==> writes[w].key != k
            case Some(last) =>
              && last < |writes| && writes[last].key == k
              && (forall w :: last < w < |writes| ==> writes[w].key != k)
              && (k in Contents(writes) <==> writes[last].value.Some?)
              && (k in Contents(writes) ==> Some(Contents(writes)[k]) == writes[last].value)
  {
    if writes != [] {
      LastWriteDecides(writes[..|writes| - 1], k);
    }
  }

  /** When nothing is under way, an item is stale exactly if the last write to its key changed it unnoticed. */
  predicate LastWriteUnnoticed(s: State, x: L.Item)
    requires x.key in s.born
  {
    match LastWrite(s.writes, x.key)
    case None => false
    case Some(last) => last < |s.writes| && Unnoticed(s, x, last) && s.writes[last].value != Some(x.value)
  }

  lemma QuietStaleIff(max: int, actions: seq<Action>, x: L.Item)
    requires Possible(max, actions) && Quiet(After(max, actions)) && x in After(max, actions).store
    ensures x.key in After(max, actions).born
    ensures Current(After(max, actions), x.key) != Some(x.value) <==> LastWriteUnnoticed(After(max, actions), x)
  {
    var s := After(max, actions);
    ReachableInv(max, actions);
    assert ItemOk(s, x);
    LastWriteDecides(s.writes, x.key);
    if Current(s, x.key) != Some(x.value) {
      StaleIsExplained(max, actions, x);
      var last := LastWrite(s.writes, x.key).value;
      assert Explained(s, s.born[x.key], last);
    }
  }

  /** Items of keys whose last write was noticed, or wrote what the item has, are current. */
  lemma QuietIsCoherent(max: int, actions: seq<Action>)
    requires Possible(max, actions) && Quiet(After(max, actions))
    ensures var s := After(max, actions);
            (forall x :: x in s.store ==> Current(s, x.key) == Some(x.value)) <==>
            (forall x :: x in s.store ==> x.key in s.born && !LastWriteUnnoticed(s, x))
  {
    forall x | x in After(max, actions).store
      ensures x.key in After(max, actions).born
      ensures Current(After(max, actions), x.key) != Some(x.value) <==> LastWriteUnnoticed(After(max, actions), x)
    {
      QuietStaleIff(max, actions, x);
    }
  }
}
