/** Runs of the near cache (hotrod/near_cache.go) that end with a stale item and nothing under way. */
module StaleRuns {
  import opened Wrappers
  import opened Words
  import opened NearCache
  import opened FilterUpdates
  import L = LruModel

  /** The end of a filter update that covers exactly what is stored, started by a Get. */
  function UpdateActions(update: nat, matched: set<Key>): seq<Action> {
    [Snapshot(update), Install(update, matched), ClearDirty(update)]
  }

  /** A first filter update, for key k alone, after i of its steps: scheduled, collected, installed, cleared. */
  function FirstUpdate(k: Key, i: nat): Updates {
    if i == 0 then INITIAL.updates
    else if i == 1 then INITIAL.updates.(bloomDirty := true, running := map[0 := Starting(true)])
    else if i == 2 then Updates(true, map[0 := Sent(true, 0)], [{k}], None, {}, {}, {})
    else if i == 3 then Updates(true, map[0 := Settled], [{k}], Some(0), {}, {}, {})
    else Updates(false, map[], [{k}], Some(0), {}, {}, {})
  }

  function Updating(s: State, k: Key, i: nat): State {
    s.(updates := FirstUpdate(k, i), filter := if i < 3 then s.filter else {k})
  }

  lemma UpdatingSteps(max: int, s: State, k: Key, v: Bytes, i: nat)
    requires i < 3 && s.store == [L.Item(k, v)]
    ensures var u, t, a := Updating(s, k, i + 1), Updating(s, k, i + 2), UpdateActions(0, {k})[i];
            Enabled(u, a) && Next(max, u, a) == t
  {
    if i == 0 {
      assert StoredKeys([L.Item(k, v)]) == {k};
    } else if i == 2 {
      assert map[0 := Settled] - {0} == map[];
    }
  }

  lemma ScheduleStep(max: int, s: State, k: Key)
    requires s.gets == map[] && s.updates == INITIAL.updates
    ensures var t := s.(gets := map[0 := Scheduling(k)]);
            Enabled(t, Schedule(0, 0)) && Next(max, t, Schedule(0, 0)) == Updating(s, k, 1)
  {
    assert map[0 := Scheduling(k)] - {0} == map[];
  }

  /** A run in which an event arrives between fetch and store, and the states it goes through. */
  function RaceActions(k: Key, v: Bytes, v': Bytes): seq<Action> {
    [ServerAdds(k), OtherWrite(k, Some(v)), ReadEvent, TakeEvent, ApplyEvent,
     Get(0, k), Fetch(0), OtherWrite(k, Some(v')), ReadEvent, TakeEvent, ApplyEvent, Store(0), Schedule(0, 0)]
    + UpdateActions(0, {k})
  }

  function RaceState(k: Key, v: Bytes, v': Bytes, i: nat): State {
    var watched := INITIAL.(filter := {k});
    var first := watched.(writes := [Write(k, Some(v), true, false, true)]);
    var held := first.(gets := map[0 := Holding(k, v, 1)]);
    var second := held.(writes := first.writes + [Write(k, Some(v'), true, false, true)]);
    var stored := second.(gets := map[], store := [L.Item(k, v)], born := map[k := Birth(1, 2)]);
    if i == 0 then INITIAL
    else if i == 1 then watched
    else if i == 2 then first.(wire := [Notice(0, k)])
    else if i == 3 then first.(events := [Notice(0, k)])
    else if i == 4 then first.(applying := Some(Notice(0, k)))
    else if i == 5 then first
    else if i == 6 then first.(gets := map[0 := Asked(k)])
    else if i == 7 then held
    else if i == 8 then second.(wire := [Notice(1, k)])
    else if i == 9 then second.(events := [Notice(1, k)])
    else if i == 10 then second.(applying := Some(Notice(1, k)))
    else if i == 11 then second
    else if i == 12 then stored.(gets := map[0 := Scheduling(k)])
    else Updating(stored, k, i - 12)
  }

  lemma RaceContents(k: Key, v: Bytes, v': Bytes)
    ensures Current(RaceState(k, v, v', 6), k) == Some(v)
    ensures Current(RaceState(k, v, v', 16), k) == Some(v')
  {
    var one := RaceState(k, v, v', 6).writes;
    var two := RaceState(k, v, v', 16).writes;
    assert one[..0] == [] && Contents(one) == map[k := v];
    assert two[..1] == one;
  }

  lemma RaceStepRead(max: int, k: Key, v: Bytes, v': Bytes, i: nat)
    requires i < 5
    ensures Enabled(RaceState(k, v, v', i), RaceActions(k, v, v')[i])
    ensures Next(max, RaceState(k, v, v', i), RaceActions(k, v, v')[i]) == RaceState(k, v, v', i + 1)
  {
  }

  lemma RaceStepFetch(max: int, k: Key, v: Bytes, v': Bytes, i: nat)
    requires i == 5 || i == 6
    ensures Enabled(RaceState(k, v, v', i), RaceActions(k, v, v')[i])
    ensures Next(max, RaceState(k, v, v', i), RaceActions(k, v, v')[i]) == RaceState(k, v, v', i + 1)
  {
    RaceContents(k, v, v');
  }

  lemma RaceStepOvertake(max: int, k: Key, v: Bytes, v': Bytes, i: nat)
    requires 7 <= i < 12
    ensures Enabled(RaceState(k, v, v', i), RaceActions(k, v, v')[i])
    ensures Next(max, RaceState(k, v, v', i), RaceActions(k, v, v')[i]) == RaceState(k, v, v', i + 1)
  {
    if i == 11 {
      assert L.Apply(max, [], L.Put(k, v)) == [L.Item(k, v)];
    }
  }

  lemma RaceStepUpdate(max: int, k: Key, v: Bytes, v': Bytes, i: nat)
    requires 12 <= i < 16
    ensures Enabled(RaceState(k, v, v', i), RaceActions(k, v, v')[i])
    ensures Next(max, RaceState(k, v, v', i), RaceActions(k, v, v')[i]) == RaceState(k, v, v', i + 1)
  {
    var stored := RaceState(k, v, v', 12).(gets := map[]);
    if i == 12 {
      ScheduleStep(max, stored, k);
    } else {
      UpdatingSteps(max, stored, k, v, i - 13);
    }
  }

  lemma RaceStep(max: int, k: Key, v: Bytes, v': Bytes, i: nat)
    requires i < 16
    ensures Enabled(RaceState(k, v, v', i), RaceActions(k, v, v')[i])
    ensures Next(max, RaceState(k, v, v', i), RaceActions(k, v, v')[i]) == RaceState(k, v, v', i + 1)
  {
    if i < 5 {
      RaceStepRead(max, k, v, v', i);
    } else if i < 7 {
      RaceStepFetch(max, k, v, v', i);
    } else if i < 12 {
      RaceStepOvertake(max, k, v, v', i);
    } else {
      RaceStepUpdate(max, k, v, v', i);
    }
  }

  /** A list of actions that takes each state of a list to the next is a run. */
  lemma {:induction false} RunThrough(max: int, actions: seq<Action>, states: seq<State>)
    requires |states| == |actions| + 1 && states[0] == INITIAL
    requires forall i :: 0 <= i < |actions| ==>
               Enabled(states[i], actions[i]) && Next(max, states[i], actions[i]) == states[i + 1]
    ensures Possible(max, actions) && After(max, actions) == states[|actions|]
  {
    if actions != [] {
      var n := |actions| - 1;
      RunThrough(max, actions[..n], states[..n + 1]);
    }
  }

  /**
   * The race is real: with the key in the filter all along, an event that arrives between fetch and store
   * finds nothing to remove, and the older value stays in the near cache with nothing left to remove it.
   */
  lemma RaceLeavesStaleItem(max: int, k: Key, v: Bytes, v': Bytes)
    requires v != v'
    ensures Possible(max, RaceActions(k, v, v'))
    ensures var s := After(max, RaceActions(k, v, v'));
            && Quiet(s) && UpdatesQuiet(s) && s.gets == map[] && s.overflowed == {} && s.abandoned == {}
            && s.store == [L.Item(k, v)] && Current(s, k) == Some(v')
            && forall w :: 0 <= w < |s.writes| ==> s.writes[w].sent
  {
    var states := seq(17, i requires 0 <= i < 17 => RaceState(k, v, v', i));
    forall i | 0 <= i < 16
      ensures Enabled(states[i], RaceActions(k, v, v')[i])
      ensures Next(max, states[i], RaceActions(k, v, v')[i]) == states[i + 1]
    {
      RaceStep(max, k, v, v', i);
    }
    RunThrough(max, RaceActions(k, v, v'), states);
    RaceContents(k, v, v');
  }

  /** A run in which the answer to an own write is lost, and the states it goes through. */
  function LostActions(k: Key, v: Bytes, v': Bytes): seq<Action> {
    [OtherWrite(k, Some(v)), Get(0, k), Fetch(0), Store(0), Schedule(0, 0)]
    + UpdateActions(0, {k}) + [OwnWrite(0, k, Some(v'), false), OwnFails(0)]
  }

  function LostState(k: Key, v: Bytes, v': Bytes, i: nat): State {
    var first := INITIAL.(writes := [Write(k, Some(v), false, false, false)]);
    var stored := first.(store := [L.Item(k, v)], born := map[k := Birth(1, 1)]);
    var second := Updating(stored, k, 4).(writes := first.writes + [Write(k, Some(v'), true, true, false)]);
    if i == 0 then INITIAL
    else if i == 1 then first
    else if i == 2 then first.(gets := map[0 := Asked(k)])
    else if i == 3 then first.(gets := map[0 := Holding(k, v, 1)])
    else if i == 4 then stored.(gets := map[0 := Scheduling(k)])
    else if i <= 8 then Updating(stored, k, i - 4)
    else if i == 9 then second.(owns := map[0 := Notice(1, k)])
    else second.(abandoned := {Notice(1, k)})
  }

  lemma LostStepRead(max: int, k: Key, v: Bytes, v': Bytes, i: nat)
    requires i < 4
    ensures Enabled(LostState(k, v, v', i), LostActions(k, v, v')[i])
    ensures Next(max, LostState(k, v, v', i), LostActions(k, v, v')[i]) == LostState(k, v, v', i + 1)
  {
    var one := LostState(k, v, v', 1).writes;
    assert one[..0] == [] && Contents(one) == map[k := v];
    if i == 3 {
      assert L.Apply(max, [], L.Put(k, v)) == [L.Item(k, v)];
    }
  }

  lemma LostStepUpdate(max: int, k: Key, v: Bytes, v': Bytes, i: nat)
    requires 4 <= i < 8
    ensures Enabled(LostState(k, v, v', i), LostActions(k, v, v')[i])
    ensures Next(max, LostState(k, v, v', i), LostActions(k, v, v')[i]) == LostState(k, v, v', i + 1)
  {
    var stored := LostState(k, v, v', 4).(gets := map[]);
    if i == 4 {
      ScheduleStep(max, stored, k);
    } else {
      UpdatingSteps(max, stored, k, v, i - 5);
    }
  }

  lemma LostStepWrite(max: int, k: Key, v: Bytes, v': Bytes, i: nat)
    requires 8 <= i < 10
    ensures Enabled(LostState(k, v, v', i), LostActions(k, v, v')[i])
    ensures Next(max, LostState(k, v, v', i), LostActions(k, v, v')[i]) == LostState(k, v, v', i + 1)
  {
  }

  /**
   * Nothing raced and the filter matched: an own write that the server executed and whose answer was lost leaves
   * its call with an error and the older value in the near cache.
   */
  lemma LostAnswerLeavesStaleItem(max: int, k: Key, v: Bytes, v': Bytes)
    requires v != v'
    ensures Possible(max, LostActions(k, v, v'))
    ensures var s := After(max, LostActions(k, v, v'));
            && Quiet(s) && UpdatesQuiet(s) && s.gets == map[] && s.overflowed == {}
            && s.store == [L.Item(k, v)] && Current(s, k) == Some(v')
            && k in s.born && s.born[k].stored == 1 && |s.writes| == 2 && s.writes[1].filtered
  {
    var states := seq(11, i requires 0 <= i < 11 => LostState(k, v, v', i));
    forall i | 0 <= i < 10
      ensures Enabled(states[i], LostActions(k, v, v')[i])
      ensures Next(max, states[i], LostActions(k, v, v')[i]) == states[i + 1]
    {
      if i < 4 {
        LostStepRead(max, k, v, v', i);
      } else if i < 8 {
        LostStepUpdate(max, k, v, v', i);
      } else {
        LostStepWrite(max, k, v, v', i);
      }
    }
    RunThrough(max, LostActions(k, v, v'), states);
    var two := states[10].writes;
    assert two[..1] == states[1].writes;
  }

  /** A run in which a Get for k finds the flag set by the update for j, and the states it goes through. */
  function SkipActions(j: Key, k: Key, v: Bytes, v': Bytes): seq<Action> {
    [OtherWrite(j, Some(v)), OtherWrite(k, Some(v)), Get(0, j), Fetch(0), Store(0), Schedule(0, 0), Snapshot(0),
     Get(1, k), Fetch(1), Store(1), Schedule(1, 1), Install(0, {j}), ClearDirty(0), OtherWrite(k, Some(v'))]
  }

  function TwoWrites(j: Key, k: Key, v: Bytes): seq<Write> {
    [Write(j, Some(v), false, false, false), Write(k, Some(v), false, false, false)]
  }

  /** Up to the snapshot for j, with both keys on the server and j stored. */
  function SkipStart(j: Key, k: Key, v: Bytes, i: nat): State {
    var written := INITIAL.(writes := TwoWrites(j, k, v));
    var stored := written.(store := [L.Item(j, v)], born := map[j := Birth(2, 2)]);
    if i == 0 then INITIAL
    else if i == 1 then INITIAL.(writes := [Write(j, Some(v), false, false, false)])
    else if i == 2 then written
    else if i == 3 then written.(gets := map[0 := Asked(j)])
    else if i == 4 then written.(gets := map[0 := Holding(j, v, 2)])
    else if i == 5 then stored.(gets := map[0 := Scheduling(j)])
    else Updating(stored, j, i - 5)
  }

  /** From there to the end of its update, with k stored in between. */
  function SkipRest(max: int, j: Key, k: Key, v: Bytes, i: nat): State
    requires i >= 8
  {
    var running := SkipStart(j, k, v, 7);
    var both := running.(store := L.Apply(max, [L.Item(j, v)], L.Put(k, v)),
                         born := map[j := Birth(2, 2), k := Birth(2, 2)]);
    if i == 8 then running.(gets := map[1 := Asked(k)])
    else if i == 9 then running.(gets := map[1 := Holding(k, v, 2)])
    else if i == 10 then both.(gets := map[1 := Scheduling(k)])
    else Updating(both, j, i - 9).(updates := FirstUpdate(j, i - 9).(skipped := {k}))
  }

  function SkipState(max: int, j: Key, k: Key, v: Bytes, v': Bytes, i: nat): State {
    if i <= 7 then SkipStart(j, k, v, i)
    else if i <= 13 then SkipRest(max, j, k, v, i)
    else SkipRest(max, j, k, v, 13).(writes := TwoWrites(j, k, v) + [Write(k, Some(v'), false, false, false)])
  }

  lemma SkipContents(j: Key, k: Key, v: Bytes, v': Bytes)
    requires j != k
    ensures Contents(TwoWrites(j, k, v)) == map[j := v, k := v]
    ensures Contents(TwoWrites(j, k, v) + [Write(k, Some(v'), false, false, false)]) == map[j := v, k := v']
  {
    var first, third := Write(j, Some(v), false, false, false), Write(k, Some(v'), false, false, false);
    var w := TwoWrites(j, k, v);
    assert [first][..0] == [] && Contents([first]) == map[][j := v];
    assert w[..1] == [first] && Contents(w) == map[j := v][k := v];
    assert (w + [third])[..2] == w && Contents(w + [third]) == Contents(w)[k := v'];
  }

  lemma SkipStepWrite(max: int, j: Key, k: Key, v: Bytes, v': Bytes, i: nat)
    requires j != k && i < 3
    ensures Enabled(SkipState(max, j, k, v, v', i), SkipActions(j, k, v, v')[i])
    ensures Next(max, SkipState(max, j, k, v, v', i), SkipActions(j, k, v, v')[i]) == SkipState(max, j, k, v, v', i + 1)
  {
  }

  lemma FetchStep(max: int, s: State, call: nat, k: Key, v: Bytes)
    requires s.gets == map[call := Asked(k)] && Current(s, k) == Some(v)
    ensures Enabled(s, Fetch(call))
    ensures Next(max, s, Fetch(call)) == s.(gets := map[call := Holding(k, v, |s.writes|)])
  {
  }

  lemma SkipFetchFirst(max: int, j: Key, k: Key, v: Bytes, v': Bytes)
    requires j != k
    ensures Enabled(SkipState(max, j, k, v, v', 3), SkipActions(j, k, v, v')[3])
    ensures Next(max, SkipState(max, j, k, v, v', 3), SkipActions(j, k, v, v')[3]) == SkipState(max, j, k, v, v', 4)
  {
    var s := SkipState(max, j, k, v, v', 3);
    assert s.writes == TwoWrites(j, k, v);
    SkipContents(j, k, v, v');
    FetchStep(max, s, 0, j, v);
  }

  lemma SkipFetchSecond(max: int, j: Key, k: Key, v: Bytes, v': Bytes)
    requires j != k
    ensures Enabled(SkipState(max, j, k, v, v', 8), SkipActions(j, k, v, v')[8])
    ensures Next(max, SkipState(max, j, k, v, v', 8), SkipActions(j, k, v, v')[8]) == SkipState(max, j, k, v, v', 9)
  {
    var s := SkipState(max, j, k, v, v', 8);
    assert s.writes == TwoWrites(j, k, v);
    SkipContents(j, k, v, v');
    FetchStep(max, s, 1, k, v);
  }

  lemma SkipStepStore(max: int, j: Key, k: Key, v: Bytes, v': Bytes, i: nat)
    requires j != k && (i == 4 || i == 9)
    ensures Enabled(SkipState(max, j, k, v, v', i), SkipActions(j, k, v, v')[i])
    ensures Next(max, SkipState(max, j, k, v, v', i), SkipActions(j, k, v, v')[i]) == SkipState(max, j, k, v, v', i + 1)
  {
    if i == 4 {
      assert L.Apply(max, [], L.Put(j, v)) == [L.Item(j, v)];
    }
  }

  lemma SkipStepUpdate(max: int, j: Key, k: Key, v: Bytes, v': Bytes, i: nat)
    requires j != k && 5 <= i < 7
    ensures Enabled(SkipState(max, j, k, v, v', i), SkipActions(j, k, v, v')[i])
    ensures Next(max, SkipState(max, j, k, v, v', i), SkipActions(j, k, v, v')[i]) == SkipState(max, j, k, v, v', i + 1)
  {
    var stored := SkipState(max, j, k, v, v', 5).(gets := map[]);
    if i == 5 {
      ScheduleStep(max, stored, j);
    } else {
      UpdatingSteps(max, stored, j, v, 0);
    }
  }

  lemma SkipStepSkip(max: int, j: Key, k: Key, v: Bytes, v': Bytes, i: nat)
    requires j != k && (i == 7 || i == 10)
    ensures Enabled(SkipState(max, j, k, v, v', i), SkipActions(j, k, v, v')[i])
    ensures Next(max, SkipState(max, j, k, v, v', i), SkipActions(j, k, v, v')[i]) == SkipState(max, j, k, v, v', i + 1)
  {
    if i == 10 {
      assert map[1 := Scheduling(k)] - {1} == map[];
      assert LastSnapshot(FirstUpdate(j, 2)) == {j};
      assert FirstUpdate(j, 2).skipped + {k} == {k};
    } else {
      assert L.Lookup([L.Item(j, v)], k).None?;
    }
  }

  lemma SkipStepEnd(max: int, j: Key, k: Key, v: Bytes, v': Bytes, i: nat)
    requires j != k && 11 <= i < 14
    ensures Enabled(SkipState(max, j, k, v, v', i), SkipActions(j, k, v, v')[i])
    ensures Next(max, SkipState(max, j, k, v, v', i), SkipActions(j, k, v, v')[i]) == SkipState(max, j, k, v, v', i + 1)
  {
  }

  /**
   * Without any race on the key, failure or removal: a key stored while the filter update for another key is running
   * is in no filter the client sends, and a later write of another client goes unnoticed.
   */
  lemma SkippedKeyGoesStale(max: int, j: Key, k: Key, v: Bytes, v': Bytes)
    requires j != k && v != v'
    ensures Possible(max, SkipActions(j, k, v, v'))
    ensures var s := After(max, SkipActions(j, k, v, v'));
            && Quiet(s) && UpdatesQuiet(s) && s.gets == map[] && s.overflowed == {} && s.abandoned == {}
            && s.updates.failed == {} && s.updates.overtaken == {} && s.updates.skipped == {k}
            && Uncovered(s.updates, k)
            && L.Item(k, v) in s.store && Current(s, k) == Some(v')
            && k in s.born && s.born[k].stored == 2 && |s.writes| == 3
  {
    var states := seq(15, i requires 0 <= i < 15 => SkipState(max, j, k, v, v', i));
    forall i | 0 <= i < 14
      ensures Enabled(states[i], SkipActions(j, k, v, v')[i])
      ensures Next(max, states[i], SkipActions(j, k, v, v')[i]) == states[i + 1]
    {
      if i < 3 {
        SkipStepWrite(max, j, k, v, v', i);
      } else if i == 3 {
        SkipFetchFirst(max, j, k, v, v');
      } else if i == 8 {
        SkipFetchSecond(max, j, k, v, v');
      } else if i == 4 || i == 9 {
        SkipStepStore(max, j, k, v, v', i);
      } else if i < 7 {
        SkipStepUpdate(max, j, k, v, v', i);
      } else if i < 11 {
        SkipStepSkip(max, j, k, v, v', i);
      } else {
        SkipStepEnd(max, j, k, v, v', i);
      }
    }
    RunThrough(max, SkipActions(j, k, v, v'), states);
    SkipContents(j, k, v, v');
  }
}
