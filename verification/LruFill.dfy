/** How far the recency list of hotrod/lru.go fills up, which values it holds, and what it reports as removed. */
module LruFill {
  import opened Wrappers
  import opened Words
  import opened LruModel

  // ---------- a store is never emptier than it must be ----------

  function PutKeys(ops: seq<LruOp>): set<Key> {
    set i | 0 <= i < |ops| && ops[i].Put? :: ops[i].key
  }

  ghost predicate OnlyFills(ops: seq<LruOp>) {
    forall i :: 0 <= i < |ops| ==> ops[i].Get? || ops[i].Put?
  }

  lemma PutKeysMore(ops: seq<LruOp>)
    requires ops != []
    ensures var n := |ops| - 1;
            PutKeys(ops) == if ops[n].Put? then PutKeys(ops[..n]) + {ops[n].key} else PutKeys(ops[..n])
  {
    var n := |ops| - 1;
    forall k
      ensures k in PutKeys(ops) <==> k in PutKeys(ops[..n]) || (ops[n].Put? && k == ops[n].key)
    {
      if k in PutKeys(ops[..n]) {
        var i :| 0 <= i < n && ops[..n][i].Put? && ops[..n][i].key == k;
        assert ops[i].Put? && ops[i].key == k;
      }
      if k in PutKeys(ops) {
        var i :| 0 <= i < |ops| && ops[i].Put? && ops[i].key == k;
        assert i < n ==> ops[..n][i] == ops[i];
      }
    }
  }

  /** As full as it can be: every key put so far is held, or the list is at its maximum. */
  ghost predicate AsFull(max: int, s: Recency, keys: set<Key>) {
    && |s| == (if |keys| < Capacity(max) then |keys| else Capacity(max))
    && (forall x :: x in s ==> x.key in keys)
    && (|keys| <= Capacity(max) ==> forall k :: k in keys ==> Lookup(s, k).Some?)
  }

  lemma GetKeepsFull(max: int, s: Recency, keys: set<Key>, k: Key)
    requires KeysDiffer(s) && AsFull(max, s, keys)
    ensures AsFull(max, Apply(max, s, Get(k)), keys)
  {
    WithoutFacts(s, k);
    forall j
      ensures Lookup(s, j).Some? ==> Lookup(Apply(max, s, Get(k)), j).Some?
    {
      WithoutFacts(s, j);
      WithoutFacts(Apply(max, s, Get(k)), j);
    }
  }

  lemma SmallerSet(a: set<Key>, k: Key)
    ensures |a + {k}| == if k in a then |a| else |a| + 1
  {
    if k in a {
      assert a + {k} == a;
    }
  }

  lemma PutKeepsHeld(max: int, s: Recency, k: Key, v: Bytes, j: Key)
    requires KeysDiffer(s) && (Lookup(s, k).Some? || |s| < max || s == [])
    ensures Lookup(s, j).Some? || j == k ==> Lookup(Apply(max, s, Put(k, v)), j).Some?
  {
    WithoutFacts(s, k);
    WithoutFacts(s, j);
    WithoutFacts(Apply(max, s, Put(k, v)), j);
  }

  lemma PutLength(max: int, s: Recency, k: Key, v: Bytes)
    requires KeysDiffer(s) && |s| <= Capacity(max)
    ensures |Apply(max, s, Put(k, v))| ==
            if Lookup(s, k).Some? then |s| else if |s| < Capacity(max) then |s| + 1 else Capacity(max)
    ensures forall x :: x in Apply(max, s, Put(k, v)) ==> x in s || x.key == k
  {
    WithoutFacts(s, k);
    if s == [] {
      assert Lookup(s, k).None?;
    }
  }

  lemma PutKeepsFull(max: int, s: Recency, keys: set<Key>, k: Key, v: Bytes)
    requires KeysDiffer(s) && AsFull(max, s, keys)
    ensures AsFull(max, Apply(max, s, Put(k, v)), keys + {k})
  {
    PutLength(max, s, k, v);
    SmallerSet(keys, k);
    WithoutFacts(s, k);
    if |keys + {k}| <= Capacity(max) {
      forall j | j in keys + {k}
        ensures Lookup(Apply(max, s, Put(k, v)), j).Some?
      {
        PutKeepsHeld(max, s, k, v, j);
      }
    }
  }

  /**
   * As long as nothing is removed, the store holds as many items as there are different keys put, up to its maximum,
   * and within it all of them: nothing is evicted before the store is full.
   */
  lemma {:induction false} FillsUp(max: int, ops: seq<LruOp>)
    requires OnlyFills(ops)
    ensures AsFull(max, Run(max, ops), PutKeys(ops))
  {
    if ops != [] {
      var n := |ops| - 1;
      var s := Run(max, ops[..n]);
      FillsUp(max, ops[..n]);
      RunBounded(max, ops[..n]);
      PutKeysMore(ops);
      if ops[n].Get? {
        GetKeepsFull(max, s, PutKeys(ops[..n]), ops[n].key);
      } else {
        PutKeepsFull(max, s, PutKeys(ops[..n]), ops[n].key, ops[n].value);
      }
    } else {
      assert PutKeys(ops) == {};
    }
  }

  /** With any operations a Put of a new key adds one item below the maximum and replaces one at it. */
  lemma PutGrows(max: int, ops: seq<LruOp>, k: Key, v: Bytes)
    ensures var s := Run(max, ops);
            |Run(max, ops + [Put(k, v)])| ==
            if Lookup(s, k).Some? then |s| else if |s| < Capacity(max) then |s| + 1 else Capacity(max)
  {
    RunBounded(max, ops);
    RunSnoc(max, ops, Put(k, v));
    PutLength(max, Run(max, ops), k, v);
  }

  // ---------- values ----------

  /** The value of the last Put of the key. */
  function LastPut(ops: seq<LruOp>, k: Key): Option<Bytes> {
    if ops == [] then None
    else
      var n := |ops| - 1;
      if ops[n].Put? && ops[n].key == k then Some(ops[n].value) else LastPut(ops[..n], k)
  }

  lemma StepValue(max: int, s: Recency, op: LruOp, k: Key)
    requires KeysDiffer(s)
    ensures var t := Apply(max, s, op);
            && (op.Put? && op.key == k ==> Lookup(t, k) == Some(op.value))
            && (!(op.Put? && op.key == k) ==> Lookup(t, k).None? || Lookup(t, k) == Lookup(s, k))
  {
    var t := Apply(max, s, op);
    ApplyKeepsKeysDifferent(max, s, op);
    if !op.Clear? {
      WithoutFacts(s, op.key);
      LookupMembers(t, k);
      if Lookup(t, k).Some? {
        var x := Item(k, Lookup(t, k).value);
        assert x in s || (op.Put? && x.key == op.key);
        if x in s {
          LookupIn(s, x);
        }
      }
    }
  }

  /** Whatever is held under a key is what was last put there. */
  lemma {:induction false} HoldsLastPut(max: int, ops: seq<LruOp>, k: Key)
    ensures Lookup(Run(max, ops), k).Some? ==> Lookup(Run(max, ops), k) == LastPut(ops, k)
  {
    if ops != [] {
      var n := |ops| - 1;
      HoldsLastPut(max, ops[..n], k);
      RunBounded(max, ops[..n]);
      StepValue(max, Run(max, ops[..n]), ops[n], k);
    }
  }

  // ---------- what is reported ----------

  ghost predicate ReportsLoss(max: int, s: Recency, op: LruOp, k: Key) {
    k in Reported(max, s, op) <==> Lookup(s, k).Some? && Lookup(Apply(max, s, op), k).None?
  }

  lemma GetReports(max: int, s: Recency, j: Key, k: Key)
    requires KeysDiffer(s)
    ensures ReportsLoss(max, s, Get(j), k)
  {
    WithoutFacts(s, j);
    LookupMembers(s, k);
    LookupMembers(Apply(max, s, Get(j)), k);
    if Lookup(s, k).Some? && k != j {
      assert Item(k, Lookup(s, k).value) in Apply(max, s, Get(j));
    }
  }

  lemma RemoveReports(max: int, s: Recency, j: Key, k: Key)
    requires KeysDiffer(s)
    ensures ReportsLoss(max, s, Remove(j), k)
  {
    WithoutFacts(s, j);
    LookupMembers(s, k);
    LookupMembers(Without(s, j), k);
    if Lookup(s, k).Some? && k != j {
      assert Item(k, Lookup(s, k).value) in Without(s, j);
    }
  }

  lemma PutReports(max: int, s: Recency, j: Key, v: Bytes, k: Key)
    requires KeysDiffer(s)
    ensures ReportsLoss(max, s, Put(j, v), k)
  {
    if Reported(max, s, Put(j, v)) == [] {
      PutKeepsHeld(max, s, j, v, k);
    } else {
      LookupMembers(s, k);
      LookupMembers(s, j);
      var last := s[|s| - 1];
      assert last in s;
      if Lookup(s, k).Some? {
        var x := Item(k, Lookup(s, k).value);
        EvictionDropsLast(max, s, j, v, x);
        HasIff(Apply(max, s, Put(j, v)), k);
      } else {
        assert last.key != k;
      }
    }
  }

  lemma HasIff(s: Recency, k: Key)
    ensures Has(s, k) <==> Lookup(s, k).Some?
  {
    LookupMembers(s, k);
    if Lookup(s, k).Some? {
      var x := Item(k, Lookup(s, k).value);
      var i :| 0 <= i < |s| && s[i] == x;
      assert s[i].key == k;
    }
  }

  /** onRemove is told a key exactly if it was held and no longer is, unless Clear drops it; and one key at most. */
  lemma ReportedIff(max: int, ops: seq<LruOp>, op: LruOp, k: Key)
    requires !op.Clear?
    ensures k in Reported(max, Run(max, ops), op) <==>
            Lookup(Run(max, ops), k).Some? && Lookup(Run(max, ops + [op]), k).None?
    ensures |Reported(max, Run(max, ops), op)| <= 1
  {
    RunBounded(max, ops);
    RunSnoc(max, ops, op);
    match op {
      case Get(j) => GetReports(max, Run(max, ops), j, k);
      case Put(j, v) => PutReports(max, Run(max, ops), j, v, k);
      case Remove(j) => RemoveReports(max, Run(max, ops), j, k);
    }
  }
}
