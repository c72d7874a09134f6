/**
 * The lock-free count of local removals (onEntryRemoved in hotrod/near_cache.go), under every interleaving
 * of its atomic loads and compare-and-swaps.
 */
module RemovalCounter {

  /** Where a call stands in its retry loop. */
  datatype Call = Loading | Loaded(removals: int) | Returned

  datatype State = State(removalCount: int, calls: map<nat, Call>, updates: nat)

  const INITIAL := State(0, map[], 0)

  datatype Action = Enter(call: nat) | Load(call: nat) | CompareAndSwap(call: nat)

  predicate Enabled(s: State, a: Action) {
    match a
    case Enter(c) => c !in s.calls
    case Load(c) => c in s.calls && s.calls[c].Loading?
    case CompareAndSwap(c) => c in s.calls && s.calls[c].Loaded?
  }

  function Next(threshold: nat, s: State, a: Action): State
    requires Enabled(s, a)
  {
    match a
    case Enter(c) => s.(calls := s.calls[c := Loading])
    case Load(c) => s.(calls := s.calls[c := Loaded(s.removalCount)])
    case CompareAndSwap(c) =>
      var removals := s.calls[c].removals;
      if s.removalCount != removals then s.(calls := s.calls[c := Loading])
      else if removals >= threshold then
        State(0, s.calls[c := Returned], s.updates + 1)
      else s.(removalCount := removals + 1, calls := s.calls[c := Returned])
  }

  function Run(threshold: nat, actions: seq<Action>): (r: (bool, State)) {
    if actions == [] then (true, INITIAL)
    else
      var n := |actions| - 1;
      var (possible, s) := Run(threshold, actions[..n]);
      if possible && Enabled(s, actions[n]) then (true, Next(threshold, s, actions[n])) else (false, s)
  }

  function ReturnedCalls(s: State): set<nat> {
    set c | c in s.calls && s.calls[c].Returned?
  }

  lemma StepCounts(threshold: nat, s: State, a: Action)
    requires Enabled(s, a)
    requires |ReturnedCalls(s)| == (threshold + 1) * s.updates + s.removalCount && 0 <= s.removalCount <= threshold
    ensures var t := Next(threshold, s, a);
            |ReturnedCalls(t)| == (threshold + 1) * t.updates + t.removalCount && 0 <= t.removalCount <= threshold
  {
    var t := Next(threshold, s, a);
    if a.CompareAndSwap? && t.calls[a.call].Returned? {
      assert ReturnedCalls(t) == ReturnedCalls(s) + {a.call} && a.call !in ReturnedCalls(s);
    } else {
      assert ReturnedCalls(t) == ReturnedCalls(s);
    }
  }

  /** A compare-and-swap returns exactly if nobody has changed the counter since its load, and else tries again. */
  lemma SwapsIff(threshold: nat, s: State, c: nat)
    requires Enabled(s, CompareAndSwap(c))
    ensures var t, loaded := Next(threshold, s, CompareAndSwap(c)), s.calls[c].removals;
            && c in t.calls
            && (t.calls[c].Returned? <==> s.removalCount == loaded)
            && (s.removalCount != loaded ==> t == s.(calls := s.calls[c := Loading]))
  {
  }

  /** The calls 0 to k - 1, one after another. */
  function OneByOne(k: nat): seq<Action> {
    if k == 0 then [] else OneByOne(k - 1) + [Enter(k - 1), Load(k - 1), CompareAndSwap(k - 1)]
  }

  lemma RunThree(threshold: nat, actions: seq<Action>, s: State, a: Action, b: Action, c: Action)
    requires Run(threshold, actions) == (true, s) && Enabled(s, a) && Enabled(Next(threshold, s, a), b)
    requires Enabled(Next(threshold, Next(threshold, s, a), b), c)
    ensures Run(threshold, actions + [a, b, c]) ==
            (true, Next(threshold, Next(threshold, Next(threshold, s, a), b), c))
  {
    assert (actions + [a, b, c])[..|actions| + 2] == actions + [a, b];
    assert (actions + [a, b])[..|actions| + 1] == actions + [a];
    assert (actions + [a])[..|actions|] == actions;
    assert Run(threshold, actions + [a]) == (true, Next(threshold, s, a));
    assert Run(threshold, actions + [a, b]) == (true, Next(threshold, Next(threshold, s, a), b));
  }

  /** Calls that do not disturb each other all return, each at its first attempt. */
  lemma {:induction false} UndisturbedCallsReturn(threshold: nat, k: nat)
    ensures var (possible, s) := Run(threshold, OneByOne(k));
            && possible && (forall c: nat :: c < k <==> c in s.calls)
            && forall c :: c in s.calls ==> s.calls[c].Returned?
  {
    if k > 0 {
      UndisturbedCallsReturn(threshold, k - 1);
      var s, c := Run(threshold, OneByOne(k - 1)).1, k - 1;
      RunThree(threshold, OneByOne(k - 1), s, Enter(c), Load(c), CompareAndSwap(c));
    }
  }

  /** Every removal whose call has returned is counted once: in the counter, or in an update it helped to trigger. */
  lemma {:induction false} EveryRemovalCountedOnce(threshold: nat, actions: seq<Action>)
    ensures var s := Run(threshold, actions).1;
            |ReturnedCalls(s)| == (threshold + 1) * s.updates + s.removalCount && 0 <= s.removalCount <= threshold
  {
    if actions == [] {
      assert ReturnedCalls(INITIAL) == {};
    } else {
      var n := |actions| - 1;
      EveryRemovalCountedOnce(threshold, actions[..n]);
      var (possible, s) := Run(threshold, actions[..n]);
      if possible && Enabled(s, actions[n]) {
        StepCounts(threshold, s, actions[n]);
      }
    }
  }

  /** The filter updates triggered so far are the number of returned calls divided by threshold + 1. */
  lemma UpdatesPerRemovals(threshold: nat, actions: seq<Action>)
    ensures var s := Run(threshold, actions).1;
            s.updates == |ReturnedCalls(s)| / (threshold + 1) && s.removalCount == |ReturnedCalls(s)| % (threshold + 1)
  {
    EveryRemovalCountedOnce(threshold, actions);
    var s := Run(threshold, actions).1;
    DivisionUnique(|ReturnedCalls(s)|, threshold + 1, s.updates, s.removalCount);
  }

  lemma DivisionUnique(n: nat, d: nat, q: int, r: int)
    requires n == d * q + r && 0 <= r < d
    ensures q == n / d && r == n % d
  {
    QuotientUnique(d, q, r, n / d, n % d);
  }

  lemma MultipleAtLeast(d: nat, e: int)
    requires e >= 1
    ensures d * e >= d
  {
    assert d * e == d * (e - 1) + d;
  }

  lemma QuotientUnique(d: nat, q: int, r: int, p: int, t: int)
    requires d * q + r == d * p + t && 0 <= r < d && 0 <= t < d
    ensures q == p && r == t
  {
    if p > q {
      assert d * (p - q) == d * p - d * q;
      MultipleAtLeast(d, p - q);
    } else if p < q {
      assert d * (q - p) == d * q - d * p;
      MultipleAtLeast(d, q - p);
    }
  }
}
