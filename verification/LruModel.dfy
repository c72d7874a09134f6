/** The bounded recency list of the near cache (hotrod/lru.go) as a sequence, most recently used first. */
module LruModel {
  import opened Wrappers
  import opened Words

  type Key = string

  datatype Item = Item(key: Key, value: Bytes)
  type Recency = seq<Item>

  datatype LruOp = Get(key: Key) | Put(key: Key, value: Bytes) | Remove(key: Key) | Clear

  ghost predicate KeysDiffer(s: Recency) {
    forall i, j :: 0 <= i < j < |s| ==> s[i].key != s[j].key
  }

  predicate Has(s: Recency, k: Key) {
    exists i :: 0 <= i < |s| && s[i].key == k
  }

  function Lookup(s: Recency, k: Key): Option<Bytes> {
    if s == [] then None
    else if s[0].key == k then Some(s[0].value)
    else Lookup(s[1..], k)
  }

  function Without(s: Recency, k: Key): Recency {
    if s == [] then []
    else if s[0].key == k then Without(s[1..], k)
    else [s[0]] + Without(s[1..], k)
  }

  /** A store that is full drops its last item; a maximum below one behaves like one. */
  function Evicted(max: int, s: Recency): (r: Recency)
  {
    if |s| >= max && s != [] then s[..|s| - 1] else s
  }

  function Apply(max: int, s: Recency, op: LruOp): Recency {
    match op
    case Get(k) => (match Lookup(s, k) case None => s case Some(v) => [Item(k, v)] + Without(s, k))
    case Put(k, v) => [Item(k, v)] + (if Lookup(s, k).Some? then Without(s, k) else Evicted(max, s))
    case Remove(k) => Without(s, k)
    case Clear => []
  }

  /** The keys reported to onRemove. */
  function Reported(max: int, s: Recency, op: LruOp): seq<Key> {
    match op
    case Get(_) => []
    case Put(k, _) => if Lookup(s, k).None? && |s| >= max && s != [] then [s[|s| - 1].key] else []
    case Remove(k) => if Lookup(s, k).Some? then [k] else []
    case Clear => []
  }

  function Run(max: int, ops: seq<LruOp>): Recency {
    if ops == [] then [] else Apply(max, Run(max, ops[..|ops| - 1]), ops[|ops| - 1])
  }

  function Capacity(max: int): int {
    if max < 1 then 1 else max
  }

  // ---------- facts about lookup and removal ----------

  lemma {:induction false} WithoutMembers(s: Recency, k: Key)
    ensures forall x :: x in Without(s, k) <==> x in s && x.key != k
  {
    if s != [] {
      WithoutMembers(s[1..], k);
      assert s == [s[0]] + s[1..];
    }
  }

  lemma {:induction false} LookupMembers(s: Recency, k: Key)
    ensures Lookup(s, k).None? <==> forall x :: x in s ==> x.key != k
    ensures Lookup(s, k).Some? ==> Item(k, Lookup(s, k).value) in s
    ensures Lookup(s, k).None? ==> Without(s, k) == s
  {
    if s != [] {
      LookupMembers(s[1..], k);
      assert s == [s[0]] + s[1..];
    }
  }

  lemma {:induction false} WithoutLength(s: Recency, k: Key)
    ensures |Without(s, k)| <= |s|
    ensures KeysDiffer(s) && Lookup(s, k).Some? ==> |Without(s, k)| == |s| - 1
  {
    if s != [] {
      WithoutLength(s[1..], k);
      LookupMembers(s[1..], k);
      assert KeysDiffer(s) ==> forall i :: 0 < i < |s| ==> s[i].key != s[0].key;
    }
  }

  lemma {:induction false} WithoutKeysDiffer(s: Recency, k: Key)
    requires KeysDiffer(s)
    ensures KeysDiffer(Without(s, k))
  {
    if s != [] {
      WithoutKeysDiffer(s[1..], k);
      WithoutMembers(s[1..], k);
      if s[0].key != k {
        FrontDiffers(s[0], Without(s[1..], k));
      }
    }
  }

  lemma WithoutFacts(s: Recency, k: Key)
    ensures KeysDiffer(s) ==> KeysDiffer(Without(s, k))
    ensures forall x :: x in Without(s, k) <==> x in s && x.key != k
    ensures Lookup(s, k).None? <==> forall x :: x in s ==> x.key != k
    ensures Lookup(s, k).Some? ==> Item(k, Lookup(s, k).value) in s
    ensures Lookup(s, k).None? ==> Without(s, k) == s
    ensures KeysDiffer(s) && Lookup(s, k).Some? ==> |Without(s, k)| == |s| - 1
    ensures |Without(s, k)| <= |s|
  {
    if KeysDiffer(s) {
      WithoutKeysDiffer(s, k);
    }
    WithoutMembers(s, k);
    LookupMembers(s, k);
    WithoutLength(s, k);
  }

  lemma FrontDiffers(x: Item, s: Recency)
    requires KeysDiffer(s) && forall y :: y in s ==> y.key != x.key
    ensures KeysDiffer([x] + s)
  {
    assert forall i :: 0 <= i < |s| ==> s[i] in s;
  }

  lemma ApplyKeepsKeysDifferent(max: int, s: Recency, op: LruOp)
    requires KeysDiffer(s)
    ensures KeysDiffer(Apply(max, s, op))
  {
    match op {
      case Get(k) =>
        WithoutFacts(s, k);
        if Lookup(s, k).Some? {
          FrontDiffers(Item(k, Lookup(s, k).value), Without(s, k));
        }
      case Put(k, v) =>
        WithoutFacts(s, k);
        var rest := if Lookup(s, k).Some? then Without(s, k) else Evicted(max, s);
        assert forall y :: y in Evicted(max, s) ==> y in s;
        FrontDiffers(Item(k, v), rest);
      case Remove(k) => WithoutFacts(s, k);
      case Clear =>
    }
  }

  lemma ApplyBounded(max: int, s: Recency, op: LruOp)
    requires KeysDiffer(s) && |s| <= Capacity(max)
    ensures |Apply(max, s, op)| <= Capacity(max)
  {
    if !op.Clear? {
      WithoutFacts(s, op.key);
    }
  }

  /** The store never exceeds its maximum (one, for a maximum below one), and no key is held twice. */
  lemma {:induction false} RunBounded(max: int, ops: seq<LruOp>)
    ensures KeysDiffer(Run(max, ops)) && |Run(max, ops)| <= Capacity(max)
  {
    if ops != [] {
      RunBounded(max, ops[..|ops| - 1]);
      ApplyKeepsKeysDifferent(max, Run(max, ops[..|ops| - 1]), ops[|ops| - 1]);
      ApplyBounded(max, Run(max, ops[..|ops| - 1]), ops[|ops| - 1]);
    }
  }

  // ---------- inclusion: a larger store holds what a smaller one holds ----------

  predicate Subsequence(a: Recency, b: Recency) {
    if a == [] then true
    else if b == [] then false
    else if a[0] == b[0] then Subsequence(a[1..], b[1..])
    else Subsequence(a, b[1..])
  }

  lemma {:induction false} SubsequenceFacts(a: Recency, b: Recency)
    requires Subsequence(a, b)
    ensures |a| <= |b|
    ensures forall x :: x in a ==> x in b
  {
    if a != [] {
      assert a == [a[0]] + a[1..] && b == [b[0]] + b[1..];
      SubsequenceFacts(if a[0] == b[0] then a[1..] else a, b[1..]);
    }
  }

  lemma {:induction false} SubsequenceTail(a: Recency, b: Recency)
    requires a != [] && Subsequence(a, b)
    ensures Subsequence(a[1..], b)
    decreases |b|, 0
  {
    if a[0] == b[0] {
      SubsequenceWider(a[1..], b[0], b[1..]);
      assert [b[0]] + b[1..] == b;
    } else {
      SubsequenceTail(a, b[1..]);
      SubsequenceWider(a[1..], b[0], b[1..]);
      assert [b[0]] + b[1..] == b;
    }
  }

  lemma {:induction false} SubsequenceWider(a: Recency, x: Item, b: Recency)
    requires Subsequence(a, b)
    ensures Subsequence(a, [x] + b)
    decreases |b|, 1
  {
    assert ([x] + b)[1..] == b;
    if a != [] && a[0] == x {
      SubsequenceTail(a, b);
    }
  }

  lemma {:induction false} SubsequenceWithout(a: Recency, b: Recency, k: Key)
    requires Subsequence(a, b)
    ensures Subsequence(Without(a, k), Without(b, k))
  {
    if a != [] {
      if a[0] == b[0] {
        SubsequenceWithout(a[1..], b[1..], k);
        if b[0].key != k {
          SubsequenceFront(b[0], Without(a[1..], k), Without(b[1..], k));
        }
      } else {
        SubsequenceWithout(a, b[1..], k);
        SubsequenceWider(Without(a, k), b[0], Without(b[1..], k));
      }
    }
  }

  lemma SubsequenceFront(x: Item, a: Recency, b: Recency)
    requires Subsequence(a, b)
    ensures Subsequence([x] + a, [x] + b)
  {
    assert ([x] + a)[1..] == a && ([x] + b)[1..] == b;
  }

  /** Dropping the last item of the smaller list, or of both, keeps the inclusion. */
  lemma {:induction false} SubsequenceInit(a: Recency, b: Recency)
    requires a != [] && Subsequence(a, b)
    ensures Subsequence(a[..|a| - 1], b) && Subsequence(a[..|a| - 1], b[..|b| - 1])
  {
    var a', b' := a[..|a| - 1], b[..|b| - 1];
    if |a| > 1 {
      SubsequenceFacts(a, b);
      if a[0] == b[0] {
        SubsequenceInit(a[1..], b[1..]);
        assert a[1..][..|a[1..]| - 1] == a'[1..] && b[1..][..|b[1..]| - 1] == b'[1..];
      } else {
        SubsequenceInit(a, b[1..]);
        assert b[1..][..|b[1..]| - 1] == b'[1..];
      }
    }
  }

  /** Two stores with maxima k <= K: the smaller one's list is part of the larger one's, and not much shorter. */
  ghost predicate Included(k: int, K: int, a: Recency, b: Recency) {
    && Subsequence(a, b)
    && KeysDiffer(a) && KeysDiffer(b)
    && |a| <= Capacity(k) && |b| <= Capacity(K)
    && |b| - |a| <= Capacity(K) - Capacity(k)
  }

  lemma LookupIn(s: Recency, x: Item)
    requires KeysDiffer(s) && x in s
    ensures Lookup(s, x.key) == Some(x.value)
  {
    WithoutFacts(s, x.key);
    assert Lookup(s, x.key).Some?;
    var y := Item(x.key, Lookup(s, x.key).value);
    assert y in s;
    var i :| 0 <= i < |s| && s[i] == x;
    var j :| 0 <= j < |s| && s[j] == y;
  }

  lemma IncludedLookup(a: Recency, b: Recency, k: Key)
    requires Subsequence(a, b) && KeysDiffer(b)
    ensures Lookup(a, k).Some? ==> Lookup(b, k) == Lookup(a, k)
  {
    SubsequenceFacts(a, b);
    WithoutFacts(a, k);
    if Lookup(a, k).Some? {
      LookupIn(b, Item(k, Lookup(a, k).value));
    }
  }

  /** The part of the list an operation leaves in place: everything but an item it brings to the front. */
  function Kept(max: int, s: Recency, op: LruOp): Recency {
    match op
    case Get(k) => if Lookup(s, k).Some? then Without(s, k) else s
    case Put(k, _) => if Lookup(s, k).Some? then Without(s, k) else Evicted(max, s)
    case Remove(k) => Without(s, k)
    case Clear => []
  }

  lemma IncludedKept(k: int, K: int, a: Recency, b: Recency, op: LruOp)
    requires k <= K && Included(k, K, a, b) && op.Put?
    ensures Subsequence(Kept(k, a, op), Kept(K, b, op))
    ensures |Kept(K, b, op)| - |Kept(k, a, op)| <= Capacity(K) - Capacity(k)
  {
    var key := op.key;
    WithoutFacts(a, key);
    WithoutFacts(b, key);
    IncludedLookup(a, b, key);
    SubsequenceFacts(a, b);
    SubsequenceWithout(a, b, key);
    if a != [] {
      SubsequenceInit(a, b);
      if Lookup(a, key).None? {
        SubsequenceInit(a, Without(b, key));
      }
    }
  }

  lemma IncludedPut(k: int, K: int, a: Recency, b: Recency, key: Key, value: Bytes)
    requires k <= K && Included(k, K, a, b)
    ensures Subsequence(Apply(k, a, Put(key, value)), Apply(K, b, Put(key, value)))
    ensures |Apply(K, b, Put(key, value))| - |Apply(k, a, Put(key, value))| <= Capacity(K) - Capacity(k)
  {
    var op := Put(key, value);
    IncludedKept(k, K, a, b, op);
    SubsequenceFront(Item(key, value), Kept(k, a, op), Kept(K, b, op));
  }

  lemma IncludedApply(k: int, K: int, a: Recency, b: Recency, op: LruOp)
    requires k <= K && Included(k, K, a, b)
    ensures Included(k, K, Apply(k, a, op), Apply(K, b, op))
  {
    ApplyKeepsKeysDifferent(k, a, op);
    ApplyKeepsKeysDifferent(K, b, op);
    ApplyBounded(k, a, op);
    ApplyBounded(K, b, op);
    match op {
      case Get(key) =>
        WithoutFacts(a, key);
        WithoutFacts(b, key);
        IncludedLookup(a, b, key);
        SubsequenceWithout(a, b, key);
        if Lookup(a, key).Some? {
          SubsequenceFront(Item(key, Lookup(a, key).value), Without(a, key), Without(b, key));
        } else if Lookup(b, key).Some? {
          SubsequenceWider(a, Item(key, Lookup(b, key).value), Without(b, key));
        }
      case Put(key, value) => IncludedPut(k, K, a, b, key, value);
      case Remove(key) =>
        WithoutFacts(a, key);
        WithoutFacts(b, key);
        IncludedLookup(a, b, key);
        SubsequenceWithout(a, b, key);
      case Clear =>
    }
  }

  /** A bigger near cache never loses an item a smaller one keeps, and is ahead by at most the difference. */
  lemma {:induction false} Inclusion(k: int, K: int, ops: seq<LruOp>)
    requires k <= K
    ensures Subsequence(Run(k, ops), Run(K, ops))
    ensures |Run(K, ops)| - |Run(k, ops)| <= Capacity(K) - Capacity(k)
    ensures Included(k, K, Run(k, ops), Run(K, ops))
  {
    if ops != [] {
      var n := |ops| - 1;
      Inclusion(k, K, ops[..n]);
      IncludedApply(k, K, Run(k, ops[..n]), Run(K, ops[..n]), ops[n]);
    }
  }

  // ---------- last use and conservation ----------

  /** The position of the last operation that used key: a Put of it, or a Get that found it; -1 for none. */
  function LastUse(max: int, ops: seq<LruOp>, key: Key): int {
    if ops == [] then -1
    else
      var n := |ops| - 1;
      match ops[n]
      case Put(k, _) => if k == key then n else LastUse(max, ops[..n], key)
      case Get(k) => if k == key && Lookup(Run(max, ops[..n]), k).Some? then n else LastUse(max, ops[..n], key)
      case _ => LastUse(max, ops[..n], key)
  }

  lemma {:induction false} LastUseInRange(max: int, ops: seq<LruOp>, key: Key)
    ensures -1 <= LastUse(max, ops, key) < |ops|
  {
    if ops != [] {
      LastUseInRange(max, ops[..|ops| - 1], key);
    }
  }

  /** Each item was used later than every item behind it. */
  ghost predicate Ordered(max: int, ops: seq<LruOp>, s: Recency) {
    s != [] ==>
      && (forall x :: x in s[1..] ==> LastUse(max, ops, s[0].key) > LastUse(max, ops, x.key))
      && Ordered(max, ops, s[1..])
  }

  lemma {:induction false} OrderedWithout(max: int, ops: seq<LruOp>, s: Recency, k: Key)
    requires Ordered(max, ops, s)
    ensures Ordered(max, ops, Without(s, k))
  {
    if s != [] {
      OrderedWithout(max, ops, s[1..], k);
      WithoutFacts(s[1..], k);
    }
  }

  lemma {:induction false} OrderedInit(max: int, ops: seq<LruOp>, s: Recency)
    requires s != [] && Ordered(max, ops, s)
    ensures Ordered(max, ops, s[..|s| - 1])
  {
    if |s| > 1 {
      OrderedInit(max, ops, s[1..]);
      assert s[1..][..|s[1..]| - 1] == s[..|s| - 1][1..];
    }
  }

  /** One more operation leaves the last use of the keys it does not use as it was. */
  lemma {:induction false} OrderedLater(max: int, ops: seq<LruOp>, op: LruOp, s: Recency)
    requires Ordered(max, ops, s)
    requires forall x :: x in s ==> LastUse(max, ops + [op], x.key) == LastUse(max, ops, x.key)
    ensures Ordered(max, ops + [op], s)
  {
    if s != [] {
      OrderedLater(max, ops, op, s[1..]);
    }
  }

  lemma OrderedFront(max: int, ops: seq<LruOp>, x: Item, s: Recency)
    requires Ordered(max, ops, s)
    requires LastUse(max, ops, x.key) == |ops| - 1
    requires forall y :: y in s ==> LastUse(max, ops, y.key) < |ops| - 1
    ensures Ordered(max, ops, [x] + s)
  {
    assert ([x] + s)[1..] == s;
  }

  /** The list order is the order of last use: the first item was used last. */
  lemma {:induction false} RunOrdered(max: int, ops: seq<LruOp>)
    ensures Ordered(max, ops, Run(max, ops))
  {
    if ops != [] {
      var n := |ops| - 1;
      var s, op := Run(max, ops[..n]), ops[n];
      assert ops[..n] + [op] == ops;
      RunOrdered(max, ops[..n]);
      RunBounded(max, ops[..n]);
      var rest := Kept(max, s, op);
      KeptOrdered(max, ops[..n], s, op);
      forall x | x in rest
        ensures LastUse(max, ops, x.key) == LastUse(max, ops[..n], x.key) < n
      {
        LastUseInRange(max, ops[..n], x.key);
      }
      OrderedLater(max, ops[..n], op, rest);
      if Run(max, ops) != rest {
        OrderedFront(max, ops, Run(max, ops)[0], rest);
      }
    }
  }

  lemma KeptOrdered(max: int, ops: seq<LruOp>, s: Recency, op: LruOp)
    requires Ordered(max, ops, s) && KeysDiffer(s)
    ensures Ordered(max, ops, Kept(max, s, op))
    ensures forall x :: x in Kept(max, s, op) ==> x in s && (op.Put? ==> x.key != op.key)
    ensures forall x :: x in Kept(max, s, op) && op.Get? && Lookup(s, op.key).Some? ==> x.key != op.key
  {
    if !op.Clear? {
      WithoutFacts(s, op.key);
      OrderedWithout(max, ops, s, op.key);
      if s != [] {
        OrderedInit(max, ops, s);
      }
    }
  }

  lemma {:induction false} OrderedLast(max: int, ops: seq<LruOp>, s: Recency, x: Item)
    requires s != [] && Ordered(max, ops, s) && x in s
    ensures LastUse(max, ops, s[|s| - 1].key) <= LastUse(max, ops, x.key)
  {
    if |s| > 1 {
      assert s == [s[0]] + s[1..];
      OrderedLast(max, ops, s[1..], if x in s[1..] then x else s[1]);
    }
  }

  lemma EvictionDropsLast(max: int, s: Recency, k: Key, v: Bytes, x: Item)
    requires KeysDiffer(s) && x in s && Reported(max, s, Put(k, v)) != []
    ensures Has(Apply(max, s, Put(k, v)), x.key) <==> x.key != s[|s| - 1].key
  {
    LookupIn(s, x);
    var i :| 0 <= i < |s| && s[i] == x;
    var after := [Item(k, v)] + s[..|s| - 1];
    assert Apply(max, s, Put(k, v)) == after;
    if i < |s| - 1 {
      assert after[i + 1].key == x.key;
    } else {
      forall j | 0 <= j < |after|
        ensures after[j].key != x.key
      {
        assert j > 0 ==> after[j] == s[j - 1];
      }
    }
  }

  lemma RunSnoc(max: int, ops: seq<LruOp>, op: LruOp)
    ensures Run(max, ops + [op]) == Apply(max, Run(max, ops), op)
  {
    assert (ops + [op])[..|ops|] == ops;
  }

  /** What a full store s drops for a new key is exactly its least recently used item. */
  lemma VictimIsLeastRecentlyUsed(max: int, ops: seq<LruOp>, s: Recency, k: Key, v: Bytes, x: Item)
    requires s == Run(max, ops) && Reported(max, s, Put(k, v)) != [] && x in s
    ensures LastUse(max, ops, Reported(max, s, Put(k, v))[0]) <= LastUse(max, ops, x.key)
    ensures Has(Run(max, ops + [Put(k, v)]), x.key) <==> x.key != Reported(max, s, Put(k, v))[0]
  {
    RunOrdered(max, ops);
    RunBounded(max, ops);
    OrderedLast(max, ops, s, x);
    RunSnoc(max, ops, Put(k, v));
    EvictionDropsLast(max, s, k, v, x);
  }

  /** How many Puts met a new key, how many keys were reported to onRemove, and how many items Clear dropped. */
  datatype Tally = Tally(inserted: nat, reported: nat, cleared: nat)

  function Count(max: int, ops: seq<LruOp>): Tally {
    if ops == [] then Tally(0, 0, 0)
    else
      var n := |ops| - 1;
      var s, t := Run(max, ops[..n]), Count(max, ops[..n]);
      Tally(t.inserted + (if ops[n].Put? && Lookup(s, ops[n].key).None? then 1 else 0),
            t.reported + |Reported(max, s, ops[n])|,
            t.cleared + (if ops[n].Clear? then |s| else 0))
  }

  /** Every item ever inserted is still held, was reported, or was dropped by Clear. */
  lemma {:induction false} Conservation(max: int, ops: seq<LruOp>)
    ensures Count(max, ops).inserted == |Run(max, ops)| + Count(max, ops).reported + Count(max, ops).cleared
  {
    if ops != [] {
      var n := |ops| - 1;
      Conservation(max, ops[..n]);
      RunBounded(max, ops[..n]);
      if !ops[n].Clear? {
        WithoutFacts(Run(max, ops[..n]), ops[n].key);
      }
    }
  }
}
