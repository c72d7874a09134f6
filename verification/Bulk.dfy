/**
 * Bulk operations (hotrod/hotrod.go): entries or keys are grouped by their primary owner, every group goes to
 * its server at the same time, and the answers are put together. The cluster holds one cache; the order in
 * which the groups take effect, and in which their answers arrive, is arbitrary.
 */
module Bulk {
  import opened Wrappers
  import opened Words
  import opened Segments
  import Murmur

  type Key = Murmur.Octets

  datatype Entry = Entry(key: Key, value: Bytes)

  // ---------- routing ----------

  /** What a pool builds from an update with as many rows as segments. */
  ghost predicate Routable(table: Option<ConsistentHash>) {
    table.Some? ==>
      && table.value.numSegments >= 1 && table.value.segmentSize == SegmentSize(table.value.numSegments)
      && |table.value.owners| == table.value.numSegments
  }

  function GroupOfHash(table: Option<ConsistentHash>, h: int32): Address {
    if table.None? || table.value.segmentSize < 1 then NOWHERE else OwnerOfHash(table.value, h).GetOr(NOWHERE)
  }

  /** The group of a key: its primary owner, and NOWHERE without a table or an owner. */
  function GroupOf(table: Option<ConsistentHash>, key: Key): Address {
    GroupOfHash(table, Murmur.HashOf(key, Murmur.DEFAULT_SEED))
  }

  function Router(table: Option<ConsistentHash>): Key -> Address {
    (key: Key) => GroupOf(table, key)
  }

  /** Looking up the group of a hash never leaves a table built by the pool. */
  lemma GroupIsOwner(table: Option<ConsistentHash>, h: int32)
    requires Routable(table)
    ensures table.Some? ==> OwnerOfHash(table.value, h) == Some(GroupOfHash(table, h))
  {
    if table.Some? {
      ClampNeverFires(table.value.numSegments, Normalized(h));
    }
  }

  /** A key's group is the server that the pool would send the key's own request to; without a table it is none. */
  lemma GroupIsPrimaryOwner(table: Option<ConsistentHash>, key: Key)
    requires Routable(table)
    ensures table.Some? ==> PrimaryOwner(table.value, key) == Some(Router(table)(key))
    ensures table.None? ==> Router(table)(key) == NOWHERE
  {
    GroupIsOwner(table, Murmur.HashOf(key, Murmur.DEFAULT_SEED));
  }

  // ---------- grouping ----------

  /** The items that belong to a, in their order. */
  function Shard<T(!new)>(items: seq<T>, groupOf: T -> Address, a: Address): (r: seq<T>)
    ensures forall x :: x in r <==> x in items && groupOf(x) == a
  {
    if items == [] then []
    else
      var n := |items| - 1;
      if groupOf(items[n]) == a then Shard(items[..n], groupOf, a) + [items[n]] else Shard(items[..n], groupOf, a)
  }

  /** The groups are the non-empty shards. */
  ghost predicate Grouped<T(!new)>(items: seq<T>, groupOf: T -> Address, groups: map<Address, seq<T>>) {
    && (forall a :: a in groups <==> exists x :: x in items && groupOf(x) == a)
    && (forall a :: a in groups ==> groups[a] == Shard(items, groupOf, a))
  }

  /** Every occurrence of an item is in its own shard, and none in any other. */
  lemma {:induction false} ShardsPartition<T(!new)>(items: seq<T>, groupOf: T -> Address, a: Address, x: T)
    ensures multiset(Shard(items, groupOf, a))[x] == if groupOf(x) == a then multiset(items)[x] else 0
  {
    if items != [] {
      var n := |items| - 1;
      assert items == items[..n] + [items[n]];
      ShardsPartition(items[..n], groupOf, a, x);
    }
  }

  lemma NoShard<T(!new)>(items: seq<T>, groupOf: T -> Address, a: Address)
    ensures Shard(items, groupOf, a) == [] <==> forall x :: x in items ==> groupOf(x) != a
  {
    var shard := Shard(items, groupOf, a);
    assert shard != [] ==> shard[0] in shard;
  }

  lemma GroupedMoreAt<T(!new)>(before: seq<T>, x: T, groupOf: T -> Address, groups: map<Address, seq<T>>, b: Address)
    requires Grouped(before, groupOf, groups)
    ensures var a, after := groupOf(x), before + [x];
            var next := groups[a := (if a in groups then groups[a] else []) + [x]];
            && (b in next <==> exists y :: y in after && groupOf(y) == b)
            && (b in next ==> next[b] == Shard(after, groupOf, b))
  {
    var after := before + [x];
    assert after[..|before|] == before && x in after;
    NoShard(before, groupOf, b);
    NoShard(after, groupOf, b);
  }

  lemma GroupedMore<T(!new)>(before: seq<T>, x: T, groupOf: T -> Address, groups: map<Address, seq<T>>)
    requires Grouped(before, groupOf, groups)
    ensures var a := groupOf(x);
            Grouped(before + [x], groupOf, groups[a := (if a in groups then groups[a] else []) + [x]])
  {
    forall b {
      GroupedMoreAt(before, x, groupOf, groups, b);
    }
  }

  method GroupItems<T(!new)>(items: seq<T>, groupOf: T -> Address) returns (groups: map<Address, seq<T>>)
    ensures Grouped(items, groupOf, groups)
  {
    groups := map[];
    for i := 0 to |items|
      invariant Grouped(items[..i], groupOf, groups)
    {
      var a := groupOf(items[i]);
      GroupedMore(items[..i], items[i], groupOf, groups);
      assert items[..i + 1] == items[..i] + [items[i]];
      groups := groups[a := (if a in groups then groups[a] else []) + [items[i]]];
    }
    assert items[..|items|] == items;
  }

  // ---------- PutAll ----------

  /** What a server makes of its group: it applies all of it, or fails, having applied some of the keys or none. */
  datatype Reply = Applied | Failed(partly: set<Key>)

  predicate TakesEffect(r: Reply, key: Key) {
    r.Applied? || key in r.partly
  }

  /** The cache after one group, entry by entry. */
  function AfterGroup(cache: map<Key, Bytes>, group: seq<Entry>, r: Reply): map<Key, Bytes> {
    if group == [] then cache
    else
      var n := |group| - 1;
      var before := AfterGroup(cache, group[..n], r);
      if TakesEffect(r, group[n].key) then before[group[n].key := group[n].value] else before
  }

  class Cluster {
    var cache: map<Key, Bytes>

    constructor (cache: map<Key, Bytes>)
      ensures this.cache == cache
    {
      this.cache := cache;
    }

    method PutAll(entries: seq<Entry>, reply: Reply) returns (ok: bool)
      modifies this
      ensures ok <==> reply.Applied?
      ensures cache == AfterGroup(old(cache), entries, reply)
    {
      for i := 0 to |entries|
        invariant cache == AfterGroup(old(cache), entries[..i], reply)
      {
        assert entries[..i + 1][..i] == entries[..i];
        if TakesEffect(reply, entries[i].key) {
          cache := cache[entries[i].key := entries[i].value];
        }
      }
      assert entries[..|entries|] == entries;
      ok := reply.Applied?;
    }
  }

  ghost predicate NoKeyTwice(items: seq<Entry>) {
    forall x, y :: x in items && y in items && x.key == y.key ==> x == y
  }

  lemma {:induction false} GroupEffect(cache: map<Key, Bytes>, group: seq<Entry>, r: Reply, k: Key)
    requires NoKeyTwice(group)
    ensures forall e :: e in group && e.key == k && TakesEffect(r, k) ==>
              k in AfterGroup(cache, group, r) && AfterGroup(cache, group, r)[k] == e.value
    ensures (forall e :: e in group && e.key == k ==> !TakesEffect(r, k)) ==>
              (k in AfterGroup(cache, group, r) <==> k in cache) &&
              (k in cache ==> AfterGroup(cache, group, r)[k] == cache[k])
  {
    if group != [] {
      var n := |group| - 1;
      GroupEffect(cache, group[..n], r, k);
      assert group == group[..n] + [group[n]];
    }
  }

  /** The value of k when the groups in `done` have been dealt with. */
  ghost predicate HasValue(now: map<Key, Bytes>, was: map<Key, Bytes>, items: seq<Entry>, groupOf: Key -> Address,
                           replies: map<Address, Reply>, done: set<Address>, k: Key)
    requires done <= replies.Keys
  {
    var a := groupOf(k);
    if a in done && TakesEffect(replies[a], k) && exists e :: e in items && e.key == k then
      forall e :: e in items && e.key == k ==> k in now && now[k] == e.value
    else (k in now <==> k in was) && (k in was ==> now[k] == was[k])
  }

  ghost predicate AllHaveValues(now: map<Key, Bytes>, was: map<Key, Bytes>, items: seq<Entry>,
                                groupOf: Key -> Address, replies: map<Address, Reply>, done: set<Address>)
    requires done <= replies.Keys
  {
    forall k :: HasValue(now, was, items, groupOf, replies, done, k)
  }

  lemma OneMoreGroup(now: map<Key, Bytes>, was: map<Key, Bytes>, items: seq<Entry>, groupOf: Key -> Address,
                     replies: map<Address, Reply>, done: set<Address>, a: Address, k: Key)
    requires done <= replies.Keys && a in replies && a !in done && NoKeyTwice(items)
    requires HasValue(now, was, items, groupOf, replies, done, k)
    ensures HasValue(AfterGroup(now, Shard(items, (e: Entry) => groupOf(e.key), a), replies[a]), was, items, groupOf,
                     replies, done + {a}, k)
  {
    var shard := Shard(items, (e: Entry) => groupOf(e.key), a);
    assert NoKeyTwice(shard);
    GroupEffect(now, shard, replies[a], k);
    assert forall e :: e in shard <==> e in items && groupOf(e.key) == a;
  }

  lemma AllWithOneMoreGroup(now: map<Key, Bytes>, was: map<Key, Bytes>, items: seq<Entry>, groupOf: Key -> Address,
                            replies: map<Address, Reply>, done: set<Address>, a: Address)
    requires done <= replies.Keys && a in replies && a !in done && NoKeyTwice(items)
    requires AllHaveValues(now, was, items, groupOf, replies, done)
    ensures AllHaveValues(AfterGroup(now, Shard(items, (e: Entry) => groupOf(e.key), a), replies[a]), was, items,
                          groupOf, replies, done + {a})
  {
    var after := AfterGroup(now, Shard(items, (e: Entry) => groupOf(e.key), a), replies[a]);
    forall k
      ensures HasValue(after, was, items, groupOf, replies, done + {a}, k)
    {
      assert HasValue(now, was, items, groupOf, replies, done, k);
      OneMoreGroup(now, was, items, groupOf, replies, done, a, k);
    }
  }

  ghost predicate IsOrderOf(order: seq<Address>, groups: set<Address>) {
    && (forall a :: a in order <==> a in groups)
    && (forall i, j :: 0 <= i < j < |order| ==> order[i] != order[j])
  }

  ghost function FirstOf(order: seq<Address>, i: nat): set<Address>
    requires i <= |order|
  {
    set a | a in order[..i]
  }

  lemma FirstOfMore(order: seq<Address>, i: nat)
    requires i < |order|
    requires forall j, k :: 0 <= j < k < |order| ==> order[j] != order[k]
    ensures order[i] in order && order[i] !in FirstOf(order, i)
    ensures FirstOf(order, i + 1) == FirstOf(order, i) + {order[i]}
    ensures i + 1 == |order| ==> FirstOf(order, i + 1) == set a | a in order
  {
    assert order[..i + 1] == order[..i] + [order[i]];
    if i + 1 == |order| {
      assert order[..i + 1] == order;
    }
  }

  /** The groups are sent off together; `order` is the order in which they take effect. */
  method DispatchPutAll(items: seq<Entry>, groupOf: Key -> Address, groups: map<Address, seq<Entry>>, cluster: Cluster,
                        order: seq<Address>, replies: map<Address, Reply>)
    returns (ok: bool)
    requires NoKeyTwice(items) && Grouped(items, (e: Entry) => groupOf(e.key), groups)
    requires IsOrderOf(order, groups.Keys) && groups.Keys <= replies.Keys
    modifies cluster
    ensures ok <==> forall a :: a in groups ==> replies[a].Applied?
    ensures AllHaveValues(cluster.cache, old(cluster.cache), items, groupOf, replies, groups.Keys)
  {
    ghost var done: set<Address> := {};
    ok := true;
    for i := 0 to |order|
      invariant done == FirstOf(order, i) && done <= replies.Keys
      invariant ok <==> forall a :: a in done ==> replies[a].Applied?
      invariant AllHaveValues(cluster.cache, old(cluster.cache), items, groupOf, replies, done)
    {
      var a := order[i];
      FirstOfMore(order, i);
      ghost var before := cluster.cache;
      var sent := cluster.PutAll(groups[a], replies[a]);
      if !sent {
        ok := false;
      }
      AllWithOneMoreGroup(before, old(cluster.cache), items, groupOf, replies, done, a);
      done := done + {a};
    }
    assert done == groups.Keys;
  }

  /** The entries of a map, in the arbitrary order in which the client meets them. */
  method EntriesOf(entries: map<Key, Bytes>) returns (items: seq<Entry>)
    ensures NoKeyTwice(items)
    ensures forall e :: e in items <==> e.key in entries && entries[e.key] == e.value
  {
    items := [];
    var todo := entries.Keys;
    while todo != {}
      invariant todo <= entries.Keys && NoKeyTwice(items)
      invariant forall e :: e in items <==> e.key in entries && e.key !in todo && entries[e.key] == e.value
      decreases todo
    {
      var k :| k in todo;
      items := items + [Entry(k, entries[k])];
      todo := todo - {k};
    }
  }

  /** The groups of some keys. */
  ghost function GroupsOf(keys: set<Key>, groupOf: Key -> Address): set<Address> {
    set k | k in keys :: groupOf(k)
  }

  lemma GroupsOfItems(entries: map<Key, Bytes>, items: seq<Entry>, groupOf: Key -> Address,
                      groups: map<Address, seq<Entry>>)
    requires forall e :: e in items <==> e.key in entries && entries[e.key] == e.value
    requires Grouped(items, (e: Entry) => groupOf(e.key), groups)
    ensures groups.Keys == GroupsOf(entries.Keys, groupOf)
  {
    forall a | a in GroupsOf(entries.Keys, groupOf)
      ensures a in groups
    {
      var k :| k in entries && groupOf(k) == a;
      assert Entry(k, entries[k]) in items;
    }
  }

  /** The caller's outcome, key by key. */
  ghost predicate PutAllOutcome(now: map<Key, Bytes>, was: map<Key, Bytes>, entries: map<Key, Bytes>,
                                groupOf: Key -> Address, replies: map<Address, Reply>, k: Key)
    requires GroupsOf(entries.Keys, groupOf) <= replies.Keys
  {
    if k in entries && TakesEffect(replies[groupOf(k)], k) then k in now && now[k] == entries[k]
    else (k in now <==> k in was) && (k in was ==> now[k] == was[k])
  }

  lemma OutcomeOfKey(now: map<Key, Bytes>, was: map<Key, Bytes>, entries: map<Key, Bytes>, items: seq<Entry>,
                     groupOf: Key -> Address, replies: map<Address, Reply>, k: Key)
    requires forall e :: e in items <==> e.key in entries && entries[e.key] == e.value
    requires GroupsOf(entries.Keys, groupOf) <= replies.Keys
    requires HasValue(now, was, items, groupOf, replies, GroupsOf(entries.Keys, groupOf), k)
    ensures PutAllOutcome(now, was, entries, groupOf, replies, k)
  {
    if k in entries {
      assert Entry(k, entries[k]) in items;
      assert groupOf(k) in GroupsOf(entries.Keys, groupOf);
    }
  }

  /**
   * Success is reported exactly if every group succeeded, and then the cache is what one unsharded write makes
   * of it. Otherwise only keys of failed groups may lack their new value.
   */
  method PutAllBy(entries: map<Key, Bytes>, groupOf: Key -> Address, cluster: Cluster, order: seq<Address>,
                replies: map<Address, Reply>)
    returns (ok: bool)
    requires IsOrderOf(order, GroupsOf(entries.Keys, groupOf))
    requires GroupsOf(entries.Keys, groupOf) <= replies.Keys
    modifies cluster
    ensures ok <==> forall a :: a in GroupsOf(entries.Keys, groupOf) ==> replies[a].Applied?
    ensures forall k :: PutAllOutcome(cluster.cache, old(cluster.cache), entries, groupOf, replies, k)
    ensures ok ==> cluster.cache == old(cluster.cache) + entries
  {
    if |entries| == 0 {
      assert entries == map[];
      return true;
    }
    var items := EntriesOf(entries);
    var groups := GroupItems(items, (e: Entry) => groupOf(e.key));
    GroupsOfItems(entries, items, groupOf, groups);
    ok := DispatchPutAll(items, groupOf, groups, cluster, order, replies);
    forall k
      ensures PutAllOutcome(cluster.cache, old(cluster.cache), entries, groupOf, replies, k)
    {
      assert HasValue(cluster.cache, old(cluster.cache), items, groupOf, replies, groups.Keys, k);
      OutcomeOfKey(cluster.cache, old(cluster.cache), entries, items, groupOf, replies, k);
    }
    if ok {
      AllApplied(cluster.cache, old(cluster.cache), entries, groupOf, replies);
    }
  }

  /** The same for the cache's routing table, or without one. */
  method PutAll(entries: map<Key, Bytes>, table: Option<ConsistentHash>, cluster: Cluster, order: seq<Address>,
                replies: map<Address, Reply>)
    returns (ok: bool)
    requires IsOrderOf(order, GroupsOf(entries.Keys, Router(table)))
    requires GroupsOf(entries.Keys, Router(table)) <= replies.Keys
    modifies cluster
    ensures ok <==> forall a :: a in GroupsOf(entries.Keys, Router(table)) ==> replies[a].Applied?
    ensures forall k :: PutAllOutcome(cluster.cache, old(cluster.cache), entries, Router(table), replies, k)
    ensures ok ==> cluster.cache == old(cluster.cache) + entries
  {
    ok := PutAllBy(entries, Router(table), cluster, order, replies);
  }

  lemma AllApplied(now: map<Key, Bytes>, was: map<Key, Bytes>, entries: map<Key, Bytes>, groupOf: Key -> Address,
                   replies: map<Address, Reply>)
    requires GroupsOf(entries.Keys, groupOf) <= replies.Keys
    requires forall a :: a in GroupsOf(entries.Keys, groupOf) ==> replies[a].Applied?
    requires forall k :: PutAllOutcome(now, was, entries, groupOf, replies, k)
    ensures now == was + entries
  {
    forall k
      ensures k in now <==> k in was + entries
      ensures k in now ==> now[k] == (was + entries)[k]
    {
      assert PutAllOutcome(now, was, entries, groupOf, replies, k);
      if k in entries {
        assert groupOf(k) in GroupsOf(entries.Keys, groupOf);
      }
    }
  }

  // ---------- GetAll ----------

  /** A reply lists, in any order and perhaps repeatedly, the group's keys that the server has. */
  ghost predicate Answers(snapshot: map<Key, Bytes>, group: seq<Key>, reply: seq<Entry>) {
    forall e :: e in reply <==> e.key in group && e.key in snapshot && snapshot[e.key] == e.value
  }

  /** Later entries win, should a key come twice. */
  method MergeEntries(entries: seq<Entry>, start: map<Key, Bytes>) returns (m: map<Key, Bytes>)
    ensures m == AfterGroup(start, entries, Applied)
  {
    m := start;
    for i := 0 to |entries|
      invariant m == AfterGroup(start, entries[..i], Applied)
    {
      assert entries[..i + 1][..i] == entries[..i];
      m := m[entries[i].key := entries[i].value];
    }
    assert entries[..|entries|] == entries;
  }

  ghost function KeyGroups(keys: seq<Key>, groupOf: Key -> Address): set<Address> {
    set k | k in keys :: groupOf(k)
  }

  /** Each key as the server of its group had it, for the groups in `done`. */
  function Found(keys: seq<Key>, groupOf: Key -> Address, snapshots: map<Address, map<Key, Bytes>>, done: set<Address>)
    : map<Key, Bytes>
    requires done <= snapshots.Keys
  {
    map k | k in keys && groupOf(k) in done && k in snapshots[groupOf(k)] :: snapshots[groupOf(k)][k]
  }

  lemma MergedGroup(keys: seq<Key>, groupOf: Key -> Address, snapshots: map<Address, map<Key, Bytes>>,
                    done: set<Address>, a: Address, reply: seq<Entry>)
    requires done <= snapshots.Keys && a in snapshots
    requires Answers(snapshots[a], Shard(keys, groupOf, a), reply)
    ensures AfterGroup(Found(keys, groupOf, snapshots, done), reply, Applied) ==
            Found(keys, groupOf, snapshots, done + {a})
  {
    var before, after := Found(keys, groupOf, snapshots, done), Found(keys, groupOf, snapshots, done + {a});
    var merged := AfterGroup(before, reply, Applied);
    forall k
      ensures k in merged <==> k in after
      ensures k in merged ==> merged[k] == after[k]
    {
      GroupEffect(before, reply, Applied, k);
      if k in keys && groupOf(k) == a && k in snapshots[a] {
        assert Entry(k, snapshots[a][k]) in reply;
      } else {
        assert forall e :: e in reply ==> e.key != k;
      }
    }
  }

  /** What the groups' answers are when each server works on its own state of the cache. */
  ghost predicate Answered(keys: seq<Key>, groupOf: Key -> Address, snapshots: map<Address, map<Key, Bytes>>,
                           replies: map<Address, Option<seq<Entry>>>)
  {
    forall a :: a in KeyGroups(keys, groupOf) ==>
      && a in snapshots && a in replies
      && (replies[a].Some? ==> Answers(snapshots[a], Shard(keys, groupOf, a), replies[a].value))
  }

  lemma FoundInAll(keys: seq<Key>, groupOf: Key -> Address, snapshots: map<Address, map<Key, Bytes>>)
    requires KeyGroups(keys, groupOf) <= snapshots.Keys
    ensures forall k :: k in keys ==> groupOf(k) in KeyGroups(keys, groupOf)
    ensures Found(keys, groupOf, snapshots, KeyGroups(keys, groupOf)) ==
            map k | k in keys && groupOf(k) in snapshots && k in snapshots[groupOf(k)] :: snapshots[groupOf(k)][k]
  {
  }

  /** `order` is the order in which the answers come in; one failure fails the whole call. */
  method DispatchGetAll(keys: seq<Key>, groupOf: Key -> Address, groups: map<Address, seq<Key>>, order: seq<Address>,
                        ghost snapshots: map<Address, map<Key, Bytes>>, replies: map<Address, Option<seq<Entry>>>)
    returns (r: Option<map<Key, Bytes>>)
    requires Answered(keys, groupOf, snapshots, replies)
    requires groups.Keys == KeyGroups(keys, groupOf) && IsOrderOf(order, groups.Keys)
    ensures r.Some? <==> forall a :: a in groups ==> replies[a].Some?
    ensures r.Some? ==> groups.Keys <= snapshots.Keys && r.value == Found(keys, groupOf, snapshots, groups.Keys)
  {
    var merged: map<Key, Bytes> := map[];
    ghost var done: set<Address> := {};
    for i := 0 to |order|
      invariant done == FirstOf(order, i) && done <= snapshots.Keys
      invariant forall a :: a in done ==> replies[a].Some?
      invariant merged == Found(keys, groupOf, snapshots, done)
    {
      var a := order[i];
      FirstOfMore(order, i);
      if replies[a].None? {
        return None;
      }
      MergedGroup(keys, groupOf, snapshots, done, a, replies[a].value);
      merged := MergeEntries(replies[a].value, merged);
      done := done + {a};
    }
    assert done == groups.Keys;
    r := Some(merged);
  }

  lemma GroupsOfKeys(keys: seq<Key>, groupOf: Key -> Address, groups: map<Address, seq<Key>>)
    requires Grouped(keys, groupOf, groups)
    ensures groups.Keys == KeyGroups(keys, groupOf)
  {
  }

  /** Each key as its group's server had it, in whatever order the answers arrive; or a failure if a group failed. */
  method GetAllBy(keys: seq<Key>, groupOf: Key -> Address, order: seq<Address>,
                ghost snapshots: map<Address, map<Key, Bytes>>, replies: map<Address, Option<seq<Entry>>>)
    returns (r: Option<map<Key, Bytes>>)
    requires Answered(keys, groupOf, snapshots, replies)
    requires IsOrderOf(order, KeyGroups(keys, groupOf))
    ensures r.Some? <==> forall a :: a in KeyGroups(keys, groupOf) ==> replies[a].Some?
    ensures r.Some? ==>
              r.value == map k | k in keys && groupOf(k) in snapshots && k in snapshots[groupOf(k)]
                           :: snapshots[groupOf(k)][k]
  {
    if |keys| == 0 {
      return Some(map[]);
    }
    var groups := GroupItems(keys, groupOf);
    GroupsOfKeys(keys, groupOf, groups);
    r := DispatchGetAll(keys, groupOf, groups, order, snapshots, replies);
    if r.Some? {
      FoundInAll(keys, groupOf, snapshots);
    }
  }

  /** The same for the cache's routing table, or without one. */
  method GetAll(keys: seq<Key>, table: Option<ConsistentHash>, order: seq<Address>,
                ghost snapshots: map<Address, map<Key, Bytes>>, replies: map<Address, Option<seq<Entry>>>)
    returns (r: Option<map<Key, Bytes>>)
    requires Answered(keys, Router(table), snapshots, replies)
    requires IsOrderOf(order, KeyGroups(keys, Router(table)))
    ensures r.Some? <==> forall a :: a in KeyGroups(keys, Router(table)) ==> replies[a].Some?
    ensures r.Some? ==>
              r.value == map k | k in keys && Router(table)(k) in snapshots && k in snapshots[Router(table)(k)]
                           :: snapshots[Router(table)(k)][k]
  {
    r := GetAllBy(keys, Router(table), order, snapshots, replies);
  }

  /** If nobody writes meanwhile, that is the cache restricted to the keys, as one unsharded request would give it. */
  lemma UndisturbedGetAll(keys: seq<Key>, groupOf: Key -> Address, snapshots: map<Address, map<Key, Bytes>>,
                          cache: map<Key, Bytes>)
    requires forall a :: a in KeyGroups(keys, groupOf) ==> a in snapshots && snapshots[a] == cache
    ensures (map k | k in keys && groupOf(k) in snapshots && k in snapshots[groupOf(k)] :: snapshots[groupOf(k)][k])
            == map k | k in keys && k in cache :: cache[k]
  {
    assert forall k :: k in keys ==> groupOf(k) in KeyGroups(keys, groupOf);
  }
}
