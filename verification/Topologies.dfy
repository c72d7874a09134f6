/**
 * Topology updates (internal/connection/pool.go): which servers, routing tables and connections the pool has
 * after any history of them.
 */
module Topologies {
  import opened Wrappers
  import opened Words
  import opened Decimal
  import opened Headers
  import opened Segments

  type ConnId = nat
  type CacheName = Bytes

  /** The topology's view of the pool. */
  datatype View = View(topoId: int32, servers: seq<Address>, conns: map<Address, ConnId>,
                       tables: map<CacheName, ConsistentHash>)

  /** An update and the cache whose operation it came back with. */
  datatype Update = Update(topology: Topology, cache: CacheName)

  /** "host:port". */
  function AddressOf(s: ServerAddress): Address {
    s.host + [0x3A] + Digits(s.port)
  }

  function Addresses(t: Topology): (r: seq<Address>)
    ensures |r| == |t.servers|
  {
    seq(|t.servers|, i requires 0 <= i < |t.servers| => AddressOf(t.servers[i]))
  }

  lemma {:induction false} NoColonInDigits(n: nat)
    ensures 0x3A !in Digits(n)
  {
    if n >= 10 {
      NoColonInDigits(n / 10);
    }
  }

  lemma DigitsDiffer(m: nat, n: nat)
    requires Digits(m) == Digits(n)
    ensures m == n
  {
    DigitsRead(m);
    DigitsRead(n);
  }

  lemma BehindColon(host: Bytes, digits: Bytes, p: nat)
    requires |host| < p <= |host| + |digits|
    ensures (host + [0x3A] + digits)[p] in digits
  {
    assert (host + [0x3A] + digits)[p] == digits[p - |host| - 1];
  }

  lemma NoShorterHost(host: Bytes, digits: Bytes, host': Bytes, digits': Bytes)
    requires 0x3A !in digits && host + [0x3A] + digits == host' + [0x3A] + digits'
    ensures |host| >= |host'|
  {
    var a := host' + [0x3A] + digits';
    assert |a| == |host + [0x3A] + digits|;
    assert a[|host'|] == 0x3A;
    forall p: nat | |host| < p <= |host| + |digits|
      ensures (host + [0x3A] + digits)[p] != 0x3A
    {
      BehindColon(host, digits, p);
    }
  }

  lemma LastColon(host: Bytes, digits: Bytes, host': Bytes, digits': Bytes)
    requires 0x3A !in digits && 0x3A !in digits' && host + [0x3A] + digits == host' + [0x3A] + digits'
    ensures host == host' && digits == digits'
  {
    NoShorterHost(host, digits, host', digits');
    NoShorterHost(host', digits', host, digits);
    var a := host + [0x3A] + digits;
    assert a[..|host|] == host && a[|host| + 1..] == digits;
    assert a[..|host|] == host' && a[|host| + 1..] == digits';
  }

  /** Different servers have different addresses, and none of them is the missing one. */
  lemma AddressesDiffer(s: ServerAddress, t: ServerAddress)
    requires AddressOf(s) == AddressOf(t)
    ensures s == t && AddressOf(s) != NOWHERE
  {
    NoColonInDigits(s.port);
    NoColonInDigits(t.port);
    LastColon(s.host, Digits(s.port), t.host, Digits(t.port));
    DigitsDiffer(s.port, t.port);
  }

  // ---------- routing tables ----------

  /** What the client needs of an update: a segment count to divide by, and no negative index. */
  ghost predicate Usable(t: Topology) {
    t.owners.Some? ==>
      && t.numSegments >= 1
      && forall i, j :: 0 <= i < |t.owners.value| && 0 <= j < |t.owners.value[i]| ==> t.owners.value[i][j] >= 0
  }

  function OwnerAt(addrs: seq<Address>, idx: int32): Address {
    if 0 <= idx < |addrs| then addrs[idx] else NOWHERE
  }

  function Row(addrs: seq<Address>, owners: seq<int32>): (r: seq<Address>)
    ensures |r| == |owners|
  {
    seq(|owners|, j requires 0 <= j < |owners| => OwnerAt(addrs, owners[j]))
  }

  function Rows(addrs: seq<Address>, owners: seq<seq<int32>>): (r: seq<seq<Address>>)
    ensures |r| == |owners|
  {
    seq(|owners|, i requires 0 <= i < |owners| => Row(addrs, owners[i]))
  }

  datatype Effect = Keep | Replace(table: ConsistentHash) | Drop

  /** What an update means for the table of one cache. */
  function EffectOn(u: Update, cache: CacheName): Effect
    requires Usable(u.topology)
  {
    var t := u.topology;
    if u.cache == [] || u.cache != cache then Keep
    else if t.owners.Some? && t.hashVersion > 0 then
      Replace(NewConsistentHash(t.numSegments, Rows(Addresses(t), t.owners.value)))
    else if t.hashVersion == 0 && t.numSegments > 0 then Drop
    else Keep
  }

  function UpdateTables(tables: map<CacheName, ConsistentHash>, u: Update): map<CacheName, ConsistentHash>
    requires Usable(u.topology)
  {
    match EffectOn(u, u.cache)
    case Keep => tables
    case Replace(table) => tables[u.cache := table]
    case Drop => tables - {u.cache}
  }

  // ---------- a topology update ----------

  function Accept(v: View, u: Update): View
    requires Usable(u.topology)
  {
    var addrs := Addresses(u.topology);
    View(u.topology.id, addrs, map a | a in v.conns && a in addrs :: v.conns[a], UpdateTables(v.tables, u))
  }

  function Handle(v: View, u: Update): View
    requires Usable(u.topology)
  {
    if u.topology.id == v.topoId then v else Accept(v, u)
  }

  ghost predicate AllUsable(us: seq<Update>) {
    forall i :: 0 <= i < |us| ==> Usable(us[i].topology)
  }

  function HandleAll(v: View, us: seq<Update>): View
    requires AllUsable(us)
    decreases |us|
  {
    if us == [] then v else HandleAll(Handle(v, us[0]), us[1..])
  }

  /** The updates that are not consecutive repeats of the same ID, `last` being the ID before them. */
  function Changes(last: int32, us: seq<Update>): (r: seq<Update>)
    ensures AllUsable(us) ==> AllUsable(r)
    decreases |us|
  {
    if us == [] then []
    else if us[0].topology.id == last then Changes(last, us[1..])
    else [us[0]] + Changes(us[0].topology.id, us[1..])
  }

  // ---------- what a history amounts to ----------

  function ServersAfter(v: View, us: seq<Update>): seq<Address> {
    if us == [] then v.servers else Addresses(us[|us| - 1].topology)
  }

  /** A connection is kept if every update on the way names its server. */
  ghost predicate NamedByAll(us: seq<Update>, a: Address) {
    forall i :: 0 <= i < |us| ==> a in Addresses(us[i].topology)
  }

  function TableOf(tables: map<CacheName, ConsistentHash>, cache: CacheName): Option<ConsistentHash> {
    if cache in tables then Some(tables[cache]) else None
  }

  /** The last update that says something about the cache decides. */
  function TableAfter(tables: map<CacheName, ConsistentHash>, us: seq<Update>, cache: CacheName): Option<ConsistentHash>
    requires AllUsable(us)
  {
    if us == [] then TableOf(tables, cache)
    else
      match EffectOn(us[|us| - 1], cache)
      case Keep => TableAfter(tables, us[..|us| - 1], cache)
      case Replace(table) => Some(table)
      case Drop => None
  }

  function AcceptAll(v: View, us: seq<Update>): View
    requires AllUsable(us)
  {
    if us == [] then v else Accept(AcceptAll(v, us[..|us| - 1]), us[|us| - 1])
  }

  lemma {:induction false} AcceptAllFromFirst(v: View, us: seq<Update>)
    requires AllUsable(us) && us != []
    ensures AcceptAll(v, us) == AcceptAll(Accept(v, us[0]), us[1..])
  {
    var n := |us| - 1;
    if n > 0 {
      AcceptAllFromFirst(v, us[..n]);
      assert us[..n][1..] == us[1..][..n - 1];
    } else {
      assert us[..0] == [] && us[1..] == [];
      assert AcceptAll(v, us[..0]) == v;
    }
  }

  /** Comparing with the last ID only is the same as dropping the repeats first. */
  lemma {:induction false} HandlingIsAFold(v: View, us: seq<Update>)
    requires AllUsable(us)
    ensures HandleAll(v, us) == AcceptAll(v, Changes(v.topoId, us))
    decreases |us|
  {
    if us != [] {
      HandlingIsAFold(Handle(v, us[0]), us[1..]);
      var rest := Changes(us[0].topology.id, us[1..]);
      if us[0].topology.id != v.topoId {
        var changes := [us[0]] + rest;
        assert Changes(v.topoId, us) == changes && changes[1..] == rest;
        AcceptAllFromFirst(v, changes);
      }
    }
  }

  /** The result in closed form: last server list, connections named throughout, last word on each table. */
  lemma {:induction false} FoldResult(v: View, us: seq<Update>, a: Address, cache: CacheName)
    requires AllUsable(us)
    ensures AcceptAll(v, us).servers == ServersAfter(v, us)
    ensures a in AcceptAll(v, us).conns <==> a in v.conns && NamedByAll(us, a)
    ensures a in AcceptAll(v, us).conns ==> AcceptAll(v, us).conns[a] == v.conns[a]
    ensures TableOf(AcceptAll(v, us).tables, cache) == TableAfter(v.tables, us, cache)
  {
    if us != [] {
      var n := |us| - 1;
      FoldResult(v, us[..n], a, cache);
      assert us == us[..n] + [us[n]];
      EffectIsLocal(AcceptAll(v, us[..n]).tables, us[n], cache);
    }
  }

  lemma EffectIsLocal(tables: map<CacheName, ConsistentHash>, u: Update, cache: CacheName)
    requires Usable(u.topology)
    ensures TableOf(UpdateTables(tables, u), cache) ==
            match EffectOn(u, cache)
            case Keep => TableOf(tables, cache)
            case Replace(table) => Some(table)
            case Drop => None
  {
  }

  /**
   * One accepted update gives its cache the table built from it, or takes the table away where it has segments but no
   * hash function, and leaves the tables of all other caches alone; without a cache it leaves all of them alone.
   */
  lemma TableAfterOne(v: View, u: Update, cache: CacheName)
    requires Usable(u.topology) && u.topology.id != v.topoId
    ensures var t, now := u.topology, TableOf(Handle(v, u).tables, cache);
            && (cache != u.cache || cache == [] ==> now == TableOf(v.tables, cache))
            && (cache == u.cache != [] ==>
                  && (t.hashVersion == 0 && t.numSegments > 0 ==> now.None?)
                  && (t.hashVersion == 0 && t.numSegments <= 0 ==> now == TableOf(v.tables, cache))
                  && (t.hashVersion != 0 && t.owners.None? ==> now == TableOf(v.tables, cache))
                  && (t.hashVersion != 0 && t.owners.Some? ==>
                        now.Some? && now.value.numSegments == t.numSegments &&
                        now.value.owners == Rows(Addresses(t), t.owners.value)))
  {
  }

  /** A history in terms of the pool's start: the first ID compared with is 0. */
  lemma HistoryDecides(v: View, us: seq<Update>, a: Address, cache: CacheName)
    requires AllUsable(us)
    ensures var r, changes := HandleAll(v, us), Changes(v.topoId, us);
            && r.servers == ServersAfter(v, changes)
            && (a in r.conns <==> a in v.conns && NamedByAll(changes, a))
            && (a in r.conns ==> r.conns[a] == v.conns[a])
            && TableOf(r.tables, cache) == TableAfter(v.tables, changes, cache)
  {
    HandlingIsAFold(v, us);
    FoldResult(v, Changes(v.topoId, us), a, cache);
  }

  // ---------- only changes of ID matter, not the IDs ----------

  function Renamed(f: int32 -> int32, u: Update): Update {
    u.(topology := u.topology.(id := f(u.topology.id)))
  }

  function RenamedAll(f: int32 -> int32, us: seq<Update>): (r: seq<Update>)
    ensures |r| == |us| && forall i :: 0 <= i < |us| ==> r[i] == Renamed(f, us[i])
  {
    seq(|us|, i requires 0 <= i < |us| => Renamed(f, us[i]))
  }

  ghost predicate Injective(f: int32 -> int32) {
    forall x, y :: f(x) == f(y) ==> x == y
  }

  lemma HandleRenamed(f: int32 -> int32, v: View, u: Update)
    requires Injective(f) && Usable(u.topology)
    ensures Handle(v.(topoId := f(v.topoId)), Renamed(f, u)) ==
            Handle(v, u).(topoId := f(Handle(v, u).topoId))
  {
    assert Addresses(Renamed(f, u).topology) == Addresses(u.topology);
  }

  /** Renaming the IDs of a history, the pool's own included, changes nothing else. */
  lemma {:induction false} RenamingIsInvisible(f: int32 -> int32, v: View, us: seq<Update>)
    requires Injective(f) && AllUsable(us)
    ensures AllUsable(RenamedAll(f, us))
    ensures HandleAll(v.(topoId := f(v.topoId)), RenamedAll(f, us)) ==
            HandleAll(v, us).(topoId := f(HandleAll(v, us).topoId))
    decreases |us|
  {
    if us != [] {
      HandleRenamed(f, v, us[0]);
      assert RenamedAll(f, us)[1..] == RenamedAll(f, us[1..]);
      RenamingIsInvisible(f, Handle(v, us[0]), us[1..]);
    }
  }

  const INITIAL_ID: int32 := 0

  /** From a new pool: any renaming that leaves 0 alone. */
  lemma FreshPoolRenaming(f: int32 -> int32, v: View, us: seq<Update>)
    requires Injective(f) && f(INITIAL_ID) == INITIAL_ID && v.topoId == INITIAL_ID && AllUsable(us)
    ensures AllUsable(RenamedAll(f, us))
    ensures var r, r' := HandleAll(v, us), HandleAll(v, RenamedAll(f, us));
            r'.servers == r.servers && r'.conns == r.conns && r'.tables == r.tables
  {
    RenamingIsInvisible(f, v, us);
    assert v.(topoId := INITIAL_ID) == v;
  }

  // ---------- where tables point ----------

  ghost predicate PointsInto(table: ConsistentHash, servers: seq<Address>) {
    forall i, j :: 0 <= i < |table.owners| && 0 <= j < |table.owners[i]| ==>
      table.owners[i][j] == NOWHERE || table.owners[i][j] in servers
  }

  /** A parsed update brings a row for each of its segments, and only with a hash function. */
  lemma ParsedRows(s: Bytes, intelligence: byte)
    requires ParseTopology(s, intelligence).Ok? && ParseTopology(s, intelligence).value.owners.Some?
    ensures var t := ParseTopology(s, intelligence).value; |t.owners.value| == t.numSegments && t.hashVersion > 0
  {
    var p1 := Wire.ParseVInt(s);
    var p2 := Wire.ParseVInt(p1.rest);
    var p3 := ParseServers(p2.rest, p2.value);
    var p4 := Wire.ParseU1(p3.rest);
    var p5 := Wire.ParseVInt(p4.rest);
    SegmentCount(p5.rest, p5.value);
  }

  lemma {:induction false} SegmentCount(s: Bytes, n: nat)
    requires ParseSegments(s, n).Ok?
    ensures |ParseSegments(s, n).value| == n
    decreases n
  {
    if n > 0 {
      var p1 := Wire.ParseU1(s);
      var p2 := ParseIndices(p1.rest, p1.value);
      SegmentCount(p2.rest, n - 1);
    }
  }

  function FirstOwner(addrs: seq<Address>, owners: seq<int32>): Address {
    if owners == [] || !(0 <= owners[0] < |addrs|) then NOWHERE else addrs[owners[0]]
  }

  /**
   * A table built from a parsed update has a row for every hash. It routes to the first owner of the hash's
   * segment, or nowhere if there is none or it is not in the server list.
   */
  lemma BuiltTableRoutes(u: Update, h: int32)
    requires Usable(u.topology) && EffectOn(u, u.cache).Replace?
    requires |u.topology.owners.value| == u.topology.numSegments
    ensures var t, table := u.topology, EffectOn(u, u.cache).table;
            var segment := Normalized(h) / SegmentSize(t.numSegments);
            && |table.owners| == t.numSegments
            && PointsInto(table, Addresses(t))
            && 0 <= segment < |t.owners.value|
            && OwnerOfHash(table, h) == Some(FirstOwner(Addresses(t), t.owners.value[segment]))
  {
    ClampNeverFires(u.topology.numSegments, Normalized(h));
  }

  /** The last update of a history that brought a table for the cache, if no later one dropped it. */
  function LastReplacing(us: seq<Update>, cache: CacheName): Option<Update>
    requires AllUsable(us)
  {
    if us == [] then None
    else
      match EffectOn(us[|us| - 1], cache)
      case Keep => LastReplacing(us[..|us| - 1], cache)
      case Replace(_) => Some(us[|us| - 1])
      case Drop => None
  }

  /** Without tables at the start, a cache's table is the one of its last replacing update. */
  lemma {:induction false} TableOfLastReplacing(us: seq<Update>, cache: CacheName)
    requires AllUsable(us)
    ensures match LastReplacing(us, cache)
            case None => TableAfter(map[], us, cache).None?
            case Some(u) =>
              && u in us && u.topology.owners.Some? && Usable(u.topology)
              && TableAfter(map[], us, cache) ==
                 Some(NewConsistentHash(u.topology.numSegments, Rows(Addresses(u.topology), u.topology.owners.value)))
  {
    if us != [] {
      TableOfLastReplacing(us[..|us| - 1], cache);
    }
  }

  /** Every owner index that is in range of its own server list names a server of the other list. */
  ghost predicate OwnersAmong(t: Topology, servers: seq<ServerAddress>)
    requires t.owners.Some?
  {
    forall i, j :: 0 <= i < |t.owners.value| && 0 <= j < |t.owners.value[i]| ==>
      0 <= t.owners.value[i][j] < |t.servers| ==> Names(servers, AddressOf(t.servers[t.owners.value[i][j]]))
  }

  ghost predicate Names(servers: seq<ServerAddress>, a: Address) {
    exists k :: 0 <= k < |servers| && AddressOf(servers[k]) == a
  }

  lemma RowsPointInto(t: Topology, last: Topology)
    requires t.owners.Some? && Usable(t)
    ensures PointsInto(NewConsistentHash(t.numSegments, Rows(Addresses(t), t.owners.value)), Addresses(last)) <==>
            OwnersAmong(t, last.servers)
  {
    var table := NewConsistentHash(t.numSegments, Rows(Addresses(t), t.owners.value));
    forall a
      ensures a in Addresses(last) <==> Names(last.servers, a)
    {
      assert forall k :: 0 <= k < |last.servers| ==> Addresses(last)[k] == AddressOf(last.servers[k]);
    }
    if PointsInto(table, Addresses(last)) {
      forall i, j | 0 <= i < |t.owners.value| && 0 <= j < |t.owners.value[i]| && 0 <= t.owners.value[i][j] < |t.servers|
        ensures Names(last.servers, AddressOf(t.servers[t.owners.value[i][j]]))
      {
        assert table.owners[i][j] == AddressOf(t.servers[t.owners.value[i][j]]);
      }
    }
    if OwnersAmong(t, last.servers) {
      forall i, j | 0 <= i < |table.owners| && 0 <= j < |table.owners[i]|
        ensures table.owners[i][j] == NOWHERE || table.owners[i][j] in Addresses(last)
      {
        assert 0 <= t.owners.value[i][j] < |t.servers| ==>
            table.owners[i][j] == AddressOf(t.servers[t.owners.value[i][j]]);
      }
    }
  }

  /**
   * In a pool that started without tables, a cache's table points at live servers exactly if every in-range owner
   * of its last replacing update names a server that the last accepted update lists.
   */
  lemma TableIsLiveIff(v: View, us: seq<Update>, cache: CacheName)
    requires AllUsable(us) && v.tables == map[] && cache in HandleAll(v, us).tables
    ensures var r, changes := HandleAll(v, us), Changes(v.topoId, us);
            && changes != [] && LastReplacing(changes, cache).Some?
            && var t := LastReplacing(changes, cache).value.topology;
            && t.owners.Some?
            && (PointsInto(r.tables[cache], r.servers) <==>
                OwnersAmong(t, changes[|changes| - 1].topology.servers))
  {
    var changes := Changes(v.topoId, us);
    HistoryDecides(v, us, NOWHERE, cache);
    TableOfLastReplacing(changes, cache);
    assert changes != [];
    RowsPointInto(LastReplacing(changes, cache).value.topology, changes[|changes| - 1].topology);
  }

  /** No update of a history is accepted exactly if each of them has the ID that the pool has already. */
  lemma {:induction false} IgnoredIff(v: View, us: seq<Update>)
    requires AllUsable(us)
    ensures Changes(v.topoId, us) == [] <==> forall i :: 0 <= i < |us| ==> us[i].topology.id == v.topoId
    ensures Changes(v.topoId, us) == [] ==> HandleAll(v, us) == v
    decreases |us|
  {
    if us != [] {
      assert us == [us[0]] + us[1..];
      if us[0].topology.id == v.topoId {
        IgnoredIff(v, us[1..]);
      }
    }
  }

  /** The last accepted update brings the pool's own ID, servers and tables back, and none drops a connection. */
  ghost predicate Restores(v: View, changes: seq<Update>)
    requires AllUsable(changes) && changes != []
  {
    var last := changes[|changes| - 1].topology;
    && last.id == v.topoId && Addresses(last) == v.servers
    && (forall a :: a in v.conns ==> NamedByAll(changes, a))
    && (forall cache :: TableAfter(v.tables, changes, cache) == TableOf(v.tables, cache))
  }

  lemma TopoIdAfter(v: View, us: seq<Update>)
    requires AllUsable(us) && us != []
    ensures AcceptAll(v, us).topoId == us[|us| - 1].topology.id
  {
  }

  lemma SameTables(x: map<CacheName, ConsistentHash>, y: map<CacheName, ConsistentHash>)
    requires forall cache :: TableOf(x, cache) == TableOf(y, cache)
    ensures x == y
  {
    forall cache
      ensures cache in x <==> cache in y
      ensures cache in x ==> x[cache] == y[cache]
    {
      assert TableOf(x, cache) == TableOf(y, cache);
    }
  }

  lemma Restored(v: View, changes: seq<Update>)
    requires AllUsable(changes) && changes != [] && Restores(v, changes)
    ensures AcceptAll(v, changes) == v
  {
    var r := AcceptAll(v, changes);
    TopoIdAfter(v, changes);
    FoldResult(v, changes, NOWHERE, []);
    forall a
      ensures a in r.conns <==> a in v.conns
      ensures a in r.conns ==> r.conns[a] == v.conns[a]
    {
      FoldResult(v, changes, a, []);
    }
    assert r.conns == v.conns;
    forall cache
      ensures TableOf(r.tables, cache) == TableOf(v.tables, cache)
    {
      FoldResult(v, changes, NOWHERE, cache);
    }
    SameTables(r.tables, v.tables);
  }

  lemma RestoresIfUnchanged(v: View, changes: seq<Update>)
    requires AllUsable(changes) && changes != [] && AcceptAll(v, changes) == v
    ensures Restores(v, changes)
  {
    TopoIdAfter(v, changes);
    FoldResult(v, changes, NOWHERE, []);
    forall a | a in v.conns
      ensures NamedByAll(changes, a)
    {
      FoldResult(v, changes, a, []);
    }
    forall cache
      ensures TableAfter(v.tables, changes, cache) == TableOf(v.tables, cache)
    {
      FoldResult(v, changes, NOWHERE, cache);
    }
  }

  /** A history leaves the pool as it was exactly if it has no accepted updates, or these restore it. */
  lemma UnchangedIff(v: View, us: seq<Update>)
    requires AllUsable(us)
    ensures HandleAll(v, us) == v <==> Changes(v.topoId, us) == [] || Restores(v, Changes(v.topoId, us))
  {
    var changes := Changes(v.topoId, us);
    HandlingIsAFold(v, us);
    if changes != [] && Restores(v, changes) {
      Restored(v, changes);
    } else if changes != [] && HandleAll(v, us) == v {
      RestoresIfUnchanged(v, changes);
    }
  }

  /** A single update is without effect exactly if it has the pool's ID. */
  lemma HandledIff(v: View, u: Update)
    requires Usable(u.topology)
    ensures Handle(v, u) == v <==> u.topology.id == v.topoId
  {
    assert Accept(v, u).topoId == u.topology.id;
  }

  /** So a new pool keeps its initial servers on its first update exactly if that has ID 0, whatever else it says. */
  lemma FirstUpdateIgnored(initialServers: seq<Address>, t: Topology, cache: CacheName)
    requires Usable(t)
    ensures var v := View(INITIAL_ID, initialServers, map[], map[]);
            HandleAll(v, [Update(t, cache)]) == v <==> t.id == 0
  {
    var v := View(INITIAL_ID, initialServers, map[], map[]);
    HandledIff(v, Update(t, cache));
    assert HandleAll(v, [Update(t, cache)]) == Handle(v, Update(t, cache)) by {
      var w := Handle(v, Update(t, cache));
      assert HandleAll(w, []) == w;
      assert [Update(t, cache)][1..] == [];
    }
  }

  /** Two accepted updates can leave the pool as it was: the second one takes the first one back. */
  lemma AcceptedAndRestored(a: ServerAddress, b: ServerAddress)
    ensures var v := View(0, [AddressOf(a)], map[], map[]);
            var us := [Update(Topology(1, [b], 0, 0, None), []), Update(Topology(0, [a], 0, 0, None), [])];
            AllUsable(us) && |Changes(v.topoId, us)| == 2 && HandleAll(v, us) == v
  {
    var v := View(0, [AddressOf(a)], map[], map[]);
    var us := [Update(Topology(1, [b], 0, 0, None), []), Update(Topology(0, [a], 0, 0, None), [])];
    assert us[1..] == [us[1]] && us[1..][1..] == [];
    assert Changes(1, us[1..]) == [us[1]] + Changes(0, []);
    assert Changes(0, us) == [us[0]] + Changes(1, us[1..]);
    var w := Handle(v, us[0]);
    assert Addresses(us[1].topology) == v.servers;
    assert Handle(w, us[1]) == v;
    assert HandleAll(v, []) == v && HandleAll(w, us[1..]) == v;
  }

  /** In general a table outlives its servers: an update for one cache leaves another cache's table as it was. */
  lemma TablesGoStale(a: ServerAddress, b: ServerAddress, h: int32)
    requires AddressOf(a) != AddressOf(b)
    ensures var first := Update(Topology(1, [a, b], 3, 1, Some([[0]])), [1]);
            var second := Update(Topology(2, [b], 3, 1, Some([[0]])), [2]);
            var table := NewConsistentHash(1, [[AddressOf(a)]]);
            && AllUsable([first, second])
            && var v := HandleAll(View(INITIAL_ID, [], map[], map[]), [first, second]);
               && v.servers == [AddressOf(b)]
               && [1] in v.tables && v.tables[[1]] == table
               && OwnerOfHash(table, h) == Some(AddressOf(a))
  {
    var first := Update(Topology(1, [a, b], 3, 1, Some([[0]])), [1]);
    var second := Update(Topology(2, [b], 3, 1, Some([[0]])), [2]);
    var v0 := View(INITIAL_ID, [], map[], map[]);
    var v1 := Handle(v0, first);
    var v2 := Handle(v1, second);
    assert [first, second][1..] == [second] && [second][1..] == [];
    assert HandleAll(v2, []) == v2;
    assert HandleAll(v1, [second]) == v2;
    assert Addresses(first.topology) == [AddressOf(a), AddressOf(b)];
    assert Addresses(second.topology) == [AddressOf(b)];
    assert Row([AddressOf(a), AddressOf(b)], [0]) == [AddressOf(a)];
    assert Rows([AddressOf(a), AddressOf(b)], [[0]]) == [[AddressOf(a)]];
    ClampNeverFires(1, Normalized(h));
  }
}
