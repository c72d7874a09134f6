/**
 * Response headers with their topology updates (internal/codec/header.go), and the printer the protocol's
 * documented layout prescribes (documentation/hotrod-client-implementation-guide.adoc).
 */
module Headers {
  import opened Wrappers
  import opened Words
  import opened Varint
  import opened Wire
  import opened Streams

  const RESPONSE_MAGIC: byte := 0xA1
  const HASH_DIST_AWARE: byte := 0x03

  datatype ServerAddress = ServerAddress(host: Bytes, port: uint16)

  datatype Topology = Topology(id: int32, servers: seq<ServerAddress>, hashVersion: byte, numSegments: int32,
                               owners: Option<seq<seq<int32>>>)

  datatype Header = Header(messageId: int64, opCode: byte, status: byte, topology: Option<Topology>)

  // ---------- the documented layout ----------

  function PrintServer(a: ServerAddress): Bytes {
    PrintLP(a.host) + PrintFixed(a.port, 2)
  }

  function PrintServers(servers: seq<ServerAddress>): Bytes {
    if servers == [] then []
    else PrintServer(servers[0]) + PrintServers(servers[1..])
  }

  function PrintIndices(owners: seq<int32>): Bytes {
    if owners == [] then [] else PrintVInt(owners[0]) + PrintIndices(owners[1..])
  }

  function PrintSegments(segments: seq<seq<int32>>): Bytes {
    if segments == [] then [] else [|segments[0]| % 0x100] + (PrintIndices(segments[0]) + PrintSegments(segments[1..]))
  }

  /** What a server may send to a client of this intelligence. */
  ghost predicate WellFormed(t: Topology, intelligence: byte) {
    && |t.servers| < TWO_31
    && (forall i :: 0 <= i < |t.servers| ==> Fits(t.servers[i].host))
    && (if intelligence != HASH_DIST_AWARE then t.hashVersion == 0 && t.numSegments == 0 && t.owners.None?
        else if t.hashVersion == 0 then t.owners.None?
        else
          && t.owners.Some? && |t.owners.value| == t.numSegments
          && forall i :: 0 <= i < |t.owners.value| ==> |t.owners.value[i]| < 0x100)
  }

  function PrintHash(t: Topology, intelligence: byte): Bytes {
    if intelligence != HASH_DIST_AWARE then []
    else [t.hashVersion] + (PrintVInt(t.numSegments) + if t.owners.Some? then PrintSegments(t.owners.value) else [])
  }

  function PrintTopology(t: Topology, intelligence: byte): Bytes {
    PrintVInt(t.id) + (PrintCount(|t.servers|) + (PrintServers(t.servers) + PrintHash(t, intelligence)))
  }

  function PrintHeader(h: Header, intelligence: byte): Bytes {
    [RESPONSE_MAGIC] + (Print(ToUint64(h.messageId)) + ([h.opCode] + ([h.status] +
    if h.topology.None? then [0] else [1] + PrintTopology(h.topology.value, intelligence))))
  }

  // ---------- what the client reads ----------

  function ParseServer(s: Bytes): Parsed<ServerAddress> {
    var (host, s1) :- ParseLP(s);
    var (port, s2) :- ParseFixed(s1, 2);
    Ok(ServerAddress(host, port % 0x1_0000), s2)
  }

  function ParseServers(s: Bytes, n: nat): Parsed<seq<ServerAddress>>
    decreases n
  {
    if n == 0 then Ok([], s)
    else
      var (server, s1) :- ParseServer(s);
      Prepend([server], ParseServers(s1, n - 1))
  }

  function ParseIndices(s: Bytes, n: nat): Parsed<seq<int32>>
    decreases n
  {
    if n == 0 then Ok([], s)
    else
      var (v, s1) :- ParseVInt(s);
      Prepend([v], ParseIndices(s1, n - 1))
  }

  function ParseSegments(s: Bytes, n: nat): Parsed<seq<seq<int32>>>
    decreases n
  {
    if n == 0 then Ok([], s)
    else
      var (k, s1) :- ParseU1(s);
      var (owners, s2) :- ParseIndices(s1, k);
      Prepend([owners], ParseSegments(s2, n - 1))
  }

  /** The hash part, for a client that asked for it. */
  function ParseHash(s: Bytes, id: int32, servers: seq<ServerAddress>): Parsed<Topology> {
    var (version, s1) :- ParseU1(s);
    var (n, s2) :- ParseVInt(s1);
    if version == 0 then Ok(Topology(id, servers, 0, n, None), s2)
    else if n < 0 then Fail(NegativeLength, s2)
    else
      var (segments, rest) :- ParseSegments(s2, n);
      Ok(Topology(id, servers, version, n, Some(segments)), rest)
  }

  function ParseTopology(s: Bytes, intelligence: byte): Parsed<Topology> {
    var (id, s1) :- ParseVInt(s);
    var (n, s2) :- ParseVInt(s1);
    if n < 0 then Fail(NegativeLength, s2)
    else
      var (servers, s3) :- ParseServers(s2, n);
      if intelligence == HASH_DIST_AWARE then ParseHash(s3, id, servers)
      else Ok(Topology(id, servers, 0, 0, None), s3)
  }

  function ParseHeader(s: Bytes, intelligence: byte): Parsed<Header> {
    var (magic, s1) :- ParseU1(s);
    if magic != RESPONSE_MAGIC then Fail(BadMagic, s1)
    else
      var (id, s2) :- ParseVLong(s1);
      var (opCode, s3) :- ParseU1(s2);
      var (status, s4) :- ParseU1(s3);
      var (marker, s5) :- ParseU1(s4);
      if marker == 0 then Ok(Header(id, opCode, status, None), s5)
      else
        var (t, rest) :- ParseTopology(s5, intelligence);
        Ok(Header(id, opCode, status, Some(t)), rest)
  }

  // ---------- reading what was printed ----------

  lemma ServerRoundTrip(a: ServerAddress, tail: Bytes)
    requires Fits(a.host)
    ensures ParseServer(PrintServer(a) + tail) == Ok(a, tail)
  {
    var s1 := PrintFixed(a.port, 2) + tail;
    assert PrintServer(a) + tail == PrintLP(a.host) + s1;
    LPRoundTrip(a.host, s1);
    Widths();
    FixedRoundTrip(a.port, 2, tail);
  }

  lemma {:induction false} ServersRoundTrip(servers: seq<ServerAddress>, tail: Bytes)
    requires forall i :: 0 <= i < |servers| ==> Fits(servers[i].host)
    ensures ParseServers(PrintServers(servers) + tail, |servers|) == Ok(servers, tail)
  {
    if servers == [] {
      assert PrintServers(servers) + tail == tail;
    } else {
      var s1 := PrintServers(servers[1..]) + tail;
      Join(PrintServer(servers[0]), PrintServers(servers[1..]), tail);
      ServerRoundTrip(servers[0], s1);
      ServersRoundTrip(servers[1..], tail);
      assert [servers[0]] + servers[1..] == servers;
    }
  }

  lemma {:induction false} IndicesRoundTrip(owners: seq<int32>, tail: Bytes)
    ensures ParseIndices(PrintIndices(owners) + tail, |owners|) == Ok(owners, tail)
  {
    if owners == [] {
      assert PrintIndices(owners) + tail == tail;
    } else {
      var s1 := PrintIndices(owners[1..]) + tail;
      Join(PrintVInt(owners[0]), PrintIndices(owners[1..]), tail);
      VIntRoundTrip(owners[0], s1);
      IndicesRoundTrip(owners[1..], tail);
      assert [owners[0]] + owners[1..] == owners;
    }
  }

  lemma {:induction false} SegmentsRoundTrip(segments: seq<seq<int32>>, tail: Bytes)
    requires forall i :: 0 <= i < |segments| ==> |segments[i]| < 0x100
    ensures ParseSegments(PrintSegments(segments) + tail, |segments|) == Ok(segments, tail)
  {
    if segments == [] {
      assert PrintSegments(segments) + tail == tail;
    } else {
      var k, more := |segments[0]|, PrintSegments(segments[1..]);
      Join([k], PrintIndices(segments[0]) + more, tail);
      Join(PrintIndices(segments[0]), more, tail);
      U1RoundTrip(k, PrintIndices(segments[0]) + (more + tail));
      IndicesRoundTrip(segments[0], more + tail);
      SegmentsRoundTrip(segments[1..], tail);
      SegmentsStep(PrintSegments(segments) + tail, |segments|, k, PrintIndices(segments[0]) + (more + tail),
                   segments[0], more + tail, segments[1..], tail);
      assert [segments[0]] + segments[1..] == segments;
    }
  }

  lemma SegmentsStep(s: Bytes, n: nat, k: byte, s1: Bytes, owners: seq<int32>, s2: Bytes,
                     more: seq<seq<int32>>, rest: Bytes)
    requires n > 0 && ParseU1(s) == Ok(k, s1) && ParseIndices(s1, k) == Ok(owners, s2)
    requires ParseSegments(s2, n - 1) == Ok(more, rest)
    ensures ParseSegments(s, n) == Ok([owners] + more, rest)
  {
  }

  lemma HashRoundTrip(t: Topology, tail: Bytes)
    requires WellFormed(t, HASH_DIST_AWARE)
    ensures ParseHash(PrintHash(t, HASH_DIST_AWARE) + tail, t.id, t.servers) == Ok(t, tail)
  {
    var segments := if t.owners.Some? then PrintSegments(t.owners.value) else [];
    var s2 := segments + tail;
    var s1 := PrintVInt(t.numSegments) + s2;
    Join([t.hashVersion], PrintVInt(t.numSegments) + segments, tail);
    Join(PrintVInt(t.numSegments), segments, tail);
    U1RoundTrip(t.hashVersion, s1);
    VIntRoundTrip(t.numSegments, s2);
    if t.hashVersion == 0 {
      assert s2 == tail;
    } else {
      SegmentsRoundTrip(t.owners.value, tail);
    }
  }

  lemma TopologyRoundTrip(t: Topology, intelligence: byte, tail: Bytes)
    requires WellFormed(t, intelligence)
    ensures ParseTopology(PrintTopology(t, intelligence) + tail, intelligence) == Ok(t, tail)
  {
    var hash := PrintHash(t, intelligence);
    var s3 := hash + tail;
    var s2 := PrintServers(t.servers) + s3;
    var s1 := PrintCount(|t.servers|) + s2;
    Join(PrintVInt(t.id), PrintCount(|t.servers|) + (PrintServers(t.servers) + hash), tail);
    Join(PrintCount(|t.servers|), PrintServers(t.servers) + hash, tail);
    Join(PrintServers(t.servers), hash, tail);
    VIntRoundTrip(t.id, s1);
    CountRoundTrip(|t.servers|, s2);
    ServersRoundTrip(t.servers, s3);
    TopologyStep(PrintTopology(t, intelligence) + tail, intelligence, t, s1, s2, s3);
    if intelligence == HASH_DIST_AWARE {
      HashRoundTrip(t, tail);
    } else {
      assert s3 == tail;
    }
  }

  lemma TopologyStep(s: Bytes, intelligence: byte, t: Topology, s1: Bytes, s2: Bytes, s3: Bytes)
    requires ParseVInt(s) == Ok(t.id, s1) && ParseVInt(s1) == Ok(|t.servers|, s2)
    requires ParseServers(s2, |t.servers|) == Ok(t.servers, s3)
    ensures ParseTopology(s, intelligence) ==
            if intelligence == HASH_DIST_AWARE then ParseHash(s3, t.id, t.servers)
            else Ok(Topology(t.id, t.servers, 0, 0, None), s3)
  {
  }

  ghost predicate Printable(h: Header, intelligence: byte) {
    h.messageId >= 0 && (h.topology.Some? ==> WellFormed(h.topology.value, intelligence))
  }

  lemma PrintHeaderParts(h: Header, intelligence: byte, tail: Bytes)
    requires Printable(h, intelligence)
    ensures PrintHeader(h, intelligence) + tail ==
            [RESPONSE_MAGIC] + (Print(ToUint64(h.messageId)) + ([h.opCode] + ([h.status] +
            if h.topology.None? then [0] + tail else [1] + (PrintTopology(h.topology.value, intelligence) + tail))))
  {
  }

  /** Reading a printed header, at every intelligence level, gives it back and leaves what follows untouched. */
  lemma HeaderRoundTrip(h: Header, intelligence: byte, tail: Bytes)
    requires Printable(h, intelligence)
    ensures ParseHeader(PrintHeader(h, intelligence) + tail, intelligence) == Ok(h, tail)
  {
    var marker: byte := if h.topology.None? then 0 else 1;
    var s5 := if h.topology.None? then tail else PrintTopology(h.topology.value, intelligence) + tail;
    var s4 := [marker] + s5;
    var s3 := [h.status] + s4;
    var s2 := [h.opCode] + s3;
    var s1 := Print(h.messageId) + s2;
    PrintHeaderParts(h, intelligence, tail);
    U1RoundTrip(RESPONSE_MAGIC, s1);
    VLongRoundTrip(h.messageId, s2);
    U1RoundTrip(h.opCode, s3);
    U1RoundTrip(h.status, s4);
    U1RoundTrip(marker, s5);
    if h.topology.Some? {
      TopologyRoundTrip(h.topology.value, intelligence, tail);
    }
  }

  // ---------- the reading methods ----------

  method ReadServer(r: Reader) returns (o: Outcome<ServerAddress>)
    modifies r
    ensures Seen(o, r.rest) == ParseServer(old(r.rest))
  {
    var host :- r.ReadLPBytes();
    var port :- r.ReadU2();
    o := Got(ServerAddress(host, port));
  }

  method ReadServers(r: Reader, n: nat) returns (o: Outcome<seq<ServerAddress>>)
    modifies r
    ensures Seen(o, r.rest) == ParseServers(old(r.rest), n)
  {
    var servers := [];
    PrependToNone(ParseServers(r.rest, n));
    for i := 0 to n
      invariant ParseServers(old(r.rest), n) == Prepend(servers, ParseServers(r.rest, n - i))
    {
      ghost var before := servers;
      var server :- ReadServer(r);
      servers := servers + [server];
      PrependTwice(before, [server], ParseServers(r.rest, n - i - 1));
    }
    PrependNothing(servers, r.rest);
    o := Got(servers);
  }

  method ReadSegments(r: Reader, n: nat) returns (o: Outcome<seq<seq<int32>>>)
    modifies r
    ensures Seen(o, r.rest) == ParseSegments(old(r.rest), n)
  {
    var segments := [];
    PrependToNone(ParseSegments(r.rest, n));
    for i := 0 to n
      invariant ParseSegments(old(r.rest), n) == Prepend(segments, ParseSegments(r.rest, n - i))
    {
      ghost var before := segments;
      var k :- r.ReadU1();
      ghost var s1 := r.rest;
      var owners := [];
      PrependToNone(ParseIndices(s1, k));
      for j := 0 to k
        invariant ParseIndices(s1, k) == Prepend(owners, ParseIndices(r.rest, k - j))
      {
        ghost var had := owners;
        var index :- r.ReadVInt();
        owners := owners + [index];
        PrependTwice(had, [index], ParseIndices(r.rest, k - j - 1));
      }
      PrependNothing(owners, r.rest);
      segments := segments + [owners];
      PrependTwice(before, [owners], ParseSegments(r.rest, n - i - 1));
    }
    PrependNothing(segments, r.rest);
    o := Got(segments);
  }

  method ReadTopologyUpdate(r: Reader, intelligence: byte) returns (o: Outcome<Topology>)
    modifies r
    ensures Seen(o, r.rest) == ParseTopology(old(r.rest), intelligence)
  {
    var id :- r.ReadVInt();
    var n :- r.ReadVInt();
    if n < 0 {
      return Err(NegativeLength);
    }
    var servers :- ReadServers(r, n);
    if intelligence != HASH_DIST_AWARE {
      return Got(Topology(id, servers, 0, 0, None));
    }
    var version :- r.ReadU1();
    var numSegments :- r.ReadVInt();
    if version == 0 {
      return Got(Topology(id, servers, 0, numSegments, None));
    }
    if numSegments < 0 {
      return Err(NegativeLength);
    }
    var segments :- ReadSegments(r, numSegments);
    o := Got(Topology(id, servers, version, numSegments, Some(segments)));
  }

  method ReadResponseHeader(r: Reader, intelligence: byte) returns (o: Outcome<Header>)
    modifies r
    ensures Seen(o, r.rest) == ParseHeader(old(r.rest), intelligence)
  {
    var magic :- r.ReadU1();
    if magic != RESPONSE_MAGIC {
      return Err(BadMagic);
    }
    var id :- r.ReadVLong();
    var opCode :- r.ReadU1();
    var status :- r.ReadU1();
    var marker :- r.ReadU1();
    if marker == 0 {
      return Got(Header(id, opCode, status, None));
    }
    var topology :- ReadTopologyUpdate(r, intelligence);
    o := Got(Header(id, opCode, status, Some(topology)));
  }
}
