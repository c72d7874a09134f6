/**
 * The connection pool (internal/connection/pool.go): who owns each connection, whatever dials, failures,
 * topology updates and closes come in which order. Each lock section is one step.
 */
module Pools {
  import opened Wrappers
  import opened Words
  import Headers
  import opened Segments
  import opened Topologies

  // ---------- who owns which connection ----------

  datatype Place = Setup | Serving(addr: Address) | Draining | Closed

  /** Every connection ever dialled has a number below `next`; `dialled` is the server it was dialled to. */
  datatype Pool = Pool(view: View, setup: set<ConnId>, draining: set<ConnId>, closed: set<ConnId>, next: ConnId,
                       dialled: map<ConnId, Address>)

  datatype Action =
    | Dial(addr: Address)
    | SetupFails(conn: ConnId)
    | Install(conn: ConnId)
    | Receive(update: Update)
    | ClosePool

  ghost predicate At(p: Pool, c: ConnId, place: Place) {
    match place
    case Setup => c in p.setup
    case Serving(a) => a in p.view.conns && p.view.conns[a] == c
    case Draining => c in p.draining
    case Closed => c in p.closed
  }

  /** In one place exactly, and serving only the server it was dialled to. */
  ghost predicate Placed(p: Pool, c: ConnId) {
    && c in p.dialled
    && (exists place :: At(p, c, place))
    && (forall x, y :: At(p, c, x) && At(p, c, y) ==> x == y)
    && (forall a :: At(p, c, Serving(a)) ==> a == p.dialled[c])
  }

  ghost predicate Inv(p: Pool) {
    && (forall c: ConnId :: c < p.next ==> Placed(p, c))
    && (forall c: ConnId, place :: At(p, c, place) ==> c < p.next)
    && (forall c: ConnId :: c in p.dialled ==> c < p.next)
  }

  ghost predicate Enabled(p: Pool, a: Action) {
    match a
    case Dial(_) => true
    case SetupFails(c) => c in p.setup
    case Install(c) => c in p.setup && c in p.dialled
    case Receive(u) => Usable(u.topology)
    case ClosePool => true
  }

  /** The connections that a topology change or a close takes out of the pool. */
  function Leaving(before: map<Address, ConnId>, after: map<Address, ConnId>): set<ConnId> {
    set a | a in before && a !in after :: before[a]
  }

  function Next(p: Pool, a: Action): Pool
    requires Enabled(p, a)
  {
    match a
    case Dial(addr) => p.(setup := p.setup + {p.next}, next := p.next + 1, dialled := p.dialled[p.next := addr])
    case SetupFails(c) => p.(setup := p.setup - {c}, closed := p.closed + {c})
    case Install(c) =>
      var addr := p.dialled[c];
      if addr in p.view.conns then p.(setup := p.setup - {c}, closed := p.closed + {c})
      else p.(setup := p.setup - {c}, view := p.view.(conns := p.view.conns[addr := c]))
    case Receive(u) =>
      var v := Handle(p.view, u);
      p.(view := v, draining := p.draining + Leaving(p.view.conns, v.conns))
    case ClosePool => p.(view := p.view.(conns := map[]), closed := p.closed + Leaving(p.view.conns, map[]))
  }

  function Fresh(servers: seq<Address>): Pool {
    Pool(View(INITIAL_ID, servers, map[], map[]), {}, {}, {}, 0, map[])
  }

  ghost predicate Possible(servers: seq<Address>, actions: seq<Action>)
    decreases |actions|, 0
  {
    actions == [] ||
    (Possible(servers, actions[..|actions| - 1]) &&
     Enabled(After(servers, actions[..|actions| - 1]), actions[|actions| - 1]))
  }

  ghost function After(servers: seq<Address>, actions: seq<Action>): Pool
    requires Possible(servers, actions)
    decreases |actions|, 1
  {
    if actions == [] then Fresh(servers) else Next(After(servers, actions[..|actions| - 1]), actions[|actions| - 1])
  }

  /** Where a step takes a connection from the place it is in. */
  function Moved(p: Pool, a: Action, c: ConnId, was: Place): Place
    requires Enabled(p, a)
  {
    match a
    case Dial(_) => was
    case SetupFails(d) => if c == d then Closed else was
    case Install(d) =>
      if c != d then was else if p.dialled[d] in p.view.conns then Closed else Serving(p.dialled[d])
    case Receive(u) => if was.Serving? && was.addr !in Next(p, a).view.conns then Draining else was
    case ClosePool => if was.Serving? then Closed else was
  }

  lemma OnePlace(p: Pool, c: ConnId, x: Place, y: Place)
    requires Placed(p, c) && At(p, c, x) && At(p, c, y)
    ensures x == y
  {
  }

  lemma LeavingFrom(before: map<Address, ConnId>, after: map<Address, ConnId>, c: ConnId) returns (a: Address)
    ensures c in Leaving(before, after) ==> a in before && a !in after && before[a] == c
  {
    a := NOWHERE;
    if c in Leaving(before, after) {
      a :| a in before && a !in after && before[a] == c;
    }
  }

  lemma MovesThere(p: Pool, a: Action, c: ConnId, was: Place)
    requires Enabled(p, a) && Placed(p, c) && At(p, c, was)
    ensures At(Next(p, a), c, Moved(p, a, c, was))
  {
    match a {
      case Dial(_) =>
      case SetupFails(d) =>
        if c == d {
          OnePlace(p, c, was, Setup);
        }
      case Install(d) =>
        if c == d {
          OnePlace(p, c, was, Setup);
        }
      case Receive(u) =>
      case ClosePool =>
    }
  }

  lemma MovesOnlyThere(p: Pool, a: Action, c: ConnId, was: Place, now: Place)
    requires Enabled(p, a) && Placed(p, c) && c < p.next && At(p, c, was) && At(Next(p, a), c, now)
    ensures now == Moved(p, a, c, was)
  {
    if At(p, c, now) {
      OnePlace(p, c, was, now);
    }
    match a {
      case Dial(_) =>
      case SetupFails(d) => if c == d { OnePlace(p, c, was, Setup); }
      case Install(d) => if c == d { OnePlace(p, c, was, Setup); }
      case Receive(u) =>
        var from := LeavingFrom(p.view.conns, Next(p, a).view.conns, c);
        if c in Leaving(p.view.conns, Next(p, a).view.conns) {
          OnePlace(p, c, was, Serving(from));
        }
      case ClosePool =>
        var from := LeavingFrom(p.view.conns, map[], c);
        if c in Leaving(p.view.conns, map[]) {
          OnePlace(p, c, was, Serving(from));
        }
    }
  }

  lemma StepKeepsPlaced(p: Pool, a: Action, c: ConnId)
    requires Inv(p) && Enabled(p, a) && c < Next(p, a).next
    ensures Placed(Next(p, a), c)
  {
    var q := Next(p, a);
    if c < p.next {
      assert Placed(p, c);
      var was :| At(p, c, was);
      var now := Moved(p, a, c, was);
      MovesThere(p, a, c, was);
      forall place | At(q, c, place)
        ensures place == now
      {
        MovesOnlyThere(p, a, c, was, place);
      }
      MoveIsHome(p, a, c, was);
    } else {
      assert At(q, c, Setup);
      assert forall place :: At(q, c, place) && place != Setup ==> At(p, c, place);
    }
  }

  lemma MoveIsHome(p: Pool, a: Action, c: ConnId, was: Place)
    requires Enabled(p, a) && Placed(p, c) && c < p.next && At(p, c, was)
    ensures c in Next(p, a).dialled && Next(p, a).dialled[c] == p.dialled[c]
    ensures Moved(p, a, c, was).Serving? ==> Moved(p, a, c, was).addr == p.dialled[c]
  {
  }

  lemma StepKeepsInv(p: Pool, a: Action)
    requires Inv(p) && Enabled(p, a)
    ensures Inv(Next(p, a))
  {
    var q := Next(p, a);
    forall c: ConnId | c < q.next
      ensures Placed(q, c)
    {
      StepKeepsPlaced(p, a, c);
    }
    forall c: ConnId, place | At(q, c, place)
      ensures c < q.next
    {
      StepBelongs(p, a, c, place);
    }
  }

  lemma StepBelongs(p: Pool, a: Action, c: ConnId, place: Place)
    requires Inv(p) && Enabled(p, a) && At(Next(p, a), c, place)
    ensures c < Next(p, a).next
  {
    if At(p, c, place) {
    } else if a.Receive? || a.ClosePool? {
      var from := LeavingFrom(p.view.conns, Next(p, a).view.conns, c);
      assert At(p, c, Serving(from));
    } else if !a.Dial? {
      assert At(p, c, Setup);
    }
  }

  /** Whatever happens, every dialled connection is in one place only, and at most one serves each server. */
  lemma {:induction false} EveryConnectionHasOnePlace(servers: seq<Address>, actions: seq<Action>, c: ConnId)
    requires Possible(servers, actions) && c < After(servers, actions).next
    ensures Placed(After(servers, actions), c)
  {
    RunKeepsInv(servers, actions);
  }

  lemma {:induction false} RunKeepsInv(servers: seq<Address>, actions: seq<Action>)
    requires Possible(servers, actions)
    ensures Inv(After(servers, actions))
  {
    if actions != [] {
      var n := |actions| - 1;
      RunKeepsInv(servers, actions[..n]);
      StepKeepsInv(After(servers, actions[..n]), actions[n]);
    }
  }

  // ---------- why a connection is closed or draining ----------

  /** The step closes it: its setup fails, its server has a connection already, or the pool closes while it serves. */
  ghost predicate Closes(p: Pool, a: Action, c: ConnId) {
    match a
    case SetupFails(d) => d == c
    case Install(d) => d == c && d in p.dialled && p.dialled[d] in p.view.conns
    case ClosePool => exists addr :: At(p, c, Serving(addr))
    case _ => false
  }

  /** The step drains it: an update with another ID than the last one does not name the server that it serves. */
  ghost predicate Drains(p: Pool, a: Action, c: ConnId) {
    a.Receive? && a.update.topology.id != p.view.topoId &&
    exists addr :: At(p, c, Serving(addr)) && addr !in Addresses(a.update.topology)
  }

  lemma StepEnds(p: Pool, a: Action, c: ConnId)
    requires Enabled(p, a)
    ensures c in Next(p, a).closed <==> c in p.closed || Closes(p, a, c)
    ensures c in Next(p, a).draining <==> c in p.draining || Drains(p, a, c)
  {
    if a.Receive? || a.ClosePool? {
      var now := Next(p, a).view.conns;
      var from := LeavingFrom(p.view.conns, now, c);
      assert c in Leaving(p.view.conns, now) ==> At(p, c, Serving(from));
      forall addr | At(p, c, Serving(addr)) && addr !in now
        ensures c in Leaving(p.view.conns, now)
      {
      }
    }
  }

  ghost predicate ClosedAt(servers: seq<Address>, actions: seq<Action>, i: nat, c: ConnId) {
    i < |actions| && Possible(servers, actions[..i]) && Closes(After(servers, actions[..i]), actions[i], c)
  }

  ghost predicate DrainedAt(servers: seq<Address>, actions: seq<Action>, i: nat, c: ConnId) {
    i < |actions| && Possible(servers, actions[..i]) && Drains(After(servers, actions[..i]), actions[i], c)
  }

  /** In every run a connection is closed, or draining, exactly if some step closed it, or drained it. */
  lemma {:induction false} EndedIff(servers: seq<Address>, actions: seq<Action>, c: ConnId)
    requires Possible(servers, actions)
    ensures c in After(servers, actions).closed <==> exists i :: ClosedAt(servers, actions, i, c)
    ensures c in After(servers, actions).draining <==> exists i :: DrainedAt(servers, actions, i, c)
  {
    if actions != [] {
      var n := |actions| - 1;
      EndedIff(servers, actions[..n], c);
      StepEnds(After(servers, actions[..n]), actions[n], c);
      forall i: nat | i < n
        ensures ClosedAt(servers, actions, i, c) <==> ClosedAt(servers, actions[..n], i, c)
        ensures DrainedAt(servers, actions, i, c) <==> DrainedAt(servers, actions[..n], i, c)
      {
        assert actions[..n][..i] == actions[..i];
      }
      assert ClosedAt(servers, actions, n, c) <==> Closes(After(servers, actions[..n]), actions[n], c);
      assert DrainedAt(servers, actions, n, c) <==> Drains(After(servers, actions[..n]), actions[n], c);
    }
  }

  // ---------- what closing the pool reaches ----------

  predicate Gone(p: Pool, c: ConnId) {
    c in p.draining || c in p.closed
  }

  lemma CloseLeaves(p: Pool, c: ConnId)
    requires Placed(p, c) && c < p.next
    ensures Gone(Next(p, ClosePool), c) <==> c !in p.setup
    ensures c in p.setup ==> c in Next(p, ClosePool).setup
  {
    var was :| At(p, c, was);
    MovesThere(p, ClosePool, c, was);
    if c in p.setup {
      OnePlace(p, c, was, Setup);
      if Gone(Next(p, ClosePool), c) {
        MovesOnlyThere(p, ClosePool, c, Setup, if c in Next(p, ClosePool).draining then Draining else Closed);
      }
    } else {
      assert was != Setup;
    }
  }

  /** Close reaches every connection exactly if none is being set up. */
  lemma CloseReachesAllIff(servers: seq<Address>, actions: seq<Action>)
    requires Possible(servers, actions)
    ensures var p := After(servers, actions);
            (forall c: ConnId :: c < p.next ==> Gone(Next(p, ClosePool), c)) <==> p.setup == {}
  {
    var p := After(servers, actions);
    RunKeepsInv(servers, actions);
    forall c: ConnId | c < p.next
      ensures Gone(Next(p, ClosePool), c) <==> c !in p.setup
    {
      assert Placed(p, c);
      CloseLeaves(p, c);
    }
    forall c | c in p.setup
      ensures c < p.next
    {
      assert At(p, c, Setup);
    }
  }

  lemma StepKeepsGone(p: Pool, a: Action, c: ConnId)
    requires Enabled(p, a) && Gone(p, c)
    ensures Gone(Next(p, a), c)
  {
  }

  /** A connection that is draining or closed never serves again. */
  lemma {:induction false} GoneForEver(servers: seq<Address>, actions: seq<Action>, n: nat, c: ConnId)
    requires Possible(servers, actions) && n <= |actions| && Possible(servers, actions[..n])
    requires Gone(After(servers, actions[..n]), c)
    ensures Gone(After(servers, actions), c)
    ensures forall a :: !At(After(servers, actions), c, Serving(a))
  {
    if n == |actions| {
      assert actions[..n] == actions;
    } else {
      var m := |actions| - 1;
      assert actions[..m][..n] == actions[..n];
      GoneForEver(servers, actions[..m], n, c);
      StepKeepsGone(After(servers, actions[..m]), actions[m], c);
    }
    var p := After(servers, actions);
    RunKeepsInv(servers, actions);
    var gone := if c in p.draining then Draining else Closed;
    assert At(p, c, gone);
    forall a
      ensures !At(p, c, Serving(a))
    {
      if At(p, c, Serving(a)) {
        OnePlace(p, c, Serving(a), gone);
      }
    }
  }

  /** Some run that goes on after the actions has the connection serve. */
  ghost predicate CanServeAfter(servers: seq<Address>, actions: seq<Action>, c: ConnId) {
    exists later: seq<Action>, a ::
      Possible(servers, actions + later) && At(After(servers, actions + later), c, Serving(a))
  }

  lemma OneMoreAction(servers: seq<Address>, actions: seq<Action>, a: Action)
    requires Possible(servers, actions) && Enabled(After(servers, actions), a)
    ensures Possible(servers, actions + [a])
    ensures After(servers, actions + [a]) == Next(After(servers, actions), a)
  {
    assert (actions + [a])[..|actions|] == actions;
  }

  /** A connection dialled before the pool was closed can serve afterwards exactly if it was being set up then. */
  lemma ServesAfterCloseIff(servers: seq<Address>, actions: seq<Action>, c: ConnId)
    requires Possible(servers, actions) && c < After(servers, actions).next
    ensures CanServeAfter(servers, actions + [ClosePool], c) <==> c in After(servers, actions).setup
  {
    var p, closed := After(servers, actions), actions + [ClosePool];
    RunKeepsInv(servers, actions);
    assert Placed(p, c);
    OneMoreAction(servers, actions, ClosePool);
    CloseLeaves(p, c);
    var q := Next(p, ClosePool);
    if c in p.setup {
      OneMoreAction(servers, closed, Install(c));
      assert At(Next(q, Install(c)), c, Serving(p.dialled[c]));
    } else if CanServeAfter(servers, closed, c) {
      var later: seq<Action>, a :|
        Possible(servers, closed + later) && At(After(servers, closed + later), c, Serving(a));
      assert (closed + later)[..|closed|] == closed;
      GoneForEver(servers, closed + later, |closed|, c);
    }
  }

  // ---------- connections to servers that the last accepted update does not list ----------

  ghost predicate Accepts(p: Pool, a: Action) {
    a.Receive? && a.update.topology.id != p.view.topoId
  }

  lemma {:induction false} PrefixPossible(servers: seq<Address>, actions: seq<Action>, n: nat)
    requires Possible(servers, actions) && n <= |actions|
    ensures Possible(servers, actions[..n])
  {
    if n == |actions| {
      assert actions[..n] == actions;
    } else {
      var m := |actions| - 1;
      PrefixPossible(servers, actions[..m], n);
      assert actions[..m][..n] == actions[..n];
    }
  }

  /** The list of servers changes with accepted updates only. */
  lemma ListIsKept(p: Pool, a: Action)
    requires Enabled(p, a)
    ensures Next(p, a).view.servers == if Accepts(p, a) then Addresses(a.update.topology) else p.view.servers
  {
  }

  lemma Served(p: Pool, a: Action, c: ConnId, addr: Address)
    requires Enabled(p, a) && At(Next(p, a), c, Serving(addr))
    ensures At(p, c, Serving(addr)) || (a == Install(c) && !Accepts(p, a))
    ensures Accepts(p, a) ==> addr in Next(p, a).view.servers
  {
  }

  /** No update from action n on is accepted. */
  ghost predicate NoneAcceptedFrom(servers: seq<Address>, actions: seq<Action>, n: nat) {
    forall j :: n <= j < |actions| ==>
      Possible(servers, actions[..j]) && !Accepts(After(servers, actions[..j]), actions[j])
  }

  lemma AcceptedOneMore(servers: seq<Address>, actions: seq<Action>, n: nat)
    requires Possible(servers, actions) && n < |actions|
    ensures var m := |actions| - 1;
            NoneAcceptedFrom(servers, actions, n) <==>
            NoneAcceptedFrom(servers, actions[..m], n) && !Accepts(After(servers, actions[..m]), actions[m])
  {
    var m := |actions| - 1;
    forall j | n <= j < m
      ensures actions[..m][..j] == actions[..j] && actions[..m][j] == actions[j]
    {
    }
    if NoneAcceptedFrom(servers, actions, n) {
      assert !Accepts(After(servers, actions[..m]), actions[m]);
      assert forall j :: n <= j < m ==> !Accepts(After(servers, actions[..m][..j]), actions[..m][j]);
    }
    if NoneAcceptedFrom(servers, actions[..m], n) && !Accepts(After(servers, actions[..m]), actions[m]) {
      forall j | n <= j < |actions|
        ensures Possible(servers, actions[..j]) && !Accepts(After(servers, actions[..j]), actions[j])
      {
        if j < m {
          assert !Accepts(After(servers, actions[..m][..j]), actions[..m][j]);
        }
      }
    }
  }

  lemma {:induction false} ListSince(servers: seq<Address>, actions: seq<Action>, n: nat)
    requires Possible(servers, actions) && n <= |actions| && Possible(servers, actions[..n])
    requires NoneAcceptedFrom(servers, actions, n)
    ensures After(servers, actions).view.servers == After(servers, actions[..n]).view.servers
  {
    if n == |actions| {
      assert actions[..n] == actions;
    } else {
      var m := |actions| - 1;
      AcceptedOneMore(servers, actions, n);
      assert actions[..m][..n] == actions[..n];
      ListSince(servers, actions[..m], n);
      ListIsKept(After(servers, actions[..m]), actions[m]);
    }
  }

  /** Action i installed the connection while its server was not listed, and no update has been accepted since. */
  ghost predicate InstalledUnlisted(servers: seq<Address>, actions: seq<Action>, i: nat, c: ConnId, addr: Address) {
    && i < |actions| && actions[i] == Install(c)
    && Possible(servers, actions[..i]) && addr !in After(servers, actions[..i]).view.servers
    && NoneAcceptedFrom(servers, actions, i)
  }

  lemma {:induction false} InstallOfUnlisted(servers: seq<Address>, actions: seq<Action>, c: ConnId, addr: Address)
    returns (i: nat)
    requires Possible(servers, actions) && At(After(servers, actions), c, Serving(addr))
    requires addr !in After(servers, actions).view.servers
    ensures InstalledUnlisted(servers, actions, i, c, addr)
  {
    var m := |actions| - 1;
    var p := After(servers, actions[..m]);
    Served(p, actions[m], c, addr);
    ListIsKept(p, actions[m]);
    if At(p, c, Serving(addr)) {
      i := InstallOfUnlisted(servers, actions[..m], c, addr);
      AcceptedOneMore(servers, actions, i);
      assert actions[..m][..i] == actions[..i];
    } else {
      i := m;
      assert NoneAcceptedFrom(servers, actions, m);
    }
  }

  /** A serving connection's server is missing from the list exactly if it was so at the connection's installation. */
  lemma UnlistedIff(servers: seq<Address>, actions: seq<Action>, c: ConnId, addr: Address)
    requires Possible(servers, actions) && At(After(servers, actions), c, Serving(addr))
    ensures addr !in After(servers, actions).view.servers <==>
            exists i :: InstalledUnlisted(servers, actions, i, c, addr)
  {
    if addr !in After(servers, actions).view.servers {
      var i := InstallOfUnlisted(servers, actions, c, addr);
    }
    forall i: nat | InstalledUnlisted(servers, actions, i, c, addr)
      ensures addr !in After(servers, actions).view.servers
    {
      ListSince(servers, actions, i);
    }
  }

  lemma {:induction false} NumbersGrow(servers: seq<Address>, actions: seq<Action>, n: nat)
    requires Possible(servers, actions) && n <= |actions| && Possible(servers, actions[..n])
    ensures After(servers, actions[..n]).next <= After(servers, actions).next
  {
    if n == |actions| {
      assert actions[..n] == actions;
    } else {
      var m := |actions| - 1;
      assert actions[..m][..n] == actions[..n];
      NumbersGrow(servers, actions[..m], n);
    }
  }

  lemma StaysOutOfSetup(p: Pool, a: Action, c: ConnId)
    requires Enabled(p, a) && c < p.next && c !in p.setup
    ensures c !in Next(p, a).setup
  {
  }

  /** A connection that has been dialled and is in setup has been so all the time. */
  lemma {:induction false} SetupThroughout(servers: seq<Address>, actions: seq<Action>, n: nat, c: ConnId)
    requires Possible(servers, actions) && n <= |actions| && Possible(servers, actions[..n])
    requires c < After(servers, actions[..n]).next && c in After(servers, actions).setup
    ensures c in After(servers, actions[..n]).setup
  {
    if n == |actions| {
      assert actions[..n] == actions;
    } else {
      var m := |actions| - 1;
      assert actions[..m][..n] == actions[..n];
      NumbersGrow(servers, actions[..m], n);
      if c !in After(servers, actions[..m]).setup {
        StaysOutOfSetup(After(servers, actions[..m]), actions[m], c);
      }
      SetupThroughout(servers, actions[..m], n, c);
    }
  }

  /** Action m is the last accepted update. */
  ghost predicate LastAccepted(servers: seq<Address>, actions: seq<Action>, m: nat) {
    && m < |actions| && Possible(servers, actions[..m])
    && Accepts(After(servers, actions[..m]), actions[m])
    && NoneAcceptedFrom(servers, actions, m + 1)
  }

  lemma {:induction false} FindLastAccepted(servers: seq<Address>, actions: seq<Action>, n: nat) returns (m: nat)
    requires Possible(servers, actions) && n <= |actions| && !NoneAcceptedFrom(servers, actions, n)
    ensures n <= m && LastAccepted(servers, actions, m)
  {
    var k := |actions| - 1;
    if Accepts(After(servers, actions[..k]), actions[k]) {
      m := k;
    } else {
      AcceptedOneMore(servers, actions, n);
      m := FindLastAccepted(servers, actions[..k], n);
      AcceptedOneMore(servers, actions, m + 1);
      assert actions[..k][..m] == actions[..m];
    }
  }

  lemma ListOfLastAccepted(servers: seq<Address>, actions: seq<Action>, m: nat)
    requires Possible(servers, actions) && LastAccepted(servers, actions, m)
    ensures After(servers, actions).view.servers == Addresses(actions[m].update.topology)
  {
    PrefixPossible(servers, actions, m + 1);
    assert actions[..m + 1][..m] == actions[..m];
    ListIsKept(After(servers, actions[..m]), actions[m]);
    ListSince(servers, actions, m + 1);
  }

  /** Action d dialled connection c, to a server that was listed then. */
  ghost predicate DialledListed(servers: seq<Address>, actions: seq<Action>, d: nat, c: ConnId, addr: Address) {
    && d < |actions| && actions[d] == Dial(addr) && Possible(servers, actions[..d])
    && After(servers, actions[..d]).next == c && addr in After(servers, actions[..d]).view.servers
  }

  /** The last accepted update m found the connection in setup and does not list its server. */
  ghost predicate DroppedInSetup(servers: seq<Address>, actions: seq<Action>, m: nat, c: ConnId, addr: Address) {
    && LastAccepted(servers, actions, m)
    && c in After(servers, actions[..m]).setup && addr !in Addresses(actions[m].update.topology)
  }

  lemma NumberedAfterDial(servers: seq<Address>, actions: seq<Action>, d: nat)
    requires Possible(servers, actions) && d < |actions| && actions[d].Dial? && Possible(servers, actions[..d])
    ensures After(servers, actions[..d]).next < After(servers, actions).next
  {
    PrefixPossible(servers, actions, d + 1);
    assert actions[..d + 1][..d] == actions[..d];
    NumbersGrow(servers, actions, d + 1);
  }

  lemma InSetupAtInstall(servers: seq<Address>, actions: seq<Action>, i: nat, c: ConnId)
    requires Possible(servers, actions) && i < |actions| && actions[i] == Install(c)
    ensures Possible(servers, actions[..i]) && c in After(servers, actions[..i]).setup
  {
    PrefixPossible(servers, actions, i + 1);
    assert actions[..i + 1][..i] == actions[..i];
  }

  lemma InSetupBetween(servers: seq<Address>, actions: seq<Action>, d: nat, m: nat, i: nat, c: ConnId, addr: Address)
    requires Possible(servers, actions) && d < m < i < |actions| && Possible(servers, actions[..m])
    requires DialledListed(servers, actions, d, c, addr) && actions[i] == Install(c)
    ensures c in After(servers, actions[..m]).setup
  {
    InSetupAtInstall(servers, actions, i, c);
    var before := actions[..i];
    assert actions[..m][..d] == actions[..d] && before[..m] == actions[..m];
    NumberedAfterDial(servers, actions[..m], d);
    SetupThroughout(servers, before, m, c);
  }

  lemma DropFound(servers: seq<Address>, actions: seq<Action>, d: nat, c: ConnId, addr: Address) returns (m: nat)
    requires Possible(servers, actions) && At(After(servers, actions), c, Serving(addr))
    requires DialledListed(servers, actions, d, c, addr) && addr !in After(servers, actions).view.servers
    ensures DroppedInSetup(servers, actions, m, c, addr)
  {
    if NoneAcceptedFrom(servers, actions, d) {
      ListSince(servers, actions, d);
    }
    m := FindLastAccepted(servers, actions, d);
    ListOfLastAccepted(servers, actions, m);
    var i := InstallOfUnlisted(servers, actions, c, addr);
    assert Accepts(After(servers, actions[..m]), actions[m]);
    assert actions[d] != actions[m] && actions[i] != actions[m];
    assert m < i;
    InSetupBetween(servers, actions, d, m, i, c, addr);
  }

  /**
   * A connection dialled to a listed server serves an unlisted one exactly if the last accepted update dropped the
   * server while the connection was being set up.
   */
  lemma ServesDepartedIff(servers: seq<Address>, actions: seq<Action>, d: nat, c: ConnId, addr: Address)
    requires Possible(servers, actions) && At(After(servers, actions), c, Serving(addr))
    requires DialledListed(servers, actions, d, c, addr)
    ensures addr !in After(servers, actions).view.servers <==>
            exists m :: DroppedInSetup(servers, actions, m, c, addr)
  {
    if addr !in After(servers, actions).view.servers {
      var m := DropFound(servers, actions, d, c, addr);
    }
    forall m: nat | DroppedInSetup(servers, actions, m, c, addr)
      ensures addr !in After(servers, actions).view.servers
    {
      ListOfLastAccepted(servers, actions, m);
    }
  }

  /** Such a run: the update for server b comes while the connection to a is being set up. */
  lemma DepartedServerIsServed(a: Address, b: Headers.ServerAddress)
    requires a != AddressOf(b)
    ensures var actions := [Dial(a), Receive(Update(Headers.Topology(1, [b], 0, 0, None), [])), Install(0)];
            && Possible([a], actions)
            && At(After([a], actions), 0, Serving(a)) && After([a], actions).view.servers == [AddressOf(b)]
  {
    var dial, receive := Dial(a), Receive(Update(Headers.Topology(1, [b], 0, 0, None), []));
    var p0 := Fresh([a]);
    assert Possible([a], []) && After([a], []) == p0;
    OneMoreAction([a], [], dial);
    assert [] + [dial] == [dial];
    var p1 := Next(p0, dial);
    OneMoreAction([a], [dial], receive);
    assert [dial] + [receive] == [dial, receive];
    var p2 := Next(p1, receive);
    OneMoreAction([a], [dial, receive], Install(0));
    assert [dial, receive] + [Install(0)] == [dial, receive, Install(0)];
    assert p2.setup == {0} && p2.dialled == map[0 := a] && p2.view.conns == map[];
    assert p2.view.servers == [AddressOf(b)];
  }

  // ---------- the pool object: each method body is one lock section ----------

  class ConnectionPool {
    var topoId: int32
    var servers: seq<Address>
    var conns: map<Address, ConnId>
    var consistentHashes: map<CacheName, ConsistentHash>

    /** What became of the connections outside the table, kept for the specification. */
    ghost var setup: set<ConnId>
    ghost var draining: set<ConnId>
    ghost var closed: set<ConnId>
    ghost var next: ConnId
    ghost var dialled: map<ConnId, Address>

    ghost function State(): Pool
      reads this
    {
      Pool(View(topoId, servers, conns, consistentHashes), setup, draining, closed, next, dialled)
    }

    constructor (initialServers: seq<Address>)
      ensures State() == Fresh(initialServers)
    {
      topoId, servers, conns, consistentHashes := INITIAL_ID, initialServers, map[], map[];
      setup, draining, closed, next, dialled := {}, {}, {}, 0, map[];
    }

    method Drain(conn: ConnId)
      modifies this`draining
      ensures draining == old(draining) + {conn}
    {
      draining := draining + {conn};
    }

    method CloseConn(conn: ConnId)
      modifies this`closed
      ensures closed == old(closed) + {conn}
    {
      closed := closed + {conn};
    }

    /** The end of ensureConn: another caller may have connected to the same server in the meantime. */
    method Install(addr: Address, conn: ConnId)
      requires conn in setup && conn in dialled && dialled[conn] == addr
      modifies this
      ensures State() == Next(old(State()), Action.Install(conn))
    {
      setup := setup - {conn};
      if addr in conns {
        CloseConn(conn);
        return;
      }
      conns := conns[addr := conn];
    }

    method RemoveDeparted(newSet: set<Address>)
      modifies this`conns, this`draining
      ensures conns == map a | a in old(conns) && a in newSet :: old(conns)[a]
      ensures draining == old(draining) + Leaving(old(conns), conns)
    {
      var todo := conns.Keys;
      while todo != {}
        invariant todo <= conns.Keys <= old(conns).Keys
        invariant forall a :: a in conns ==> conns[a] == old(conns)[a]
        invariant forall a :: a in old(conns) && a !in todo ==> (a in conns <==> a in newSet)
        invariant draining == old(draining) + Leaving(old(conns), conns)
        decreases todo
      {
        var addr :| addr in todo;
        todo := todo - {addr};
        if addr !in newSet {
          var conn := conns[addr];
          ghost var before := conns;
          conns := conns - {addr};
          Drain(conn);
          LeavingOneMore(old(conns), before, addr);
        }
      }
    }

    method HandleTopologyUpdate(update: Option<Headers.Topology>, cacheName: CacheName)
      requires update.Some? ==> Usable(update.value)
      modifies this
      ensures State() == if update.None? then old(State())
                         else Next(old(State()), Receive(Update(update.value, cacheName)))
    {
      if update.None? || update.value.id == topoId {
        HandledNothing(State());
        return;
      }
      var t := update.value;
      topoId := t.id;
      var newAddrs, newSet := CollectAddresses(t);
      servers := newAddrs;
      RemoveDeparted(newSet);
      UpdateHashes(t, newAddrs, cacheName);
    }

    method UpdateHashes(t: Headers.Topology, newAddrs: seq<Address>, cacheName: CacheName)
      requires Usable(t) && newAddrs == Addresses(t)
      modifies this`consistentHashes
      ensures consistentHashes == UpdateTables(old(consistentHashes), Update(t, cacheName))
    {
      if cacheName != [] && t.owners.Some? && t.hashVersion > 0 {
        var segmentOwners := BuildRows(newAddrs, t.owners.value);
        consistentHashes := consistentHashes[cacheName := NewConsistentHash(t.numSegments, segmentOwners)];
      } else if cacheName != [] && t.hashVersion == 0 && t.numSegments > 0 {
        consistentHashes := consistentHashes - {cacheName};
      }
    }

    method Close()
      modifies this
      ensures State() == Next(old(State()), ClosePool)
    {
      var todo := conns.Keys;
      while todo != {}
        invariant todo == conns.Keys && conns.Keys <= old(conns).Keys
        invariant forall a :: a in conns ==> conns[a] == old(conns)[a]
        invariant closed == old(closed) + Leaving(old(conns), conns)
        invariant State() == old(State()).(view := old(State()).view.(conns := conns), closed := closed)
        decreases todo
      {
        var addr :| addr in todo;
        CloseConn(conns[addr]);
        ghost var before := conns;
        conns := conns - {addr};
        todo := todo - {addr};
        LeavingOneMore(old(conns), before, addr);
      }
      assert conns == map[];
    }
  }

  lemma HandledNothing(p: Pool)
    ensures Leaving(p.view.conns, p.view.conns) == {}
  {
  }

  lemma LeavingOneMore(start: map<Address, ConnId>, before: map<Address, ConnId>, addr: Address)
    requires addr in before && before.Keys <= start.Keys && before[addr] == start[addr]
    ensures Leaving(start, before - {addr}) == Leaving(start, before) + {before[addr]}
  {
    forall c | c in Leaving(start, before - {addr})
      ensures c in Leaving(start, before) + {before[addr]}
    {
      var a := LeavingFrom(start, before - {addr}, c);
      assert a == addr || (a in start && a !in before);
    }
    assert addr in start && addr !in before - {addr};
    forall c | c in Leaving(start, before)
      ensures c in Leaving(start, before - {addr})
    {
      var a := LeavingFrom(start, before, c);
      assert a in start && a !in before - {addr};
    }
  }

  method CollectAddresses(t: Headers.Topology) returns (newAddrs: seq<Address>, newSet: set<Address>)
    ensures newAddrs == Addresses(t)
    ensures forall a :: a in newSet <==> a in newAddrs
  {
    newAddrs, newSet := [], {};
    for i := 0 to |t.servers|
      invariant newAddrs == Addresses(t)[..i]
      invariant forall a :: a in newSet <==> a in newAddrs
    {
      var addr := AddressOf(t.servers[i]);
      newAddrs, newSet := newAddrs + [addr], newSet + {addr};
    }
  }

  method BuildRows(newAddrs: seq<Address>, owners: seq<seq<int32>>) returns (segmentOwners: seq<seq<Address>>)
    requires forall i, j :: 0 <= i < |owners| && 0 <= j < |owners[i]| ==> owners[i][j] >= 0
    ensures segmentOwners == Rows(newAddrs, owners)
  {
    segmentOwners := [];
    for i := 0 to |owners|
      invariant segmentOwners == Rows(newAddrs, owners)[..i]
    {
      var addrs := seq(|owners[i]|, _ => NOWHERE);
      for j := 0 to |owners[i]|
        invariant |addrs| == |owners[i]|
        invariant forall k :: 0 <= k < |addrs| ==>
                    addrs[k] == if k < j then OwnerAt(newAddrs, owners[i][k]) else NOWHERE
      {
        var idx := owners[i][j];
        if idx < |newAddrs| {
          addrs := addrs[j := newAddrs[idx]];
        }
      }
      assert addrs == Row(newAddrs, owners[i]);
      segmentOwners := segmentOwners + [addrs];
    }
  }
}
