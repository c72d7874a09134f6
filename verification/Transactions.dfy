/**
 * The transaction objects (hotrod/transaction.go): a cache of entries changed in place, the listing of the
 * modified ones, and a whole transaction against a server that commits or rejects it.
 */
module Transactions {
  import opened Wrappers
  import opened Words
  import opened TxModel
  import TxProof
  import TxAnswers
  import Hex

  lemma UpdateTwice(b: Buffer, h: string, e: Entry, f: Entry)
    ensures b[h := e][h := f] == b[h := f]
  {
  }

  /** One round of the loop over the map: `rest` are the keys not yet visited. */
  lemma VisitStep(mods: seq<Modification>, b: Buffer, rest: set<string>, h: string)
    requires TxProof.Keyed(b) && rest <= b.Keys && h in rest
    requires IsListing(mods, b - rest)
    ensures IsListing(if b[h].modified then mods + [ModificationOf(b[h])] else mods, b - (rest - {h}))
  {
    ListingStep(mods, b - rest, h, b[h]);
    assert (b - rest)[h := b[h]] == b - (rest - {h});
  }

  class TxEntry {
    const key: Bytes
    var value: Blob
    const versionRead: int64
    var control: Control
    var lifespan: int64
    var maxIdle: int64
    var modified: bool

    constructor (e: Entry)
      ensures View() == e
    {
      key, value, versionRead, control := e.key, e.value, e.versionRead, e.control;
      lifespan, maxIdle, modified := e.lifespan, e.maxIdle, e.modified;
    }

    function View(): Entry
      reads this
    {
      Entry(key, value, versionRead, control, lifespan, maxIdle, modified)
    }

    method Store(v: Blob, newLifespan: int64, newMaxIdle: int64)
      modifies this
      ensures View() == old(View()).(value := v, control := old(control).(removeOp := false),
                                     lifespan := newLifespan, maxIdle := newMaxIdle, modified := true)
    {
      value := v;
      control := control.(removeOp := false);
      lifespan := newLifespan;
      maxIdle := newMaxIdle;
      modified := true;
    }

    method MarkRemoved()
      modifies this
      ensures View() == old(View()).(value := None, control := old(control).(removeOp := true), modified := true)
    {
      control := control.(removeOp := true);
      value := None;
      modified := true;
    }
  }

  class TxCache {
    var entries: map<string, TxEntry>

    constructor ()
      ensures Valid() && View() == map[] && entries == map[]
    {
      entries := map[];
    }

    /** No two keys share an entry object. */
    ghost predicate Valid()
      reads this
    {
      forall g, h :: g in entries && h in entries && g != h ==> entries[g] != entries[h]
    }

    ghost function View(): (b: Buffer)
      reads this, entries.Values
      ensures b.Keys == entries.Keys
    {
      map h | h in entries :: entries[h].View()
    }

    /** `net` is the server as a first read finds it, or None when the request fails. */
    method Get(key: Bytes, net: Option<Store>) returns (answer: Answer)
      requires Valid()
      modifies this
      ensures Valid() && fresh(entries.Values - old(entries.Values))
      ensures (View(), answer) == Step(old(View()), Op.Get(key), net)
    {
      var hex := Hex.HexKey(key);
      if hex in entries {
        var e := entries[hex];
        if e.control.removeOp || e.value.None? {
          return Absent;
        }
        return Present(e.value.value);
      }
      if net.None? {
        return Failed;
      }
      var found := key in net.value;
      var e := new TxEntry(
        if found then Entry(key, Some(net.value[key].content.value), net.value[key].version, CTRL_READ, 0, 0, false)
        else Entry(key, None, 0, CTRL_NON_EXISTING, 0, 0, false));
      ghost var before := View();
      entries := entries[hex := e];
      assert View() == before[hex := Fetched(key, net.value)];
      answer := if found then Present(e.value.value) else Absent;
    }

    /** The entry of a key about to be written; a key not met before becomes a blind write. */
    method EntryFor(key: Bytes) returns (e: TxEntry)
      requires Valid()
      modifies this
      ensures Valid() && fresh(entries.Values - old(entries.Values))
      ensures Hex.HexOf(key) in entries && entries[Hex.HexOf(key)] == e
      ensures View() == old(View())[Hex.HexOf(key) := EntryOrBlind(old(View()), key)]
    {
      var hex := Hex.HexKey(key);
      if hex in entries {
        e := entries[hex];
      } else {
        e := new TxEntry(Entry(key, None, 0, CTRL_NOT_READ, 0, 0, false));
        entries := entries[hex := e];
      }
    }

    method Put(key: Bytes, value: Blob, lifespan: int64, maxIdle: int64)
      requires Valid()
      modifies this, entries.Values
      ensures Valid() && fresh(entries.Values - old(entries.Values))
      ensures (View(), Done) == Step(old(View()), Op.Put(key, value, lifespan, maxIdle), None)
    {
      var e := EntryFor(key);
      ghost var before := View();
      e.Store(value, lifespan, maxIdle);
      assert View() == before[Hex.HexOf(key) := e.View()];
      UpdateTwice(old(View()), Hex.HexOf(key), EntryOrBlind(old(View()), key), e.View());
    }

    method Remove(key: Bytes)
      requires Valid()
      modifies this, entries.Values
      ensures Valid() && fresh(entries.Values - old(entries.Values))
      ensures (View(), Done) == Step(old(View()), Op.Remove(key), None)
    {
      var e := EntryFor(key);
      ghost var before := View();
      e.MarkRemoved();
      assert View() == before[Hex.HexOf(key) := e.View()];
      UpdateTwice(old(View()), Hex.HexOf(key), EntryOrBlind(old(View()), key), e.View());
    }

    /** The map is visited in an order the caller cannot rely on. */
    method BuildModifications() returns (mods: seq<Modification>)
      requires Valid() && TxProof.Keyed(View())
      ensures IsListing(mods, View())
    {
      mods := [];
      ghost var all := View();
      var rest := entries.Keys;
      assert all - rest == map[];
      while rest != {}
        invariant rest <= entries.Keys
        invariant IsListing(mods, all - rest)
        decreases |rest|
      {
        var h :| h in rest;
        var e := entries[h];
        VisitStep(mods, all, rest, h);
        if e.modified {
          mods := mods + [Modification(e.key, e.value, e.versionRead, e.control, e.lifespan, e.maxIdle)];
        }
        rest := rest - {h};
      }
      assert all - rest == all;
    }
  }

  const XA_OK := 0
  const XA_RD_ONLY := 3
  const XA_ROLLBACK := 100

  /** The server's side of a one-phase prepare: validate everything, then apply everything with a new version. */
  class Server {
    var store: Store
    var version: int64

    ghost function Contents(): Contents
      reads this
    {
      ContentsOf(store)
    }

    method Prepare(mods: seq<Modification>, newVersion: int64) returns (code: int)
      modifies this
      ensures code == if AcceptsAll(old(store), mods) then XA_OK else XA_ROLLBACK
      ensures code == XA_OK ==> Contents() == ApplyAll(old(Contents()), mods)
      ensures code != XA_OK ==> store == old(store)
    {
      for i := 0 to |mods|
        invariant AcceptsAll(store, mods[..i])
      {
        if !Accepts(store, mods[i]) {
          assert !AcceptsAll(store, mods);
          return XA_ROLLBACK;
        }
        assert mods[..i + 1] == mods[..i] + [mods[i]];
      }
      assert mods[..|mods|] == mods;
      version := newVersion;
      for i := 0 to |mods|
        invariant Contents() == ApplyAll(old(Contents()), mods[..i])
      {
        var m := mods[i];
        assert mods[..i + 1][..i] == mods[..i];
        if m.control.removeOp {
          store := store - {m.key};
        } else {
          store := store[m.key := Cell(Content(WireValue(m.value), m.lifespan, m.maxIdle), version)];
        }
      }
      code := XA_OK;
    }
  }

  /**
   * A transaction whose function runs `ops`, meeting the server in states `nets`, and then fails or not.
   * `lost` says that the answer to the prepare request does not arrive.
   */
  method WithTransaction(server: Server, ops: seq<Op>, nets: seq<Option<Store>>, fnFails: bool, lost: bool,
                         newVersion: int64)
    returns (ok: bool, answers: seq<Answer>)
    requires |nets| == |ops|
    modifies server
    ensures answers == Run(ops, nets).1
    ensures ok <==>
              && !fnFails && TxAnswers.ReadsStillHold(ops, nets, old(server.store))
              && (lost ==> forall i :: 0 <= i < |ops| ==> ops[i].Get?)
    ensures ok ==> server.Contents() == Direct(ops, old(server.Contents())).0
    ensures ok && TxProof.Consistent(nets, old(server.store)) &&
            TxProof.ReadsAreWritten(ops) && TxProof.NilNeverReadBack(ops) ==>
            TxProof.SameAnswers(answers, Direct(ops, old(server.Contents())).1)
    ensures !ok && !lost ==> server.store == old(server.store)
    ensures lost ==> server.Contents() in {old(server.Contents()), Direct(ops, old(server.Contents())).0}
  {
    var tc := new TxCache();
    answers := [];
    for i := 0 to |ops|
      invariant tc.Valid() && fresh(tc) && fresh(tc.entries.Values)
      invariant (tc.View(), answers) == Run(ops[..i], nets[..i])
      invariant server.store == old(server.store)
    {
      assert ops[..i + 1][..i] == ops[..i] && nets[..i + 1][..i] == nets[..i];
      var answer := Done;
      match ops[i] {
        case Get(k) => answer := tc.Get(k, nets[i]);
        case Put(k, v, lifespan, maxIdle) => tc.Put(k, v, lifespan, maxIdle);
        case Remove(k) => tc.Remove(k);
      }
      answers := answers + [answer];
    }
    assert ops[..|ops|] == ops && nets[..|ops|] == nets;
    if fnFails {
      return false, answers;
    }
    TxProof.RunKeyed(ops, nets);
    var mods := tc.BuildModifications();
    TxProof.CommitEqualsReplay(ops, nets, server.Contents(), mods);
    if TxProof.ReadsAreWritten(ops) && TxProof.NilNeverReadBack(ops) {
      TxProof.CoveredIsSerialisable(ops);
      assert TxProof.CommitsSerially(ops, nets, server.store, mods);
    }
    TxAnswers.CommitsIff(ops, nets, server.store, mods);
    TxAnswers.NothingListedIff(ops, nets, mods);
    if |mods| == 0 {
      return true, answers;
    }
    var code := server.Prepare(mods, newVersion);
    ok := !lost && (code == XA_OK || code == XA_RD_ONLY);
  }
}
