/**
 * The transaction buffer as values: what one Get, Put or Remove does to the buffered entries, what the
 * server accepts at commit time, and what the same operations do when they run directly on the server.
 */
module TxModel {
  import opened Wrappers
  import opened Words
  import Hex

  /** A Go byte slice that may be nil. */
  type Blob = Option<Bytes>

  /** The control byte of an entry: one flag for each of its three bits. */
  datatype Control = Control(notRead: bool, nonExisting: bool, removeOp: bool) {
    function ToByte(): byte {
      (if notRead then 1 else 0) + (if nonExisting then 2 else 0) + (if removeOp then 4 else 0)
    }
  }

  const CTRL_READ := Control(false, false, false)
  const CTRL_NOT_READ := Control(true, false, false)
  const CTRL_NON_EXISTING := Control(false, true, false)

  datatype Entry = Entry(key: Bytes, value: Blob, versionRead: int64, control: Control,
                         lifespan: int64, maxIdle: int64, modified: bool)

  /** The buffered entries by hexadecimal key. */
  type Buffer = map<string, Entry>

  datatype Modification = Modification(key: Bytes, value: Blob, versionRead: int64, control: Control,
                                       lifespan: int64, maxIdle: int64)

  datatype Op =
    | Get(key: Bytes)
    | Put(key: Bytes, value: Blob, lifespan: int64, maxIdle: int64)
    | Remove(key: Bytes)

  /** What the caller sees: `(nil, false, err)`, `(nil, false, nil)`, `(v, true, nil)`, or nothing for a write. */
  datatype Answer = Failed | Absent | Present(value: Bytes) | Done

  /** A stored entry, and the entry with the version the server keeps for it. */
  datatype Content = Content(value: Bytes, lifespan: int64, maxIdle: int64)
  datatype Cell = Cell(content: Content, version: int64)

  type Contents = map<Bytes, Content>
  type Store = map<Bytes, Cell>

  function ContentsOf(c: Store): (m: Contents)
    ensures m.Keys == c.Keys
  {
    map k | k in c :: c[k].content
  }

  /** A nil slice and an empty one are written as the same zero-length field. */
  function WireValue(v: Blob): Bytes {
    v.GetOr([])
  }

  // ---------- one buffered operation ----------

  /** What a buffered entry answers to a Get. */
  function Cached(e: Entry): Answer {
    if e.control.removeOp || e.value.None? then Absent else Present(e.value.value)
  }

  /** The entry a first read creates from what the server holds. */
  function Fetched(k: Bytes, server: Store): Entry {
    if k in server then Entry(k, Some(server[k].content.value), server[k].version, CTRL_READ, 0, 0, false)
    else Entry(k, None, 0, CTRL_NON_EXISTING, 0, 0, false)
  }

  function EntryOrBlind(b: Buffer, k: Bytes): Entry {
    var h := Hex.HexOf(k);
    if h in b then b[h] else Entry(k, None, 0, CTRL_NOT_READ, 0, 0, false)
  }

  /** `net` is the server as this operation finds it, or None when the request fails. */
  function Step(b: Buffer, op: Op, net: Option<Store>): (Buffer, Answer) {
    var h := Hex.HexOf(op.key);
    match op
    case Get(k) =>
      if h in b then (b, Cached(b[h]))
      else if net.None? then (b, Failed)
      else (b[h := Fetched(k, net.value)], if k in net.value then Present(net.value[k].content.value) else Absent)
    case Put(k, v, lifespan, maxIdle) =>
      var e := EntryOrBlind(b, k);
      (b[h := e.(value := v, control := e.control.(removeOp := false),
                 lifespan := lifespan, maxIdle := maxIdle, modified := true)], Done)
    case Remove(k) =>
      var e := EntryOrBlind(b, k);
      (b[h := e.(value := None, control := e.control.(removeOp := true), modified := true)], Done)
  }

  /** All operations in order; operation i meets the server in state nets[i]. */
  function Run(ops: seq<Op>, nets: seq<Option<Store>>): (r: (Buffer, seq<Answer>))
    requires |nets| == |ops|
    ensures |r.1| == |ops|
  {
    if ops == [] then (map[], [])
    else
      var n := |ops| - 1;
      var (b, answers) := Run(ops[..n], nets[..n]);
      var (b', a) := Step(b, ops[n], nets[n]);
      (b', answers + [a])
  }

  // ---------- the same operations directly on the server ----------

  function DirectStep(m: Contents, op: Op): (Contents, Answer) {
    match op
    case Get(k) => (m, if k in m then Present(m[k].value) else Absent)
    case Put(k, v, lifespan, maxIdle) => (m[k := Content(WireValue(v), lifespan, maxIdle)], Done)
    case Remove(k) => (m - {k}, Done)
  }

  function Direct(ops: seq<Op>, m: Contents): (r: (Contents, seq<Answer>))
    ensures |r.1| == |ops|
  {
    if ops == [] then (m, [])
    else
      var n := |ops| - 1;
      var (d, answers) := Direct(ops[..n], m);
      var (d', a) := DirectStep(d, ops[n]);
      (d', answers + [a])
  }

  // ---------- commit ----------

  function ModificationOf(e: Entry): Modification {
    Modification(e.key, e.value, e.versionRead, e.control, e.lifespan, e.maxIdle)
  }

  ghost predicate ListsModified(mods: seq<Modification>, b: Buffer) {
    forall i :: 0 <= i < |mods| ==>
      var h := Hex.HexOf(mods[i].key); h in b && b[h].modified && mods[i] == ModificationOf(b[h])
  }

  ghost predicate Lists(mods: seq<Modification>, h: string) {
    exists i :: 0 <= i < |mods| && Hex.HexOf(mods[i].key) == h
  }

  ghost predicate KeysDiffer(mods: seq<Modification>) {
    forall i, j :: 0 <= i < j < |mods| ==> mods[i].key != mods[j].key
  }

  /** mods lists each modified entry once, in any order: Go ranges over the map in no fixed order. */
  ghost predicate IsListing(mods: seq<Modification>, b: Buffer) {
    && ListsModified(mods, b)
    && KeysDiffer(mods)
    && (forall h :: h in b && b[h].modified ==> Lists(mods, h))
  }

  lemma ListsStep(mods: seq<Modification>, m: Modification, g: string)
    requires Lists(mods, g) || Hex.HexOf(m.key) == g
    ensures Lists(mods + [m], g)
  {
    var longer := mods + [m];
    if Lists(mods, g) {
      var i :| 0 <= i < |mods| && Hex.HexOf(mods[i].key) == g;
      assert Hex.HexOf(longer[i].key) == g;
    } else {
      assert Hex.HexOf(longer[|mods|].key) == g;
    }
  }

  lemma ListsModifiedStep(mods: seq<Modification>, seen: Buffer, h: string, e: Entry)
    requires ListsModified(mods, seen) && KeysDiffer(mods)
    requires h !in seen && h == Hex.HexOf(e.key) && e.modified
    ensures ListsModified(mods + [ModificationOf(e)], seen[h := e])
    ensures KeysDiffer(mods + [ModificationOf(e)])
  {
    assert forall i :: 0 <= i < |mods| ==> Hex.HexOf(mods[i].key) in seen;
  }

  /** Visiting one more entry, as the loop over the map does. */
  lemma ListingStep(mods: seq<Modification>, seen: Buffer, h: string, e: Entry)
    requires IsListing(mods, seen) && h !in seen && h == Hex.HexOf(e.key)
    ensures IsListing(if e.modified then mods + [ModificationOf(e)] else mods, seen[h := e])
  {
    if e.modified {
      ListsModifiedStep(mods, seen, h, e);
      forall g | g in seen[h := e] && seen[h := e][g].modified
        ensures Lists(mods + [ModificationOf(e)], g)
      {
        ListsStep(mods, ModificationOf(e), g);
      }
    }
  }

  /** The server's rule: blind writes pass, a key read as absent is still absent, a read version is unchanged. */
  predicate Accepts(c: Store, m: Modification) {
    if m.control.notRead then true
    else if m.control.nonExisting then m.key !in c
    else m.key in c && c[m.key].version == m.versionRead
  }

  predicate AcceptsAll(c: Store, mods: seq<Modification>) {
    forall i :: 0 <= i < |mods| ==> Accepts(c, mods[i])
  }

  function ApplyOne(d: Contents, m: Modification): Contents {
    if m.control.removeOp then d - {m.key}
    else d[m.key := Content(WireValue(m.value), m.lifespan, m.maxIdle)]
  }

  function ApplyAll(d: Contents, mods: seq<Modification>): Contents {
    if mods == [] then d
    else ApplyOne(ApplyAll(d, mods[..|mods| - 1]), mods[|mods| - 1])
  }
}
