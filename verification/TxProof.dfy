/** Optimistic commit equals serial execution at commit time: the refinement and its exact condition. */
module TxProof {
  import opened Wrappers
  import opened Words
  import opened TxModel
  import Hex

  /** The version identifies the value: what a snapshot and the commit-time store agree on when versions agree. */
  ghost predicate Consistent(nets: seq<Option<Store>>, c: Store) {
    forall i, k :: 0 <= i < |nets| && nets[i].Some? && k in nets[i].value && k in c ==>
      (nets[i].value[k].version == c[k].version ==> nets[i].value[k].content.value == c[k].content.value)
  }

  predicate SameAt<V(==)>(m: map<Bytes, V>, n: map<Bytes, V>, k: Bytes) {
    if k in m then k in n && m[k] == n[k] else k !in n
  }

  // ---------- what the buffer says about the directly updated contents ----------

  /** What entry e of key k stands for, given the contents m the transaction started from. */
  predicate Describes(e: Entry, k: Bytes, m: Contents, d: Contents) {
    && e.key == k
    && (e.control.notRead ==> e.modified)
    && (if !e.modified then SameAt(d, m, k) && !e.control.removeOp && (e.control.nonExisting <==> e.value.None?)
        else if e.control.removeOp then k !in d && e.value.None?
        else k in d && d[k] == Content(WireValue(e.value), e.lifespan, e.maxIdle))
  }

  predicate Mirrors(b: Buffer, m: Contents, d: Contents, k: Bytes) {
    var h := Hex.HexOf(k);
    if h in b then Describes(b[h], k, m, d) else SameAt(d, m, k)
  }

  lemma StepMirrors(b: Buffer, op: Op, net: Option<Store>, m: Contents, d: Contents, k: Bytes)
    requires Mirrors(b, m, d, k)
    ensures Mirrors(Step(b, op, net).0, m, DirectStep(d, op).0, k)
  {
    if k != op.key && Hex.HexOf(k) == Hex.HexOf(op.key) {
      Hex.HexOfInjective(k, op.key);
    }
  }

  lemma {:induction false} RunMirrors(ops: seq<Op>, nets: seq<Option<Store>>, m: Contents, k: Bytes)
    requires |nets| == |ops|
    ensures Mirrors(Run(ops, nets).0, m, Direct(ops, m).0, k)
  {
    if ops != [] {
      var n := |ops| - 1;
      RunMirrors(ops[..n], nets[..n], m, k);
      StepMirrors(Run(ops[..n], nets[..n]).0, ops[n], nets[n], m, Direct(ops[..n], m).0, k);
    }
  }

  // ---------- the modifications rebuild the directly updated contents ----------

  lemma {:induction false} ApplyAllAt(d: Contents, mods: seq<Modification>, k: Bytes)
    requires forall i, j :: 0 <= i < j < |mods| ==> mods[i].key != mods[j].key
    ensures (forall i :: 0 <= i < |mods| ==> mods[i].key != k) ==> SameAt(ApplyAll(d, mods), d, k)
    ensures forall i :: 0 <= i < |mods| && mods[i].key == k ==> SameAt(ApplyAll(d, mods), ApplyOne(d, mods[i]), k)
  {
    if mods != [] {
      ApplyAllAt(d, mods[..|mods| - 1], k);
    }
  }

  lemma ListingAt(mods: seq<Modification>, b: Buffer, m: Contents, d: Contents, k: Bytes)
    requires IsListing(mods, b) && Mirrors(b, m, d, k)
    ensures SameAt(ApplyAll(m, mods), d, k)
  {
    ApplyAllAt(m, mods, k);
    var h := Hex.HexOf(k);
    if h in b && b[h].modified {
      assert Lists(mods, h);
      var i :| 0 <= i < |mods| && Hex.HexOf(mods[i].key) == h;
      assert SameAt(ApplyOne(m, mods[i]), d, k);
    } else {
      assert forall i :: 0 <= i < |mods| ==> Hex.HexOf(mods[i].key) in b;
    }
  }

  /** Whatever order the modifications are sent in, applying them gives exactly what direct execution gives. */
  lemma CommitEqualsReplay(ops: seq<Op>, nets: seq<Option<Store>>, m: Contents, mods: seq<Modification>)
    requires |nets| == |ops|
    requires IsListing(mods, Run(ops, nets).0)
    ensures ApplyAll(m, mods) == Direct(ops, m).0
  {
    var b, d := Run(ops, nets).0, Direct(ops, m).0;
    forall k: Bytes
      ensures SameAt(ApplyAll(m, mods), d, k)
    {
      RunMirrors(ops, nets, m, k);
      ListingAt(mods, b, m, d, k);
    }
    MapsAgree(ApplyAll(m, mods), d);
  }

  lemma MapsAgree(m: Contents, n: Contents)
    requires forall k: Bytes :: SameAt(m, n, k)
    ensures m == n
  {
    assert forall k: Bytes :: k in m ==> SameAt(m, n, k);
    assert forall k: Bytes :: k in n ==> SameAt(m, n, k);
  }

  // ---------- answers ----------

  /** Buffer b2 keeps what b recorded when key k was first met. */
  predicate KeepsEvidence(b: Buffer, b2: Buffer, k: Bytes) {
    var h := Hex.HexOf(k);
    h in b ==>
      && h in b2
      && b[h].versionRead == b2[h].versionRead
      && b[h].control.notRead == b2[h].control.notRead
      && b[h].control.nonExisting == b2[h].control.nonExisting
  }

  lemma StepKeepsEvidence(b: Buffer, op: Op, net: Option<Store>, k: Bytes)
    ensures KeepsEvidence(b, Step(b, op, net).0, k)
  {
  }

  lemma {:induction false} RunKeepsEvidence(ops: seq<Op>, nets: seq<Option<Store>>, i: nat, k: Bytes)
    requires |nets| == |ops| && i <= |ops|
    ensures KeepsEvidence(Run(ops[..i], nets[..i]).0, Run(ops, nets).0, k)
  {
    if i == |ops| {
      assert ops[..i] == ops && nets[..i] == nets;
    } else {
      var n := |ops| - 1;
      RunKeepsEvidence(ops[..n], nets[..n], i, k);
      assert ops[..n][..i] == ops[..i] && nets[..n][..i] == nets[..i];
      StepKeepsEvidence(Run(ops[..n], nets[..n]).0, ops[n], nets[n], k);
    }
  }

  /** An unmodified entry still holds the value that came with the version it holds. */
  predicate Faithful(b: Buffer, c: Store, k: Bytes) {
    var h := Hex.HexOf(k);
    h in b && !b[h].modified && !b[h].control.nonExisting && k in c && c[k].version == b[h].versionRead ==>
      b[h].value == Some(c[k].content.value)
  }

  lemma StepFaithful(b: Buffer, op: Op, net: Option<Store>, c: Store, k: Bytes)
    requires Faithful(b, c, k) && Consistent([net], c)
    ensures Faithful(Step(b, op, net).0, c, k)
  {
    if Hex.HexOf(k) == Hex.HexOf(op.key) {
      Hex.HexOfInjective(k, op.key);
      assert [net][0] == net;
    }
  }

  lemma {:induction false} RunFaithful(ops: seq<Op>, nets: seq<Option<Store>>, c: Store, k: Bytes)
    requires |nets| == |ops| && Consistent(nets, c)
    ensures Faithful(Run(ops, nets).0, c, k)
  {
    if ops != [] {
      var n := |ops| - 1;
      RunFaithful(ops[..n], nets[..n], c, k);
      StepFaithful(Run(ops[..n], nets[..n]).0, ops[n], nets[n], c, k);
    }
  }

  predicate Writes(op: Op, k: Bytes) {
    op.key == k && !op.Get?
  }

  /** Every key that is read is also written: a key met by a read is written later. */
  ghost predicate ReadsAreWritten(ops: seq<Op>) {
    forall i :: 0 <= i < |ops| && ops[i].Get? ==> Written(ops, ops[i].key)
  }

  /** The last write before position i to key k stores nil. */
  ghost predicate NilPending(ops: seq<Op>, i: nat, k: Bytes)
    requires i <= |ops|
  {
    i > 0 && if Writes(ops[i - 1], k) then ops[i - 1].Put? && ops[i - 1].value.None? else NilPending(ops, i - 1, k)
  }

  ghost predicate NilNeverReadBack(ops: seq<Op>) {
    forall i :: 0 <= i < |ops| && ops[i].Get? ==> !NilPending(ops, i, ops[i].key)
  }

  lemma {:induction false} NilPendingPrefix(ops: seq<Op>, n: nat, i: nat, k: Bytes)
    requires i <= n <= |ops|
    ensures NilPending(ops[..n], i, k) == NilPending(ops, i, k)
  {
    if i > 0 {
      NilPendingPrefix(ops, n, i - 1, k);
    }
  }

  ghost predicate Written(ops: seq<Op>, k: Bytes) {
    exists j :: 0 <= j < |ops| && Writes(ops[j], k)
  }

  lemma WrittenSnoc(ops: seq<Op>, op: Op, k: Bytes)
    ensures Written(ops + [op], k) <==> Written(ops, k) || Writes(op, k)
  {
    if Written(ops, k) {
      var j :| 0 <= j < |ops| && Writes(ops[j], k);
      assert Writes((ops + [op])[j], k);
    }
    assert (ops + [op])[|ops|] == op;
  }

  predicate HasModified(b: Buffer, k: Bytes) {
    var h := Hex.HexOf(k);
    h in b && b[h].modified
  }

  predicate HoldsNil(b: Buffer, k: Bytes) {
    var h := Hex.HexOf(k);
    h in b && b[h].modified && !b[h].control.removeOp && b[h].value.None?
  }

  lemma StepTracksWrites(b: Buffer, op: Op, net: Option<Store>, k: Bytes)
    ensures HasModified(Step(b, op, net).0, k) <==> HasModified(b, k) || Writes(op, k)
    ensures HoldsNil(Step(b, op, net).0, k) <==>
            if Writes(op, k) then op.Put? && op.value.None? else HoldsNil(b, k)
  {
    if Hex.HexOf(k) == Hex.HexOf(op.key) {
      Hex.HexOfInjective(k, op.key);
    }
  }

  /** The modified entries are those of the written keys; the ones holding nil are those of the pending nil Puts. */
  lemma {:induction false} RunTracksWrites(ops: seq<Op>, nets: seq<Option<Store>>, k: Bytes)
    requires |nets| == |ops|
    ensures HasModified(Run(ops, nets).0, k) <==> Written(ops, k)
    ensures HoldsNil(Run(ops, nets).0, k) <==> NilPending(ops, |ops|, k)
  {
    if ops != [] {
      var n := |ops| - 1;
      RunTracksWrites(ops[..n], nets[..n], k);
      NilPendingPrefix(ops, n, n, k);
      StepTracksWrites(Run(ops[..n], nets[..n]).0, ops[n], nets[n], k);
      WrittenSnoc(ops[..n], ops[n], k);
      assert ops[..n] + [ops[n]] == ops;
    }
  }

  lemma {:induction false} RunAnswersAt(ops: seq<Op>, nets: seq<Option<Store>>, i: nat)
    requires |nets| == |ops| && i < |ops|
    ensures Run(ops, nets).1[i] == Step(Run(ops[..i], nets[..i]).0, ops[i], nets[i]).1
  {
    if i < |ops| - 1 {
      var n := |ops| - 1;
      RunAnswersAt(ops[..n], nets[..n], i);
      assert ops[..n][..i] == ops[..i] && nets[..n][..i] == nets[..i];
    }
  }

  lemma {:induction false} DirectAnswersAt(ops: seq<Op>, m: Contents, i: nat)
    requires i < |ops|
    ensures Direct(ops, m).1[i] == DirectStep(Direct(ops[..i], m).0, ops[i]).1
  {
    if i < |ops| - 1 {
      var n := |ops| - 1;
      DirectAnswersAt(ops[..n], m, i);
      assert ops[..n][..i] == ops[..i];
    }
  }

  /** Position i of both runs: the answers, and the buffer the operation leaves behind. */
  lemma AnswersAt(ops: seq<Op>, nets: seq<Option<Store>>, m: Contents, i: nat)
    requires |nets| == |ops| && i < |ops|
    ensures Run(ops, nets).1[i] == Step(Run(ops[..i], nets[..i]).0, ops[i], nets[i]).1
    ensures Direct(ops, m).1[i] == DirectStep(Direct(ops[..i], m).0, ops[i]).1
    ensures Run(ops[..i + 1], nets[..i + 1]).0 == Step(Run(ops[..i], nets[..i]).0, ops[i], nets[i]).0
  {
    RunAnswersAt(ops, nets, i);
    DirectAnswersAt(ops, m, i);
    assert ops[..i + 1][..i] == ops[..i] && nets[..i + 1][..i] == nets[..i];
  }

  /** A failed request promises nothing; every other answer is the direct one. */
  ghost predicate SameAnswers(got: seq<Answer>, want: seq<Answer>) {
    |got| == |want| && forall i :: 0 <= i < |got| ==> got[i].Failed? || got[i] == want[i]
  }

  /** What position i recorded about a written key is what the server checked at commit. */
  lemma ValidatedEvidence(ops: seq<Op>, nets: seq<Option<Store>>, c: Store, mods: seq<Modification>, i: nat, k: Bytes)
    requires |nets| == |ops| && i <= |ops|
    requires IsListing(mods, Run(ops, nets).0) && AcceptsAll(c, mods)
    requires Written(ops, k)
    requires Hex.HexOf(k) in Run(ops[..i], nets[..i]).0
    ensures var e := Run(ops[..i], nets[..i]).0[Hex.HexOf(k)];
            !e.control.notRead ==>
              if e.control.nonExisting then k !in c else k in c && c[k].version == e.versionRead
  {
    RunKeepsEvidence(ops, nets, i, k);
    RunTracksWrites(ops, nets, k);
    RunMirrors(ops, nets, map[], k);
    assert Lists(mods, Hex.HexOf(k));
    var p :| 0 <= p < |mods| && Hex.HexOf(mods[p].key) == Hex.HexOf(k);
    assert Accepts(c, mods[p]);
  }

  /** One read: the entry it leaves behind was checked at commit, so its answer is the direct one. */
  lemma ReadAgrees(b: Buffer, op: Op, net: Option<Store>, c: Store, d: Contents)
    requires op.Get? && Hex.HexOf(op.key) in Step(b, op, net).0
    requires Mirrors(b, ContentsOf(c), d, op.key)
    requires Faithful(Step(b, op, net).0, c, op.key)
    requires !HoldsNil(b, op.key)
    requires var e := Step(b, op, net).0[Hex.HexOf(op.key)];
             !e.control.notRead ==>
               if e.control.nonExisting then op.key !in c else op.key in c && c[op.key].version == e.versionRead
    ensures Step(b, op, net).1 == DirectStep(d, op).1
  {
  }

  lemma AnswerAgrees(ops: seq<Op>, nets: seq<Option<Store>>, c: Store, mods: seq<Modification>, i: nat)
    requires |nets| == |ops| && i < |ops|
    requires Consistent(nets, c)
    requires IsListing(mods, Run(ops, nets).0) && AcceptsAll(c, mods)
    requires ReadsAreWritten(ops) && NilNeverReadBack(ops)
    ensures var a := Run(ops, nets).1[i]; a.Failed? || a == Direct(ops, ContentsOf(c)).1[i]
  {
    var m := ContentsOf(c);
    AnswersAt(ops, nets, m, i);
    var b, k := Run(ops[..i], nets[..i]).0, ops[i].key;
    if ops[i].Get? && Hex.HexOf(k) in Step(b, ops[i], nets[i]).0 {
      RunMirrors(ops[..i], nets[..i], m, k);
      RunTracksWrites(ops[..i], nets[..i], k);
      NilPendingPrefix(ops, i, i, k);
      RunFaithful(ops[..i + 1], nets[..i + 1], c, k);
      ValidatedEvidence(ops, nets, c, mods, i + 1, k);
      ReadAgrees(b, ops[i], nets[i], c, Direct(ops[..i], m).0);
    }
  }

  // ---------- the exact condition ----------

  /** One server history nets with store c at commit: if c accepts the transaction, it ran serially on c. */
  ghost predicate CommitsSerially(ops: seq<Op>, nets: seq<Option<Store>>, c: Store, mods: seq<Modification>)
    requires |nets| == |ops|
  {
    Consistent(nets, c) && IsListing(mods, Run(ops, nets).0) && AcceptsAll(c, mods) ==>
      && ApplyAll(ContentsOf(c), mods) == Direct(ops, ContentsOf(c)).0
      && SameAnswers(Run(ops, nets).1, Direct(ops, ContentsOf(c)).1)
  }

  /** Whatever the server's history, a commit it accepts is a serial execution at commit time. */
  ghost predicate Serialisable(ops: seq<Op>) {
    forall nets: seq<Option<Store>>, c: Store, mods: seq<Modification> ::
      |nets| == |ops| ==> CommitsSerially(ops, nets, c, mods)
  }

  lemma CoveredIsSerialisable(ops: seq<Op>)
    requires ReadsAreWritten(ops) && NilNeverReadBack(ops)
    ensures Serialisable(ops)
  {
    forall nets: seq<Option<Store>>, c: Store, mods: seq<Modification> | |nets| == |ops|
      ensures CommitsSerially(ops, nets, c, mods)
    {
      if Consistent(nets, c) && IsListing(mods, Run(ops, nets).0) && AcceptsAll(c, mods) {
        CommitEqualsReplay(ops, nets, ContentsOf(c), mods);
        forall i | 0 <= i < |ops|
          ensures Run(ops, nets).1[i].Failed? || Run(ops, nets).1[i] == Direct(ops, ContentsOf(c)).1[i]
        {
          AnswerAgrees(ops, nets, c, mods, i);
        }
      }
    }
  }

  // ---------- the condition is needed ----------

  /** Every buffer reached by operations has a listing of its modifications. */
  ghost predicate Keyed(b: Buffer) {
    forall h :: h in b ==> h == Hex.HexOf(b[h].key)
  }

  lemma {:induction false} RunKeyed(ops: seq<Op>, nets: seq<Option<Store>>)
    requires |nets| == |ops|
    ensures Keyed(Run(ops, nets).0)
  {
    if ops != [] {
      var n := |ops| - 1;
      RunKeyed(ops[..n], nets[..n]);
    }
  }

  lemma {:induction false} ListingExists(b: Buffer) returns (mods: seq<Modification>)
    requires Keyed(b)
    ensures IsListing(mods, b)
    decreases |b|
  {
    if |b| == 0 {
      mods := [];
    } else {
      var h :| h in b;
      var rest := b - {h};
      assert rest[h := b[h]] == b;
      var tail := ListingExists(rest);
      ListingStep(tail, rest, h, b[h]);
      mods := if b[h].modified then tail + [ModificationOf(b[h])] else tail;
    }
  }

  /** On an empty server every entry is blind or read as absent. */
  ghost predicate OnlyMisses(b: Buffer) {
    forall h :: h in b ==> b[h].control.notRead || b[h].control.nonExisting
  }

  function EmptyServer(n: nat): seq<Option<Store>> {
    seq(n, _ => Some(map[]))
  }

  lemma {:induction false} RunOnEmptyServer(ops: seq<Op>)
    ensures OnlyMisses(Run(ops, EmptyServer(|ops|)).0)
  {
    if ops != [] {
      var n := |ops| - 1;
      assert EmptyServer(|ops|)[..n] == EmptyServer(n);
      RunOnEmptyServer(ops[..n]);
    }
  }

  /**
   * The key is absent whenever the transaction looks and present at commit: nothing it sends is about this
   * key, so nothing validates it, and the read is stale.
   */
  lemma ReadOnlyKeyIsStale(ops: seq<Op>, i: nat) returns (c: Store)
    requires i < |ops| && ops[i].Get? && !Written(ops, ops[i].key)
    ensures c.Keys == {ops[i].key}
    ensures Run(ops, EmptyServer(|ops|)).1[i] == Absent
    ensures Direct(ops, ContentsOf(c)).1[i].Present?
  {
    var k := ops[i].key;
    c := map[k := Cell(Content([], 0, 0), 0)];
    var nets, m := EmptyServer(|ops|), ContentsOf(c);
    assert nets[..i] == EmptyServer(i);
    AnswersAt(ops, nets, m, i);
    RunTracksWrites(ops[..i], nets[..i], k);
    RunMirrors(ops[..i], nets[..i], m, k);
    RunOnEmptyServer(ops[..i]);
    assert !Written(ops[..i], k) by {
      assert forall j :: 0 <= j < i ==> ops[..i][j] == ops[j];
    }
  }

  /** On an empty server the buffer answers "not found" where the server has stored the empty value. */
  lemma NilReadsAsMissing(ops: seq<Op>, i: nat)
    requires i < |ops| && ops[i].Get? && NilPending(ops, i, ops[i].key)
    ensures Run(ops, EmptyServer(|ops|)).1[i] == Absent
    ensures Direct(ops, map[]).1[i].Present?
  {
    var k := ops[i].key;
    var nets := EmptyServer(|ops|);
    AnswersAt(ops, nets, map[], i);
    NilPendingPrefix(ops, i, i, k);
    RunTracksWrites(ops[..i], nets[..i], k);
    RunMirrors(ops[..i], nets[..i], map[], k);
  }

  /** A server that is empty until commit accepts the transaction as long as no written key has appeared. */
  lemma MissesAccepted(b: Buffer, c: Store, mods: seq<Modification>)
    requires IsListing(mods, b) && OnlyMisses(b)
    requires forall k :: k in c ==> !HasModified(b, k)
    ensures AcceptsAll(c, mods)
  {
  }

  lemma UnwrittenAreUnmodified(ops: seq<Op>, nets: seq<Option<Store>>, c: Store)
    requires |nets| == |ops|
    requires forall k :: k in c ==> !Written(ops, k)
    ensures forall k :: k in c ==> !HasModified(Run(ops, nets).0, k)
  {
    forall k | k in c
      ensures !HasModified(Run(ops, nets).0, k)
    {
      RunTracksWrites(ops, nets, k);
    }
  }

  lemma UncoveredIsNotSerialisable(ops: seq<Op>, i: nat)
    requires i < |ops| && ops[i].Get?
    requires !Written(ops, ops[i].key) || NilPending(ops, i, ops[i].key)
    ensures !Serialisable(ops)
  {
    var nets := EmptyServer(|ops|);
    RunKeyed(ops, nets);
    var mods := ListingExists(Run(ops, nets).0);
    var c: Store := map[];
    if Written(ops, ops[i].key) {
      NilReadsAsMissing(ops, i);
      assert ContentsOf(c) == map[];
    } else {
      c := ReadOnlyKeyIsStale(ops, i);
    }
    RunOnEmptyServer(ops);
    UnwrittenAreUnmodified(ops, nets, c);
    MissesAccepted(Run(ops, nets).0, c, mods);
    assert Consistent(nets, c);
    assert !CommitsSerially(ops, nets, c, mods);
  }

  /** The exact condition, readable off the operations alone. */
  lemma SerialisableIff(ops: seq<Op>)
    ensures Serialisable(ops) <==> ReadsAreWritten(ops) && NilNeverReadBack(ops)
  {
    if ReadsAreWritten(ops) && NilNeverReadBack(ops) {
      CoveredIsSerialisable(ops);
    } else {
      var i :| 0 <= i < |ops| && ops[i].Get? && (!Written(ops, ops[i].key) || NilPending(ops, i, ops[i].key));
      UncoveredIsNotSerialisable(ops, i);
    }
  }
}
