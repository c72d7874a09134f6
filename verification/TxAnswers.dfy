/**
 * What a transaction answers, and when its commit is accepted, in terms of its operations and of what the server held
 * when each of them met it (hotrod/transaction.go).
 */
module TxAnswers {
  import opened Wrappers
  import opened Words
  import opened TxModel
  import opened TxProof
  import Hex

  /** Operation j makes the transaction's first acquaintance with the key: a write, or a Get whose request succeeds. */
  ghost predicate Meets(ops: seq<Op>, nets: seq<Option<Store>>, j: nat, k: Bytes)
    requires |nets| == |ops|
  {
    j < |ops| && ops[j].key == k && (!ops[j].Get? || nets[j].Some?)
  }

  ghost predicate MeetsFirst(ops: seq<Op>, nets: seq<Option<Store>>, j: nat, k: Bytes)
    requires |nets| == |ops|
  {
    Meets(ops, nets, j, k) && forall i :: 0 <= i < j ==> !Meets(ops, nets, i, k)
  }

  lemma MeetsPrefix(ops: seq<Op>, nets: seq<Option<Store>>, n: nat, j: nat, k: Bytes)
    requires |nets| == |ops| && j < n <= |ops|
    ensures Meets(ops, nets, j, k) <==> Meets(ops[..n], nets[..n], j, k)
    ensures MeetsFirst(ops, nets, j, k) <==> MeetsFirst(ops[..n], nets[..n], j, k)
  {
    assert forall i :: 0 <= i <= j ==> (Meets(ops, nets, i, k) <==> Meets(ops[..n], nets[..n], i, k));
  }

  /** What the entry of a key records about the operation that met it first. */
  predicate Records(e: Entry, op: Op, net: Option<Store>)
    requires op.Get? ==> net.Some?
  {
    && e.control.notRead == !op.Get?
    && (op.Get? ==>
          && e.control.nonExisting == (op.key !in net.value)
          && (op.key in net.value ==> e.versionRead == net.value[op.key].version))
  }

  /** A key is buffered exactly from its first meeting on, and its entry records that meeting. */
  ghost predicate Acquainted(ops: seq<Op>, nets: seq<Option<Store>>, b: Buffer, k: Bytes)
    requires |nets| == |ops|
  {
    && (Hex.HexOf(k) in b <==> exists j: nat :: Meets(ops, nets, j, k))
    && forall j: nat :: MeetsFirst(ops, nets, j, k) ==> Hex.HexOf(k) in b && Records(b[Hex.HexOf(k)], ops[j], nets[j])
  }

  lemma StepAcquaints(b: Buffer, op: Op, net: Option<Store>, k: Bytes)
    ensures var h, t := Hex.HexOf(k), Step(b, op, net).0;
            && (h in t <==> h in b || (op.key == k && (!op.Get? || net.Some?)))
            && (h !in b && h in t ==> Records(t[h], op, net))
  {
    if Hex.HexOf(k) == Hex.HexOf(op.key) {
      Hex.HexOfInjective(k, op.key);
    }
  }

  lemma AcquaintMore(ops: seq<Op>, nets: seq<Option<Store>>, b: Buffer, t: Buffer, k: Bytes)
    requires |nets| == |ops| > 0
    requires var n := |ops| - 1; Acquainted(ops[..n], nets[..n], b, k)
    requires var n, h := |ops| - 1, Hex.HexOf(k);
             && (h in t <==> h in b || Meets(ops, nets, n, k))
             && (h !in b && h in t ==> Records(t[h], ops[n], nets[n]))
             && KeepsEvidence(b, t, k)
    ensures Acquainted(ops, nets, t, k)
  {
    var n, h := |ops| - 1, Hex.HexOf(k);
    forall j: nat | j < n
      ensures Meets(ops, nets, j, k) <==> Meets(ops[..n], nets[..n], j, k)
      ensures MeetsFirst(ops, nets, j, k) <==> MeetsFirst(ops[..n], nets[..n], j, k)
    {
      MeetsPrefix(ops, nets, n, j, k);
    }
    if h in b {
      var j: nat :| Meets(ops[..n], nets[..n], j, k);
      assert Meets(ops, nets, j, k);
    }
    forall j: nat | MeetsFirst(ops, nets, j, k)
      ensures h in t && Records(t[h], ops[j], nets[j])
    {
      if j < n {
        assert Records(b[h], ops[j], nets[j]);
      }
    }
  }

  lemma {:induction false} RunAcquaints(ops: seq<Op>, nets: seq<Option<Store>>, k: Bytes)
    requires |nets| == |ops|
    ensures Acquainted(ops, nets, Run(ops, nets).0, k)
  {
    if ops != [] {
      var n := |ops| - 1;
      var b := Run(ops[..n], nets[..n]).0;
      RunAcquaints(ops[..n], nets[..n], k);
      StepAcquaints(b, ops[n], nets[n], k);
      StepKeepsEvidence(b, ops[n], nets[n], k);
      AcquaintMore(ops, nets, b, Run(ops, nets).0, k);
    }
  }

  /** Store c has what n had about the key, as far as a commit checks it. */
  predicate StillAsRead(n: Store, c: Store, k: Bytes) {
    if k in n then k in c && c[k].version == n[k].version else k !in c
  }

  /** Every written key that was read first is at commit as that read found it. */
  ghost predicate ReadsStillHold(ops: seq<Op>, nets: seq<Option<Store>>, c: Store)
    requires |nets| == |ops|
  {
    forall j: nat, k ::
      MeetsFirst(ops, nets, j, k) && ops[j].Get? && Written(ops, k) ==> StillAsRead(nets[j].value, c, k)
  }

  lemma {:induction false} FirstMeeting(ops: seq<Op>, nets: seq<Option<Store>>, i: nat, k: Bytes) returns (j: nat)
    requires |nets| == |ops| && Meets(ops, nets, i, k)
    ensures j <= i && MeetsFirst(ops, nets, j, k)
  {
    if p: nat :| p < i && Meets(ops, nets, p, k) {
      j := FirstMeeting(ops, nets, p, k);
    } else {
      j := i;
    }
  }

  lemma EntryOf(ops: seq<Op>, nets: seq<Option<Store>>, mods: seq<Modification>, p: nat) returns (j: nat)
    requires |nets| == |ops| && IsListing(mods, Run(ops, nets).0) && p < |mods|
    ensures Written(ops, mods[p].key) && MeetsFirst(ops, nets, j, mods[p].key)
    ensures Records(Run(ops, nets).0[Hex.HexOf(mods[p].key)], ops[j], nets[j])
  {
    var k := mods[p].key;
    RunTracksWrites(ops, nets, k);
    RunAcquaints(ops, nets, k);
    var i: nat :| Meets(ops, nets, i, k);
    j := FirstMeeting(ops, nets, i, k);
  }

  lemma RejectedIfChanged(ops: seq<Op>, nets: seq<Option<Store>>, c: Store, mods: seq<Modification>, j: nat, k: Bytes)
    requires |nets| == |ops| && IsListing(mods, Run(ops, nets).0) && AcceptsAll(c, mods)
    requires MeetsFirst(ops, nets, j, k) && ops[j].Get? && Written(ops, k)
    ensures StillAsRead(nets[j].value, c, k)
  {
    RunTracksWrites(ops, nets, k);
    RunAcquaints(ops, nets, k);
    RunMirrors(ops, nets, map[], k);
    assert Lists(mods, Hex.HexOf(k));
    var p :| 0 <= p < |mods| && Hex.HexOf(mods[p].key) == Hex.HexOf(k);
    Hex.HexOfInjective(mods[p].key, k);
    assert Accepts(c, mods[p]);
  }

  lemma AcceptedIfKept(ops: seq<Op>, nets: seq<Option<Store>>, c: Store, mods: seq<Modification>, p: nat)
    requires |nets| == |ops| && IsListing(mods, Run(ops, nets).0) && p < |mods|
    requires ReadsStillHold(ops, nets, c)
    ensures Accepts(c, mods[p])
  {
    var j := EntryOf(ops, nets, mods, p);
    if ops[j].Get? {
      assert StillAsRead(nets[j].value, c, mods[p].key);
    }
  }

  /** The server commits exactly if every written key that was read first is still as that read found it. */
  lemma CommitsIff(ops: seq<Op>, nets: seq<Option<Store>>, c: Store, mods: seq<Modification>)
    requires |nets| == |ops| && IsListing(mods, Run(ops, nets).0)
    ensures AcceptsAll(c, mods) <==> ReadsStillHold(ops, nets, c)
  {
    if AcceptsAll(c, mods) {
      forall j: nat, k | MeetsFirst(ops, nets, j, k) && ops[j].Get? && Written(ops, k)
        ensures StillAsRead(nets[j].value, c, k)
      {
        RejectedIfChanged(ops, nets, c, mods, j, k);
      }
    }
    if ReadsStillHold(ops, nets, c) {
      forall p | 0 <= p < |mods|
        ensures Accepts(c, mods[p])
      {
        AcceptedIfKept(ops, nets, c, mods, p);
      }
    }
  }

  lemma NothingListedIff(ops: seq<Op>, nets: seq<Option<Store>>, mods: seq<Modification>)
    requires |nets| == |ops| && IsListing(mods, Run(ops, nets).0)
    ensures mods == [] <==> forall i :: 0 <= i < |ops| ==> ops[i].Get?
  {
    if mods != [] {
      var j := EntryOf(ops, nets, mods, 0);
    } else {
      forall i | 0 <= i < |ops|
        ensures ops[i].Get?
      {
        RunTracksWrites(ops, nets, ops[i].key);
        assert !ops[i].Get? ==> Writes(ops[i], ops[i].key);
      }
    }
  }

  /** A transaction that nobody disturbs commits. */
  lemma UndisturbedCommits(ops: seq<Op>, nets: seq<Option<Store>>, c: Store, mods: seq<Modification>)
    requires |nets| == |ops| && IsListing(mods, Run(ops, nets).0)
    requires forall i :: 0 <= i < |nets| ==> nets[i] == Some(c)
    ensures AcceptsAll(c, mods)
  {
    CommitsIff(ops, nets, c, mods);
  }

  /** Operation j, before position i, is the last write to the key before that. */
  ghost predicate WrittenLast(ops: seq<Op>, i: nat, j: nat, k: Bytes)
    requires i <= |ops|
  {
    j < i && Writes(ops[j], k) && forall p :: j < p < i ==> !Writes(ops[p], k)
  }

  /** What a write makes a later Get of the same transaction answer. */
  function OwnWrite(op: Op): Answer {
    if op.Put? && op.value.Some? then Present(op.value.value) else Absent
  }

  function LookedUp(n: Store, k: Bytes): Answer {
    if k in n then Present(n[k].content.value) else Absent
  }

  /** What a key answers once the operations are done: its last write, or else what its first reading found. */
  ghost predicate Remembers(ops: seq<Op>, nets: seq<Option<Store>>, k: Bytes, a: Answer)
    requires |nets| == |ops|
  {
    && (forall j: nat :: WrittenLast(ops, |ops|, j, k) ==> a == OwnWrite(ops[j]))
    && (!Written(ops, k) ==> forall j: nat :: MeetsFirst(ops, nets, j, k) ==> a == LookedUp(nets[j].value, k))
  }

  lemma StepCaches(b: Buffer, op: Op, net: Option<Store>, k: Bytes)
    ensures var h, t := Hex.HexOf(k), Step(b, op, net).0;
            h in t ==>
              Cached(t[h]) == if Writes(op, k) then OwnWrite(op)
                              else if h in b then Cached(b[h])
                              else if net.Some? then LookedUp(net.value, k) else Absent
  {
    if Hex.HexOf(k) == Hex.HexOf(op.key) {
      Hex.HexOfInjective(k, op.key);
    }
  }

  lemma {:induction false} RunRemembers(ops: seq<Op>, nets: seq<Option<Store>>, k: Bytes)
    requires |nets| == |ops|
    ensures var b := Run(ops, nets).0; Hex.HexOf(k) in b ==> Remembers(ops, nets, k, Cached(b[Hex.HexOf(k)]))
  {
    if ops != [] && Hex.HexOf(k) in Run(ops, nets).0 {
      var n := |ops| - 1;
      RunRemembers(ops[..n], nets[..n], k);
      RunAcquaints(ops[..n], nets[..n], k);
      StepCaches(Run(ops[..n], nets[..n]).0, ops[n], nets[n], k);
      StepAcquaints(Run(ops[..n], nets[..n]).0, ops[n], nets[n], k);
      RememberMore(ops, nets, k, Hex.HexOf(k) in Run(ops[..n], nets[..n]).0,
                   Cached(Run(ops, nets).0[Hex.HexOf(k)]));
    }
  }

  /** One operation more: a write decides, anything else leaves the answer of a key that has been met. */
  lemma RememberMore(ops: seq<Op>, nets: seq<Option<Store>>, k: Bytes, met: bool, a: Answer)
    requires |nets| == |ops| > 0
    requires var n := |ops| - 1; met <==> exists j: nat :: Meets(ops[..n], nets[..n], j, k)
    requires var n := |ops| - 1;
             if Writes(ops[n], k) then a == OwnWrite(ops[n])
             else if met then Remembers(ops[..n], nets[..n], k, a)
             else Meets(ops, nets, n, k) && nets[n].Some? && a == LookedUp(nets[n].value, k)
    ensures Remembers(ops, nets, k, a)
  {
    var n := |ops| - 1;
    assert ops == ops[..n] + [ops[n]];
    WrittenSnoc(ops[..n], ops[n], k);
    forall j: nat | j < n
      ensures Meets(ops, nets, j, k) <==> Meets(ops[..n], nets[..n], j, k)
      ensures MeetsFirst(ops, nets, j, k) <==> MeetsFirst(ops[..n], nets[..n], j, k)
      ensures WrittenLast(ops, n, j, k) <==> WrittenLast(ops[..n], n, j, k)
      ensures Writes(ops[j], k) ==> Meets(ops, nets, j, k)
    {
      MeetsPrefix(ops, nets, n, j, k);
    }
  }

  /** A Get answers what it leaves buffered, and fails if it leaves nothing. */
  lemma StepAnswers(b: Buffer, op: Op, net: Option<Store>)
    requires op.Get?
    ensures var (t, a) := Step(b, op, net); var h := Hex.HexOf(op.key);
            (a.Failed? <==> h !in t) && (h in t ==> a == Cached(t[h]))
  {
  }

  /** The same over the operations up to the Get and over all of them. */
  lemma SeenFromAll(ops: seq<Op>, nets: seq<Option<Store>>, i: nat, k: Bytes, a: Answer)
    requires |nets| == |ops| && i < |ops| && ops[i].Get?
    requires Remembers(ops[..i + 1], nets[..i + 1], k, a)
    ensures forall j: nat :: WrittenLast(ops, i, j, k) ==> a == OwnWrite(ops[j])
    ensures (forall j :: 0 <= j < i ==> !Writes(ops[j], k)) ==>
              forall j: nat :: j <= i && MeetsFirst(ops, nets, j, k) ==> a == LookedUp(nets[j].value, k)
  {
    var before, met := ops[..i + 1], nets[..i + 1];
    forall j: nat | WrittenLast(ops, i, j, k)
      ensures a == OwnWrite(ops[j])
    {
      assert forall p :: j < p < |before| ==> before[p] == ops[p];
      assert WrittenLast(before, |before|, j, k);
    }
    if forall j :: 0 <= j < i ==> !Writes(ops[j], k) {
      assert !Written(before, k);
      forall j: nat | j <= i && MeetsFirst(ops, nets, j, k)
        ensures a == LookedUp(nets[j].value, k)
      {
        MeetsPrefix(ops, nets, i + 1, j, k);
      }
    }
  }

  /**
   * A Get answers with the transaction's own last write to the key; without one, with what the first successful
   * request for the key found; and it fails exactly if neither it nor any operation before it has met the key.
   */
  lemma GetAnswers(ops: seq<Op>, nets: seq<Option<Store>>, i: nat)
    requires |nets| == |ops| && i < |ops| && ops[i].Get?
    ensures var k, a := ops[i].key, Run(ops, nets).1[i];
            && (forall j: nat :: WrittenLast(ops, i, j, k) ==> a == OwnWrite(ops[j]))
            && ((forall j :: 0 <= j < i ==> !Writes(ops[j], k)) ==>
                  forall j: nat :: j <= i && MeetsFirst(ops, nets, j, k) ==> a == LookedUp(nets[j].value, k))
            && (a.Failed? <==> forall j: nat :: j <= i ==> !Meets(ops, nets, j, k))
  {
    var k, a, before, met := ops[i].key, Run(ops, nets).1[i], ops[..i + 1], nets[..i + 1];
    var b := Run(before, met).0;
    AnswersAt(ops, nets, map[], i);
    StepAnswers(Run(ops[..i], nets[..i]).0, ops[i], nets[i]);
    RunAcquaints(before, met, k);
    forall j: nat | j <= i
      ensures Meets(ops, nets, j, k) <==> Meets(before, met, j, k)
    {
      MeetsPrefix(ops, nets, i + 1, j, k);
    }
    if Hex.HexOf(k) in b {
      RunRemembers(before, met, k);
      SeenFromAll(ops, nets, i, k, a);
    } else {
      NothingMet(ops, nets, i, k, a);
    }
  }

  lemma NothingMet(ops: seq<Op>, nets: seq<Option<Store>>, i: nat, k: Bytes, a: Answer)
    requires |nets| == |ops| && i < |ops| && forall j: nat :: j <= i ==> !Meets(ops, nets, j, k)
    ensures forall j: nat :: !WrittenLast(ops, i, j, k)
    ensures forall j: nat :: j <= i ==> !MeetsFirst(ops, nets, j, k)
  {
    assert forall j: nat :: j < i && Writes(ops[j], k) ==> Meets(ops, nets, j, k);
  }

  /** An answer is a failure exactly if a Get's request failed before anything else had met its key. */
  lemma FailsIff(ops: seq<Op>, nets: seq<Option<Store>>, i: nat)
    requires |nets| == |ops| && i < |ops|
    ensures Run(ops, nets).1[i].Failed? <==>
            && ops[i].Get? && nets[i].None?
            && forall j :: 0 <= j < i && ops[j].key == ops[i].key ==> ops[j].Get? && nets[j].None?
  {
    var k := ops[i].key;
    if ops[i].Get? {
      GetAnswers(ops, nets, i);
      assert forall j :: 0 <= j <= i && ops[j].key == k ==>
          (Meets(ops, nets, j, k) <==> !(ops[j].Get? && nets[j].None?));
      if forall j: nat :: j <= i ==> !Meets(ops, nets, j, k) {
        assert !Meets(ops, nets, i, k);
      }
    } else {
      AnswersAt(ops, nets, map[], i);
    }
  }
}
