/**
 * The prepare request (internal/operation/transaction.go): the client's writer, and a reference decoder that
 * shows every body has one reading.
 */
module Prepare {
  import opened Wrappers
  import opened Words
  import opened Varint
  import opened Wire
  import opened Streams
  import opened TimeUnits
  import T = TxModel

  datatype Request = Request(formatID: int32, globalTxID: Bytes, branchQual: Bytes, onePhaseCommit: bool,
                             timeoutMs: int64, modifications: seq<T.Modification>)

  function PrintModification(m: T.Modification): Bytes {
    PrintLP(m.key) + ([m.control.ToByte()] + (PrintVersion(m) + PrintContent(m)))
  }

  /** Only a modification of a key that was read and found carries the version it read. */
  predicate CarriesVersion(c: T.Control) {
    !c.nonExisting && !c.notRead
  }

  function PrintVersion(m: T.Modification): Bytes {
    if CarriesVersion(m.control) then PrintLong(m.versionRead) else []
  }

  function PrintContent(m: T.Modification): Bytes {
    if m.control.removeOp then [] else PrintTimeUnits(m.lifespan, m.maxIdle) + PrintLP(T.WireValue(m.value))
  }

  function PrintModifications(mods: seq<T.Modification>): Bytes {
    if mods == [] then [] else PrintModification(mods[0]) + PrintModifications(mods[1..])
  }

  function PrintXid(r: Request): Bytes {
    PrintSignedVInt(r.formatID) + (PrintLP(r.globalTxID) + PrintLP(r.branchQual))
  }

  function PrintBody(r: Request): Bytes {
    PrintXid(r) + ([if r.onePhaseCommit then 1 else 0] + ([0] + (PrintLong(r.timeoutMs) +
    (PrintCount(|r.modifications|) + PrintModifications(r.modifications)))))
  }

  // ---------- what the server can tell from the bytes ----------

  datatype Write = Write(lifespan: Expiration, maxIdle: Expiration, value: Bytes)

  /** A modification as received: its key, its control bits, the version if sent, and what to store if anything. */
  datatype Received = Received(key: Bytes, control: T.Control, version: Option<int64>, write: Option<Write>)

  datatype Prepared = Prepared(formatID: int32, globalTxID: Bytes, branchQual: Bytes, onePhase: byte, recoverable: byte,
                               timeoutMs: int64, modifications: seq<Received>)

  function ReceivedFrom(m: T.Modification): Received {
    Received(m.key, m.control,
             if CarriesVersion(m.control) then Some(m.versionRead) else None,
             if m.control.removeOp then None
             else Some(Write(Meaning(m.lifespan), Meaning(m.maxIdle), T.WireValue(m.value))))
  }

  function AllReceived(mods: seq<T.Modification>): seq<Received> {
    if mods == [] then [] else [ReceivedFrom(mods[0])] + AllReceived(mods[1..])
  }

  function PreparedFrom(r: Request): Prepared {
    Prepared(r.formatID, r.globalTxID, r.branchQual, if r.onePhaseCommit then 1 else 0, 0, r.timeoutMs,
             AllReceived(r.modifications))
  }

  function ParseWrite(s: Bytes): Parsed<Option<Write>> {
    var (times, s1) :- ParseTimeUnits(s);
    var (value, s2) :- ParseLP(s1);
    Ok(Some(Write(times.0, times.1, value)), s2)
  }

  function ParseVersion(s: Bytes): Parsed<Option<int64>> {
    var (v, s1) :- ParseLong(s);
    Ok(Some(v), s1)
  }

  /** The control bits decide what follows. */
  function ParseModification(s: Bytes): Parsed<Received> {
    var (key, s1) :- ParseLP(s);
    var (bits, s2) :- ParseU1(s1);
    var c := T.Control(HasBit(bits, 1), HasBit(bits, 2), HasBit(bits, 4));
    var (version, s3) :- if !HasBit(bits, 1) && !HasBit(bits, 2) then ParseVersion(s2) else Ok(None, s2);
    var (write, s4) :- if c.removeOp then Ok(None, s3) else ParseWrite(s3);
    Ok(Received(key, c, version, write), s4)
  }

  function ParseModifications(s: Bytes, n: nat): Parsed<seq<Received>>
    decreases n
  {
    if n == 0 then Ok([], s)
    else
      var (m, s1) :- ParseModification(s);
      Prepend([m], ParseModifications(s1, n - 1))
  }

  function ParseBody(s: Bytes): Parsed<Prepared> {
    var (formatID, s1) :- ParseSignedVInt(s);
    var (globalTxID, s2) :- ParseLP(s1);
    var (branchQual, s3) :- ParseLP(s2);
    var (onePhase, s4) :- ParseU1(s3);
    var (recoverable, s5) :- ParseU1(s4);
    var (timeoutMs, s6) :- ParseLong(s5);
    var (n, s7) :- ParseVInt(s6);
    if n < 0 then Fail(NegativeLength, s7)
    else
      var (mods, s8) :- ParseModifications(s7, n);
      Ok(Prepared(formatID, globalTxID, branchQual, onePhase, recoverable, timeoutMs, mods), s8)
  }

  ghost predicate Sendable(mods: seq<T.Modification>) {
    forall i :: 0 <= i < |mods| ==> Fits(mods[i].key) && Fits(T.WireValue(mods[i].value))
  }

  lemma ControlBits(c: T.Control)
    ensures HasBit(c.ToByte(), 1) == c.notRead && HasBit(c.ToByte(), 2) == c.nonExisting
    ensures HasBit(c.ToByte(), 4) == c.removeOp
  {
  }

  lemma WriteRoundTrip(m: T.Modification, tail: Bytes)
    requires !m.control.removeOp && Fits(T.WireValue(m.value))
    ensures ParseWrite(PrintContent(m) + tail) == Ok(ReceivedFrom(m).write, tail)
  {
    Join(PrintTimeUnits(m.lifespan, m.maxIdle), PrintLP(T.WireValue(m.value)), tail);
    TimeUnitsRoundTrip(m.lifespan, m.maxIdle, PrintLP(T.WireValue(m.value)) + tail);
    LPRoundTrip(T.WireValue(m.value), tail);
  }

  lemma ModificationRoundTrip(m: T.Modification, tail: Bytes)
    requires Fits(m.key) && Fits(T.WireValue(m.value))
    ensures ParseModification(PrintModification(m) + tail) == Ok(ReceivedFrom(m), tail)
  {
    var s3 := PrintContent(m) + tail;
    var s2 := PrintVersion(m) + s3;
    var s1 := [m.control.ToByte()] + s2;
    Join(PrintLP(m.key), [m.control.ToByte()] + (PrintVersion(m) + PrintContent(m)), tail);
    Join([m.control.ToByte()], PrintVersion(m) + PrintContent(m), tail);
    Join(PrintVersion(m), PrintContent(m), tail);
    LPRoundTrip(m.key, s1);
    U1RoundTrip(m.control.ToByte(), s2);
    ControlBits(m.control);
    if CarriesVersion(m.control) {
      LongRoundTrip(m.versionRead, s3);
    } else {
      assert s2 == s3;
    }
    if m.control.removeOp {
      assert s3 == tail;
    } else {
      WriteRoundTrip(m, tail);
    }
  }

  lemma {:induction false} ModificationsRoundTrip(mods: seq<T.Modification>, tail: Bytes)
    requires Sendable(mods)
    ensures ParseModifications(PrintModifications(mods) + tail, |mods|) == Ok(AllReceived(mods), tail)
  {
    if mods == [] {
      assert PrintModifications(mods) + tail == tail;
    } else {
      var s1 := PrintModifications(mods[1..]) + tail;
      Join(PrintModification(mods[0]), PrintModifications(mods[1..]), tail);
      ModificationRoundTrip(mods[0], s1);
      ModificationsRoundTrip(mods[1..], tail);
    }
  }

  lemma BodyStep(s: Bytes, p: Prepared, n: nat, s1: Bytes, s2: Bytes, s3: Bytes, s4: Bytes, s5: Bytes, s6: Bytes,
                 s7: Bytes, s8: Bytes)
    requires ParseSignedVInt(s) == Ok(p.formatID, s1) && ParseLP(s1) == Ok(p.globalTxID, s2)
    requires ParseLP(s2) == Ok(p.branchQual, s3) && ParseU1(s3) == Ok(p.onePhase, s4)
    requires ParseU1(s4) == Ok(p.recoverable, s5) && ParseLong(s5) == Ok(p.timeoutMs, s6)
    requires n < TWO_31 && ParseVInt(s6) == Ok(n, s7) && ParseModifications(s7, n) == Ok(p.modifications, s8)
    ensures ParseBody(s) == Ok(p, s8)
  {
  }

  /** Every prepare body is read back as its request, whatever follows it. */
  lemma PrepareRoundTrip(r: Request, tail: Bytes)
    requires Fits(r.globalTxID) && Fits(r.branchQual) && |r.modifications| < TWO_31 && Sendable(r.modifications)
    ensures ParseBody(PrintBody(r) + tail) == Ok(PreparedFrom(r), tail)
  {
    var mods := PrintModifications(r.modifications);
    var count := PrintCount(|r.modifications|);
    var onePhase: byte := if r.onePhaseCommit then 1 else 0;
    var s7 := mods + tail;
    var s6 := count + s7;
    var s5 := PrintLong(r.timeoutMs) + s6;
    var s4 := [0] + s5;
    var s3 := [onePhase] + s4;
    var s2 := PrintLP(r.branchQual) + s3;
    var s1 := PrintLP(r.globalTxID) + s2;
    Join(PrintXid(r), [onePhase] + ([0] + (PrintLong(r.timeoutMs) + (count + mods))), tail);
    Join([onePhase], [0] + (PrintLong(r.timeoutMs) + (count + mods)), tail);
    Join([0], PrintLong(r.timeoutMs) + (count + mods), tail);
    Join(PrintLong(r.timeoutMs), count + mods, tail);
    Join(count, mods, tail);
    Join(PrintSignedVInt(r.formatID), PrintLP(r.globalTxID) + PrintLP(r.branchQual), s3);
    Join(PrintLP(r.globalTxID), PrintLP(r.branchQual), s3);
    SignedVIntRoundTrip(r.formatID, s1);
    LPRoundTrip(r.globalTxID, s2);
    LPRoundTrip(r.branchQual, s3);
    U1RoundTrip(onePhase, s4);
    U1RoundTrip(0, s5);
    LongRoundTrip(r.timeoutMs, s6);
    CountRoundTrip(|r.modifications|, s7);
    ModificationsRoundTrip(r.modifications, tail);
    BodyStep(PrintBody(r) + tail, PreparedFrom(r), |r.modifications|, s1, s2, s3, s4, s5, s6, s7, tail);
  }

  /** Two requests with the same bytes, even inside longer streams, are the same prepare to the server. */
  lemma PrepareUnique(q: Request, r: Request, s: Bytes, t: Bytes)
    requires Fits(q.globalTxID) && Fits(q.branchQual) && |q.modifications| < TWO_31 && Sendable(q.modifications)
    requires Fits(r.globalTxID) && Fits(r.branchQual) && |r.modifications| < TWO_31 && Sendable(r.modifications)
    requires PrintBody(q) + s == PrintBody(r) + t
    ensures PreparedFrom(q) == PreparedFrom(r) && s == t
  {
    PrepareRoundTrip(q, s);
    PrepareRoundTrip(r, t);
  }

  /** The server's validation needs no more than what it received. */
  predicate AcceptsReceived(c: T.Store, m: Received) {
    if m.control.notRead then true
    else if m.control.nonExisting then m.key !in c
    else m.key in c && m.version == Some(c[m.key].version)
  }

  lemma ValidationSurvivesTheWire(c: T.Store, m: T.Modification)
    ensures AcceptsReceived(c, ReceivedFrom(m)) == T.Accepts(c, m)
  {
  }

  // ---------- the client's writer ----------

  method WriteContent(w: Writer, m: T.Modification)
    modifies w
    ensures w.out == old(w.out) + PrintContent(m)
  {
    if !m.control.removeOp {
      WriteTimeUnits(w, m.lifespan, m.maxIdle);
      w.WriteLPBytes(T.WireValue(m.value));
    }
  }

  method WriteModification(w: Writer, m: T.Modification)
    modifies w
    ensures w.out == old(w.out) + PrintModification(m)
  {
    w.WriteLPBytes(m.key);
    w.Write([m.control.ToByte()]);
    label versionStep:
    if !m.control.nonExisting && !m.control.notRead {
      w.WriteLong(m.versionRead);
    }
    assert w.out == old@versionStep(w.out) + PrintVersion(m);
    WriteContent(w, m);
    Chain(old(w.out), PrintLP(m.key), [m.control.ToByte()], PrintVersion(m), PrintContent(m));
  }

  method WriteXid(w: Writer, r: Request)
    modifies w
    ensures w.out == old(w.out) + PrintXid(r)
  {
    w.WriteVInt(ToInt32(ZigZag(r.formatID)));
    w.WriteLPBytes(r.globalTxID);
    w.WriteLPBytes(r.branchQual);
  }

  lemma PrintModificationsFrom(mods: seq<T.Modification>, i: nat)
    requires i < |mods|
    ensures PrintModifications(mods[i..]) == PrintModification(mods[i]) + PrintModifications(mods[i + 1..])
  {
    assert mods[i..][0] == mods[i] && mods[i..][1..] == mods[i + 1..];
  }

  method WriteModifications(w: Writer, mods: seq<T.Modification>)
    modifies w
    ensures w.out == old(w.out) + PrintModifications(mods)
  {
    assert mods[0..] == mods;
    for i := 0 to |mods|
      invariant old(w.out) + PrintModifications(mods) == w.out + PrintModifications(mods[i..])
    {
      PrintModificationsFrom(mods, i);
      Join(w.out, PrintModification(mods[i]), PrintModifications(mods[i + 1..]));
      WriteModification(w, mods[i]);
    }
  }

  method WriteHead(w: Writer, r: Request)
    modifies w
    ensures w.out == old(w.out) + PrintXid(r) + [if r.onePhaseCommit then 1 else 0] + [0] + PrintLong(r.timeoutMs)
  {
    WriteXid(w, r);
    w.Write([if r.onePhaseCommit then 1 else 0]);
    w.Write([0]);
    w.WriteLong(r.timeoutMs);
  }

  method WriteBody(w: Writer, r: Request)
    modifies w
    ensures w.out == old(w.out) + PrintBody(r)
  {
    WriteHead(w, r);
    ghost var head := w.out;
    w.WriteVInt(ToInt32(|r.modifications| % TWO_32));
    WriteModifications(w, r.modifications);
    ghost var count, mods := PrintCount(|r.modifications|), PrintModifications(r.modifications);
    Join(head, count, mods);
    ghost var onePhase: byte := if r.onePhaseCommit then 1 else 0;
    Chain(old(w.out) + PrintXid(r), [onePhase], [0], PrintLong(r.timeoutMs), count + mods);
    Join(old(w.out), PrintXid(r), [onePhase] + ([0] + (PrintLong(r.timeoutMs) + (count + mods))));
  }
}
