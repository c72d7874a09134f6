/**
 * What the unwrap functions (internal/protostream/wrapped.go) make of any bytes at all: which fields they refuse, which
 * one decides, and how malformed data ends.
 */
module Unwrapping {
  import opened Wrappers
  import opened Words
  import opened Protobuf
  import opened Wrapped

  /** The field with this number behind which there is no other. */
  predicate IsLast(fields: seq<Field>, j: nat, number: nat) {
    j < |fields| && fields[j].number == number && forall k :: j < k < |fields| ==> fields[k].number != number
  }

  /** A field that must be length-delimited and is not. */
  predicate Mistyped(f: Field, number: nat) {
    f.number == number && f.wireType != 2
  }

  ghost predicate AnyMistyped(fields: seq<Field>, number: nat) {
    exists i :: 0 <= i < |fields| && Mistyped(fields[i], number)
  }

  /** The last field with the number, if there is one, else what was there before. */
  ghost predicate LastWins(fields: seq<Field>, number: nat, before: Option<Bytes>, after: Option<Bytes>) {
    && (forall j: nat :: IsLast(fields, j, number) ==> after == Some(fields[j].value))
    && ((forall j :: 0 <= j < |fields| ==> fields[j].number != number) ==> after == before)
  }

  lemma LastWinsMore(fields: seq<Field>, number: nat, before: Option<Bytes>, mid: Option<Bytes>, after: Option<Bytes>)
    requires fields != [] && LastWins(fields[1..], number, mid, after)
    requires mid == if fields[0].number == number then Some(fields[0].value) else before
    ensures LastWins(fields, number, before, after)
  {
    forall j: nat | IsLast(fields, j, number)
      ensures after == Some(fields[j].value)
    {
      if j > 0 {
        assert forall k :: j - 1 < k < |fields[1..]| ==> fields[1..][k] == fields[k + 1];
        assert IsLast(fields[1..], j - 1, number);
      } else {
        assert forall k :: 0 <= k < |fields[1..]| ==> fields[1..][k] == fields[k + 1];
      }
    }
    if forall j :: 0 <= j < |fields| ==> fields[j].number != number {
      assert forall k :: 0 <= k < |fields[1..]| ==> fields[1..][k] == fields[k + 1];
    }
  }

  lemma MistypedMore(fields: seq<Field>, number: nat)
    requires fields != []
    ensures AnyMistyped(fields, number) <==> Mistyped(fields[0], number) || AnyMistyped(fields[1..], number)
  {
    if AnyMistyped(fields[1..], number) {
      var i :| 0 <= i < |fields[1..]| && Mistyped(fields[1..][i], number);
      assert Mistyped(fields[i + 1], number);
    }
    if AnyMistyped(fields, number) {
      var i :| 0 <= i < |fields| && Mistyped(fields[i], number);
      assert i > 0 ==> fields[1..][i - 1] == fields[i];
    }
  }

  /** A callback that looks for one length-delimited field. */
  ghost predicate LooksFor(f: (Option<Bytes>, Field) -> Option<Option<Bytes>>, number: nat) {
    forall acc, x :: f(acc, x) ==
      if x.number != number then Some(acc) else if x.wireType != 2 then None else Some(Some(x.value))
  }

  lemma {:induction false} RunFindsLast(f: (Option<Bytes>, Field) -> Option<Option<Bytes>>, number: nat,
                                        acc: Option<Bytes>, fields: seq<Field>)
    requires LooksFor(f, number)
    ensures var r := RunCallback(f, acc, fields);
            && (r.None? <==> AnyMistyped(fields, number))
            && (r.Some? ==> LastWins(fields, number, acc, r.value))
    decreases |fields|
  {
    if fields != [] {
      MistypedMore(fields, number);
      assert f(acc, fields[0]).None? <==> Mistyped(fields[0], number);
      if f(acc, fields[0]).Some? {
        var mid := f(acc, fields[0]).value;
        RunFindsLast(f, number, mid, fields[1..]);
        var r := RunCallback(f, mid, fields[1..]);
        if r.Some? {
          LastWinsMore(fields, number, acc, mid, r.value);
        }
      }
    }
  }

  /** How data ends that one delimited field is looked for in: a refused field comes before anything malformed. */
  ghost predicate FindsDelimited(r: Outcome<Bytes>, data: Bytes, number: nat) {
    var s := Scan(data, 0);
    && (r.Crash? <==> !AnyMistyped(s.fields, number) && s.end == Panic)
    && (r.Good? <==>
          && !AnyMistyped(s.fields, number) && s.end == Done
          && exists j :: 0 <= j < |s.fields| && s.fields[j].number == number)
    && (r.Good? ==> forall j: nat :: IsLast(s.fields, j, number) ==> r.value == s.fields[j].value)
  }

  lemma {:induction false} LastExists(fields: seq<Field>, number: nat, i: nat) returns (j: nat)
    requires i < |fields| && fields[i].number == number
    ensures IsLast(fields, j, number)
    decreases |fields| - i
  {
    if k :| i < k < |fields| && fields[k].number == number {
      j := LastExists(fields, number, k);
    } else {
      j := i;
    }
  }

  lemma FoundIsLast(fields: seq<Field>, number: nat, r: Option<Bytes>)
    requires LastWins(fields, number, None, r)
    ensures r.Some? <==> exists j :: 0 <= j < |fields| && fields[j].number == number
  {
    if i :| 0 <= i < |fields| && fields[i].number == number {
      var j := LastExists(fields, number, i);
    }
  }

  /** A string is field 9 and nothing else, the last one if there are several. */
  lemma UnwrapStringIs(data: Bytes)
    ensures FindsDelimited(UnwrapString(data), data, 9)
  {
    var f: (Option<Bytes>, Field) -> Option<Option<Bytes>> := TakeString;
    var fields := Scan(data, 0).fields;
    RunFindsLast(f, 9, None, fields);
    var r := RunCallback(f, None, fields);
    if r.Some? {
      FoundIsLast(fields, 9, r.value);
    }
  }

  /** A message's bytes are field 17. */
  lemma UnwrapBytesIs(data: Bytes)
    ensures FindsDelimited(UnwrapBytes(data), data, 17)
  {
    var f: (Option<Bytes>, Field) -> Option<Option<Bytes>> := TakeMessage;
    var fields := Scan(data, 0).fields;
    RunFindsLast(f, 17, None, fields);
    var r := RunCallback(f, None, fields);
    if r.Some? {
      FoundIsLast(fields, 17, r.value);
    }
  }

  // ---------- messages with their type names ----------

  lemma {:induction false} RunFindsBoth(acc: Envelope, fields: seq<Field>)
    ensures var r := RunCallback(TakeEnvelope, acc, fields);
            && (r.None? <==> AnyMistyped(fields, 17) || AnyMistyped(fields, 16))
            && (r.Some? ==>
                  LastWins(fields, 17, acc.message, r.value.message) && LastWins(fields, 16, acc.name, r.value.name))
    decreases |fields|
  {
    if fields != [] {
      MistypedMore(fields, 17);
      MistypedMore(fields, 16);
      var next := TakeEnvelope(acc, fields[0]);
      if next.Some? {
        RunFindsBoth(next.value, fields[1..]);
        var r := RunCallback(TakeEnvelope, next.value, fields[1..]);
        if r.Some? {
          LastWinsMore(fields, 17, acc.message, next.value.message, r.value.message);
          LastWinsMore(fields, 16, acc.name, next.value.name, r.value.name);
        }
      }
    }
  }

  /** A message with its type name is fields 17 and 16, and neither may be missing or of another wire type. */
  lemma UnwrapMessageIs(data: Bytes)
    ensures var r, s := UnwrapMessage(data), Scan(data, 0);
            var mistyped := AnyMistyped(s.fields, 17) || AnyMistyped(s.fields, 16);
            && (r.Crash? <==> !mistyped && s.end == Panic)
            && (r.Good? <==>
                  && !mistyped && s.end == Done
                  && (exists j :: 0 <= j < |s.fields| && s.fields[j].number == 17)
                  && (exists j :: 0 <= j < |s.fields| && s.fields[j].number == 16))
            && (r.Good? ==>
                  && (forall j: nat :: IsLast(s.fields, j, 17) ==> r.value.0 == s.fields[j].value)
                  && (forall j: nat :: IsLast(s.fields, j, 16) ==> r.value.1 == s.fields[j].value))
  {
    var fields := Scan(data, 0).fields;
    RunFindsBoth(Envelope(None, None), fields);
    var r := RunCallback(TakeEnvelope, Envelope(None, None), fields);
    if r.Some? {
      FoundIsLast(fields, 17, r.value.message);
      FoundIsLast(fields, 16, r.value.name);
    }
  }

  // ---------- values ----------

  /** The fields of a wrapped value: those with a scalar type, strings, bytes and messages. */
  predicate IsValueField(f: Field) {
    1 <= f.number <= 15 || f.number == 17
  }

  /** Fixed-width numbers must have their width, and the others be varints; the wire type is not looked at. */
  predicate Unreadable(f: Field) {
    || (f.number in {1, 6, 13} && |f.value| != 8)
    || (f.number in {2, 7, 12} && |f.value| != 4)
    || (f.number in {3, 4, 5, 8, 11, 14, 15} && Uvarint(f.value).None?)
  }

  lemma TakesValueIff(acc: Option<Value>, f: Field)
    ensures TakeValue(acc, f).None? <==> Unreadable(f)
    ensures !IsValueField(f) ==> TakeValue(acc, f) == Some(acc)
    ensures IsValueField(f) && !Unreadable(f) ==>
              TakeValue(acc, f) == TakeValue(None, f) && TakeValue(acc, f).value.Some?
  {
  }

  ghost predicate AnyUnreadable(fields: seq<Field>) {
    exists i :: 0 <= i < |fields| && Unreadable(fields[i])
  }

  ghost predicate AnyValue(fields: seq<Field>) {
    exists i :: 0 <= i < |fields| && IsValueField(fields[i])
  }

  lemma AnyMore(fields: seq<Field>)
    requires fields != []
    ensures AnyUnreadable(fields) <==> Unreadable(fields[0]) || AnyUnreadable(fields[1..])
    ensures AnyValue(fields) <==> IsValueField(fields[0]) || AnyValue(fields[1..])
  {
    forall i | 0 <= i < |fields[1..]|
      ensures fields[1..][i] == fields[i + 1]
    {
    }
    if AnyUnreadable(fields) {
      var i :| 0 <= i < |fields| && Unreadable(fields[i]);
      assert i > 0 ==> fields[1..][i - 1] == fields[i];
    }
    if AnyValue(fields) {
      var i :| 0 <= i < |fields| && IsValueField(fields[i]);
      assert i > 0 ==> fields[1..][i - 1] == fields[i];
    }
  }

  lemma {:induction false} RunFindsValue(acc: Option<Value>, fields: seq<Field>)
    ensures var r := RunCallback(TakeValue, acc, fields);
            && (r.None? <==> AnyUnreadable(fields))
            && (r.Some? ==> (r.value.Some? <==> acc.Some? || AnyValue(fields)))
    decreases |fields|
  {
    if fields != [] {
      AnyMore(fields);
      TakesValueIff(acc, fields[0]);
      if TakeValue(acc, fields[0]).Some? {
        RunFindsValue(TakeValue(acc, fields[0]).value, fields[1..]);
      }
    }
  }

  /** Unwrapping succeeds exactly on data that scans to its end, with a value in it and no unreadable one. */
  lemma UnwrapValueIff(data: Bytes)
    ensures var r, s := UnwrapValue(data), Scan(data, 0);
            && (r.Crash? <==> !AnyUnreadable(s.fields) && s.end == Panic)
            && (r.Good? <==> !AnyUnreadable(s.fields) && s.end == Done && AnyValue(s.fields))
  {
    RunFindsValue(None, Scan(data, 0).fields);
  }
}
