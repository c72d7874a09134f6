/**
 * Base-128 integers (internal/codec/varint.go, and the uvarints of internal/protostream/wrapped.go): seven
 * bits a byte, least significant group first. The client's shifts and masks on unsigned words are written as
 * division and remainder; each OR puts a group above the bits already there, which is addition.
 */
module Varint {
  import opened Words

  datatype Error = EndOfStream | TooManyBytes | BadMagic | NegativeLength

  /** A parser's outcome together with the bytes it leaves unread. */
  datatype Parsed<+T> = Ok(value: T, rest: Bytes) | Fail(error: Error, rest: Bytes) {
    predicate IsFailure() {
      Fail?
    }

    function PropagateFailure<U>(): Parsed<U>
      requires Fail?
    {
      Fail(error, rest)
    }

    function Extract(): (T, Bytes)
      requires Ok?
    {
      (value, rest)
    }
  }

  /** The shortest encoding of u. */
  function Print(u: nat): (b: Bytes)
    ensures |b| >= 1
  {
    if u < 0x80 then [u] else [u % 0x80 + 0x80] + Print(u / 0x80)
  }

  /** At most `budget` groups; a byte below 0x80 ends the number. */
  function Parse(s: Bytes, budget: nat): (p: Parsed<nat>)
    ensures |p.rest| <= |s|
  {
    if budget == 0 then Fail(TooManyBytes, s)
    else if s == [] then Fail(EndOfStream, [])
    else if s[0] < 0x80 then Ok(s[0], s[1..])
    else
      var (v, rest) :- Parse(s[1..], budget - 1);
      Ok(s[0] - 0x80 + 0x80 * v, rest)
  }

  /** One more group of a number read so far, the rest of which is v. */
  lemma GroupPlace(result: nat, place: nat, b: byte, v: nat)
    ensures b < 0x80 ==> result + place * b == result + place * (b % 0x80)
    ensures b >= 0x80 ==> result + place * (b - 0x80 + 0x80 * v) == result + place * (b % 0x80) + place * 0x80 * v
  {
    if b >= 0x80 {
      assert b % 0x80 == b - 0x80;
      assert place * (b - 0x80 + 0x80 * v) == place * (b - 0x80) + place * (0x80 * v);
      assert place * (0x80 * v) == place * 0x80 * v;
    }
  }

  function Pow128(n: nat): (p: nat)
    ensures p >= 1
  {
    if n == 0 then 1 else 0x80 * Pow128(n - 1)
  }

  lemma {:induction false} PrintLength(u: nat, n: nat)
    ensures |Print(u)| <= n + 1 <==> u < Pow128(n + 1)
  {
    if n == 0 {
      if u >= 0x80 {
        assert Print(u)[1..] == Print(u / 0x80);
      }
      assert Pow128(1) == 0x80;
    } else {
      assert Pow128(n + 1) == 0x80 * Pow128(n);
      assert 0x80 <= Pow128(n + 1);
      if u >= 0x80 {
        PrintLength(u / 0x80, n - 1);
      }
    }
  }

  /** Reading a printed number gives it back and leaves what follows, given room for its bytes. */
  lemma {:induction false} ParsePrint(u: nat, budget: nat, tail: Bytes)
    requires |Print(u)| <= budget
    ensures Parse(Print(u) + tail, budget) == Ok(u, tail)
  {
    var s := Print(u) + tail;
    if u < 0x80 {
      assert s[1..] == tail;
    } else {
      assert s[1..] == Print(u / 0x80) + tail;
      ParsePrint(u / 0x80, budget - 1, tail);
    }
  }

  /** The encoding is prefix-free: two printed numbers followed by anything are equal only as numbers and tails. */
  lemma PrefixFree(u: nat, v: nat, s: Bytes, t: Bytes)
    requires Print(u) + s == Print(v) + t
    ensures u == v && s == t
  {
    ParsePrint(u, |Print(u)| + |Print(v)|, s);
    ParsePrint(v, |Print(u)| + |Print(v)|, t);
  }

  /** No other byte string of the same length or shorter reads as the same number. */
  lemma {:induction false} Minimal(s: Bytes, budget: nat)
    requires Parse(s, budget).Ok?
    ensures |s| - |Parse(s, budget).rest| >= |Print(Parse(s, budget).value)|
  {
    if s[0] >= 0x80 {
      Minimal(s[1..], budget - 1);
      var v := Parse(s[1..], budget - 1).value;
      var u := s[0] - 0x80 + 0x80 * v;
      if u >= 0x80 {
        assert u / 0x80 == v;
      }
    }
  }
}
