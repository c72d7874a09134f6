/** Reading and writing a byte stream step by step (internal/codec/varint.go, wire.go). */
module Streams {
  import opened Words
  import opened Varint
  import opened Wire

  /** What a read returns; the bytes it consumed are gone from its reader. */
  datatype Outcome<+T> = Got(value: T) | Err(error: Error) {
    predicate IsFailure() {
      Err?
    }

    function PropagateFailure<U>(): Outcome<U>
      requires Err?
    {
      Err(error)
    }

    function Extract(): T
      requires Got?
    {
      value
    }
  }

  /** A read's outcome with what its reader has left, as a parser would report it. */
  function Seen<T>(o: Outcome<T>, rest: Bytes): Parsed<T> {
    match o
    case Got(v) => Ok(v, rest)
    case Err(e) => Fail(e, rest)
  }

  class Reader {
    var rest: Bytes

    constructor (s: Bytes)
      ensures rest == s
    {
      rest := s;
    }

    /** io.ReadFull: a short stream is consumed to its end. */
    method ReadFull(n: nat) returns (o: Outcome<Bytes>)
      modifies this
      ensures if |old(rest)| < n then o == Err(EndOfStream) && rest == []
              else o == Got(old(rest)[..n]) && rest == old(rest)[n..]
    {
      if |rest| < n {
        rest := [];
        return Err(EndOfStream);
      }
      o := Got(rest[..n]);
      rest := rest[n..];
    }

    method ReadU1() returns (o: Outcome<byte>)
      modifies this
      ensures Seen(o, rest) == ParseU1(old(rest))
    {
      var b :- ReadFull(1);
      o := Got(b[0]);
    }

    method ReadU2() returns (o: Outcome<uint16>)
      modifies this
      ensures match o
              case Got(v) => Ok(v, rest) == ParseFixed(old(rest), 2)
              case Err(e) => Fail(e, rest) == ParseFixed(old(rest), 2)
    {
      var b :- ReadFull(2);
      assert b[..1] == [b[0]] && b[..1][..0] == [];
      assert FixedValue(b[..1]) == b[0];
      var high: int, low: int := b[0], b[1];
      o := Got(high * 0x100 + low);
    }

    method ReadLong() returns (o: Outcome<int64>)
      modifies this
      ensures Seen(o, rest) == ParseLong(old(rest))
    {
      var b :- ReadFull(8);
      var u: nat := 0;
      for i := 0 to 8
        invariant u == FixedValue(b[..i])
      {
        assert b[..i + 1][..i] == b[..i];
        u := u * 0x100 + b[i];
      }
      assert b[..8] == b;
      Widths();
      FixedBound(b);
      o := Got(ToInt64(u));
    }

    /** At most `budget` groups; bits beyond the caller's word are dropped when it converts the result. */
    method ReadGroups(budget: nat) returns (o: Outcome<nat>)
      modifies this
      ensures Seen(o, rest) == Parse(old(rest), budget)
    {
      var result: nat, place: nat := 0, 1;
      for i := 0 to budget
        invariant match Parse(rest, budget - i)
                  case Ok(v, tail) => Parse(old(rest), budget) == Ok(result + place * v, tail)
                  case Fail(e, tail) => Parse(old(rest), budget) == Fail(e, tail)
      {
        if rest == [] {
          return Err(EndOfStream);
        }
        var b := rest[0];
        ghost var more := Parse(rest[1..], budget - i - 1);
        rest := rest[1..];
        GroupPlace(result, place, b, if more.Ok? then more.value else 0);
        result := result + place * (b % 0x80);
        if b < 0x80 {
          return Got(result);
        }
        place := place * 0x80;
      }
      o := Err(TooManyBytes);
    }

    method ReadVInt() returns (o: Outcome<int32>)
      modifies this
      ensures Seen(o, rest) == ParseVInt(old(rest))
    {
      var u :- ReadGroups(5);
      o := Got(ToInt32(u % TWO_32));
    }

    method ReadVLong() returns (o: Outcome<int64>)
      modifies this
      ensures Seen(o, rest) == ParseVLong(old(rest))
    {
      var u :- ReadGroups(9);
      o := Got(ToInt64(u % TWO_64));
    }

    method ReadLPBytes() returns (o: Outcome<Bytes>)
      modifies this
      ensures Seen(o, rest) == ParseLP(old(rest))
    {
      var n :- ReadVInt();
      if n == 0 {
        return Got([]);
      }
      if n < 0 {
        return Err(NegativeLength);
      }
      o := ReadFull(n);
    }
  }

  class Writer {
    var out: Bytes

    constructor ()
      ensures out == []
    {
      out := [];
    }

    method Write(b: Bytes)
      modifies this
      ensures out == old(out) + b
    {
      out := out + b;
    }

    /** The groups go through a buffer of fixed size; a number that needs more of it panics before any write. */
    method WriteGroups(v: nat, size: nat) returns (ok: bool)
      modifies this
      ensures ok <==> |Print(v)| <= size
      ensures out == old(out) + if ok then Print(v) else []
    {
      var u: nat, n: nat := v, 0;
      var buf := new byte[size](_ => 0);
      while u >= 0x80
        invariant 0 <= n <= size && out == old(out)
        invariant Print(v) == buf[..n] + Print(u)
        decreases u
      {
        if n == size {
          return false;
        }
        buf[n] := u % 0x80 + 0x80;
        u := u / 0x80;
        n := n + 1;
      }
      if n == size {
        return false;
      }
      buf[n] := u;
      n := n + 1;
      Write(buf[..n]);
      ok := true;
    }

    method WriteVInt(v: int32)
      modifies this
      ensures out == old(out) + PrintVInt(v)
    {
      VIntRoundTrip(v, []);
      var ok := WriteGroups(ToUint32(v), 5);
    }

    /** A negative number overruns the nine-byte buffer. */
    method WriteVLong(v: int64) returns (ok: bool)
      modifies this
      ensures ok <==> v >= 0
      ensures out == old(out) + if ok then Print(ToUint64(v)) else []
    {
      VLongFits(v);
      ok := WriteGroups(ToUint64(v), 9);
    }

    method WriteLong(v: int64)
      modifies this
      ensures out == old(out) + PrintLong(v)
    {
      var u := ToUint64(v);
      var b: Bytes := [];
      for i := 0 to 8
        invariant PrintFixed(ToUint64(v), 8) == PrintFixed(u, 8 - i) + b
      {
        b := [u % 0x100] + b;
        u := u / 0x100;
      }
      Write(b);
    }

    method WriteLPBytes(b: Bytes)
      modifies this
      ensures out == old(out) + PrintLP(b)
    {
      WriteVInt(ToInt32(|b| % TWO_32));
      if |b| > 0 {
        Write(b);
      }
    }
  }
}
