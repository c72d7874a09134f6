/** The hexadecimal map keys of a transaction (hotrod/transaction.go) and of the listener table. */
module Hex {
  import opened Wrappers
  import opened Words

  const TABLE: string := "0123456789abcdef"

  /** Two digits for each byte, high nibble first. */
  function HexOf(b: Bytes): string {
    seq(2 * |b|, i requires 0 <= i < 2 * |b| => TABLE[if i % 2 == 0 then b[i / 2] / 16 else b[i / 2] % 16])
  }

  lemma TableInjective(x: nat, y: nat)
    requires x < 16 && y < 16 && TABLE[x] == TABLE[y]
    ensures x == y
  {
    assert forall i, j :: 0 <= i < j < 16 ==> TABLE[i] != TABLE[j];
  }

  /** Different keys never share a map key. */
  lemma HexOfInjective(a: Bytes, b: Bytes)
    requires HexOf(a) == HexOf(b)
    ensures a == b
  {
    assert 2 * |a| == |HexOf(a)| == |HexOf(b)| == 2 * |b|;
    forall i | 0 <= i < |a|
      ensures a[i] == b[i]
    {
      assert TABLE[a[i] / 16] == HexOf(a)[2 * i] == HexOf(b)[2 * i] == TABLE[b[i] / 16];
      assert TABLE[a[i] % 16] == HexOf(a)[2 * i + 1] == HexOf(b)[2 * i + 1] == TABLE[b[i] % 16];
      TableInjective(a[i] / 16, b[i] / 16);
      TableInjective(a[i] % 16, b[i] % 16);
    }
  }

  /** The value of a digit. */
  function Nibble(c: char): Option<nat> {
    if '0' <= c <= '9' then Some(c as int - '0' as int)
    else if 'a' <= c <= 'f' then Some(c as int - 'a' as int + 10)
    else None
  }

  lemma NibbleOfTable(x: nat)
    requires x < 16
    ensures Nibble(TABLE[x]) == Some(x)
  {
  }

  /** Each byte is written as its high and its low digit. */
  lemma HexIsRead(b: Bytes, i: nat)
    requires i < |b|
    ensures |HexOf(b)| == 2 * |b|
    ensures var high, low := Nibble(HexOf(b)[2 * i]), Nibble(HexOf(b)[2 * i + 1]);
            high.Some? && low.Some? && b[i] == 16 * high.value + low.value
  {
    NibbleOfTable(b[i] / 16);
    NibbleOfTable(b[i] % 16);
  }

  method HexKey(b: Bytes) returns (s: string)
    ensures s == HexOf(b)
  {
    var dst := new char[2 * |b|];
    for i := 0 to |b|
      invariant forall j :: 0 <= j < 2 * i ==> dst[j] == HexOf(b)[j]
    {
      dst[i * 2] := TABLE[b[i] / 16];
      dst[i * 2 + 1] := TABLE[b[i] % 16];
    }
    s := dst[..];
  }
}
