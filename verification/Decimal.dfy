/** Decimal numbers as text. */
module Decimal {
  import opened Wrappers
  import opened Words

  function Digits(n: nat): Bytes {
    (if n < 10 then [] else Digits(n / 10)) + [0x30 + n % 10]
  }

  predicate IsDigit(b: byte) {
    0x30 <= b <= 0x39
  }

  predicate AllDigits(s: Bytes) {
    forall i :: 0 <= i < |s| ==> IsDigit(s[i])
  }

  function ValueOf(s: Bytes): int {
    if s == [] then 0 else 10 * ValueOf(s[..|s| - 1]) + s[|s| - 1] - 0x30
  }

  /** strconv.Atoi: an optional sign and at least one digit, within an int64. */
  function Atoi(s: Bytes): Option<int64> {
    var digits := if s != [] && (s[0] == 0x2B || s[0] == 0x2D) then s[1..] else s;
    if digits == [] || !AllDigits(digits) then None
    else
      var v := if s[0] == 0x2D then -ValueOf(digits) else ValueOf(digits);
      if -TWO_63 <= v < TWO_63 then Some(v) else None
  }

  lemma {:induction false} DigitsRead(n: nat)
    ensures AllDigits(Digits(n)) && Digits(n) != [] && ValueOf(Digits(n)) == n
  {
    if n >= 10 {
      DigitsRead(n / 10);
    }
    assert Digits(n)[..|Digits(n)| - 1] == if n < 10 then [] else Digits(n / 10);
  }

  lemma AtoiOfDigits(n: nat)
    requires n < TWO_63
    ensures Atoi(Digits(n)) == Some(n)
  {
    DigitsRead(n);
    assert IsDigit(Digits(n)[0]);
  }

  /** A sign in front is read as one. */
  lemma AtoiOfSigned(n: int)
    requires 0 <= n < TWO_63
    ensures Atoi([0x2D] + Digits(n)).Some? && Atoi([0x2D] + Digits(n)).value == -n
    ensures Atoi([0x2B] + Digits(n)).Some? && Atoi([0x2B] + Digits(n)).value == n
  {
    DigitsRead(n);
    var minus, plus := [0x2D] + Digits(n), [0x2B] + Digits(n);
    assert minus[1..] == Digits(n) && plus[1..] == Digits(n);
    assert minus[0] == 0x2D && plus[0] == 0x2B;
  }
}
