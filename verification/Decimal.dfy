/** Base-10 printing and parsing of 64-bit integers, as strconv.FormatInt and
    strconv.ParseInt do it. */
module Decimal {
  import opened Base

  function Digit(d: nat): (c: char)
    requires d < 10
    ensures IsDigit(c) && DigitValue(c) == d
  {
    ('0' as int + d) as char
  }

  predicate IsDigit(c: char) { '0' <= c <= '9' }

  function DigitValue(c: char): (d: nat)
    requires IsDigit(c)
    ensures d < 10
  {
    c as int - '0' as int
  }

  predicate AllDigits(s: string) {
    forall i :: 0 <= i < |s| ==> IsDigit(s[i])
  }

  function Value(s: string): nat
    requires AllDigits(s)
  {
    if s == [] then 0 else 10 * Value(s[..|s| - 1]) + DigitValue(s[|s| - 1])
  }

  function FormatNat(n: nat): (s: string)
    ensures s != [] && AllDigits(s)
    ensures Value(s) == n
  {
    if n < 10 then
      assert [Digit(n)][..0] == [];
      [Digit(n)]
    else
      var s := FormatNat(n / 10) + [Digit(n % 10)];
      assert s[..|s| - 1] == FormatNat(n / 10);
      s
  }

  /** strconv.FormatInt(n, 10) */
  function FormatInt(n: int): string {
    if n < 0 then "-" + FormatNat(-n) else FormatNat(n)
  }

  /** strconv.ParseInt(s, 10, 64): an optional sign, then at least one digit, in range. */
  function ParseInt(s: string): Option<int> {
    if s == [] then None else
    var signed := s[0] == '+' || s[0] == '-';
    var digits := if signed then s[1..] else s;
    if digits == [] || !AllDigits(digits) then None else
    var n: int := if s[0] == '-' then -(Value(digits) as int) else Value(digits) as int;
    if MIN_INT64 <= n <= MAX_INT64 then Some(n) else None
  }

  /** Parsing undoes printing exactly on the 64-bit integers. */
  lemma ParseFormat(n: int)
    ensures ParseInt(FormatInt(n)) == if MIN_INT64 <= n <= MAX_INT64 then Some(n) else None
  {
    if n < 0 {
      assert FormatInt(n)[1..] == FormatNat(-n);
    } else {
      assert IsDigit(FormatNat(n)[0]);
    }
  }

  lemma FormatHasNoDot(n: int)
    ensures '.' !in FormatInt(n)
  {
    var s := FormatNat(if n < 0 then -n else n);
    assert forall i :: 0 <= i < |s| ==> IsDigit(s[i]) && s[i] != '.';
  }

  lemma FormatExamples()
    ensures FormatInt(12) == "12" && FormatInt(345) == "345" && FormatInt(-7) == "-7" && FormatInt(0) == "0"
  {
    assert FormatNat(34) == "34" by { assert FormatNat(3) == "3"; }
  }
}
