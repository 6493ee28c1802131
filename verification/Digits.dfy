/** Numbers and the digits they are written in. */
module Digits {
  const LOWER_DIGITS := "0123456789abcdef"
  const UPPER_DIGITS := "0123456789ABCDEF"

  function HexDigit(d: nat, upper: bool): char
    requires d < 16
  {
    if upper then UPPER_DIGITS[d] else LOWER_DIGITS[d]
  }

  predicate HexChar(c: char) {
    '0' <= c <= '9' || 'a' <= c <= 'f' || 'A' <= c <= 'F'
  }

  function HexValue(c: char): (d: nat)
    requires HexChar(c)
    ensures d < 16
  {
    if '0' <= c <= '9' then c as int - '0' as int
    else if 'a' <= c <= 'f' then c as int - 'a' as int + 10
    else c as int - 'A' as int + 10
  }

  /** The value of a digit is its position among the digits, in either case ... */
  lemma HexDigitReads(d: nat, upper: bool)
    requires d < 16
    ensures HexChar(HexDigit(d, upper)) && HexValue(HexDigit(d, upper)) == d
  {
    assert d == 0 || d == 1 || d == 2 || d == 3 || d == 4 || d == 5 || d == 6 || d == 7
        || d == 8 || d == 9 || d == 10 || d == 11 || d == 12 || d == 13 || d == 14 || d == 15;
  }

  /** ... and there are no other digits. */
  lemma HexCharIsDigit(c: char) returns (d: nat, upper: bool)
    requires HexChar(c)
    ensures d < 16 && c == HexDigit(d, upper)
  {
    d, upper := HexValue(c), 'A' <= c <= 'F';
    HexDigitReads(d, upper);
    hide HexDigit;
    if '0' <= c <= '9' { DecimalDigit(d); }
  }

  lemma DecimalDigit(d: nat)
    requires d < 10
    ensures HexDigit(d, false) as int == '0' as int + d
  {
    assert d == 0 || d == 1 || d == 2 || d == 3 || d == 4 || d == 5 || d == 6 || d == 7 || d == 8 || d == 9;
  }

  /** A number in hexadecimal, with as many digits as there are choices of case. */
  function HexText(n: nat, upper: seq<bool>): (s: string)
    ensures |s| == |upper|
  {
    if upper == [] then []
    else HexText(n / 16, upper[..|upper| - 1]) + [HexDigit(n % 16, upper[|upper| - 1])]
  }

  /** A number in decimal, without leading zeros. */
  function DecimalText(n: nat): (s: string)
    ensures s != [] && forall i :: 0 <= i < |s| ==> '0' <= s[i] <= '9'
    ensures |s| > 1 ==> s[0] != '0'
    ensures n > 0 ==> s[0] != '0'
  {
    if n < 10 then [(n + '0' as int) as char]
    else DecimalText(n / 10) + [(n % 10 + '0' as int) as char]
  }
}
