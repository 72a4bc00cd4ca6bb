/** Decimal digit strings: what `strconv.FormatInt(n, 10)` produces, what the
    `{id:[0-9]+}` route placeholder accepts, and the number MySQL compares a
    bound digit string with when it is matched against the `bigint` id column. */
module Decimal {

  predicate IsDigit(c: char) {
    '0' <= c <= '9'
  }

  /** Every character is a decimal digit (the empty string included). */
  predicate AllDigits(s: string) {
    forall i :: 0 <= i < |s| ==> IsDigit(s[i])
  }

  /** The regular expression `[0-9]+`: a non-empty run of digits. */
  predicate IsDigits(s: string) {
    |s| > 0 && AllDigits(s)
  }

  function DigitChar(d: nat): (c: char)
    requires d < 10
    ensures IsDigit(c) && c as int - '0' as int == d
  {
    ('0' as int + d) as char
  }

  /** `strconv.FormatInt(n, 10)` for a non-negative `n`: the shortest decimal
      numeral of `n`, never with a leading zero except for `n == 0` itself. */
  function NatToDecimal(n: nat): (s: string)
    ensures IsDigits(s)
    ensures s[0] == '0' ==> n == 0
    ensures n < 10 <==> |s| == 1
    decreases n
  {
    if n < 10 then [DigitChar(n)] else NatToDecimal(n / 10) + [DigitChar(n % 10)]
  }

  /** `strconv.FormatInt(n, 10)` for any `n`: a minus sign before the numeral of
      `-n` when `n` is negative. */
  function FormatInt(n: int): (s: string)
    ensures n >= 0 ==> IsDigits(s) && s == NatToDecimal(n)
    ensures n < 0 ==> |s| >= 2 && s[0] == '-' && IsDigits(s[1..]) && !IsDigits(s)
    ensures n < 0 ==> s == "-" + NatToDecimal(-n)
  {
    if n < 0 then "-" + NatToDecimal(-n) else NatToDecimal(n)
  }

  /** The number a string of digits denotes, leading zeros included: the value
      MySQL converts a bound string such as `"007"` to when comparing it with an
      integer column. Only a string of zeros denotes 0. */
  function DecimalValue(s: string): (v: nat)
    requires AllDigits(s)
    ensures v == 0 <==> forall i :: 0 <= i < |s| ==> s[i] == '0'
  {
    if s == [] then 0 else DecimalValue(s[..|s| - 1]) * 10 + (s[|s| - 1] as int - '0' as int)
  }

  /** Parsing the numeral `FormatInt` writes gives back the number. */
  lemma {:induction false} DecimalValueOfNatToDecimal(n: nat)
    ensures DecimalValue(NatToDecimal(n)) == n
    decreases n
  {
    var s := NatToDecimal(n);
    if n >= 10 {
      DecimalValueOfNatToDecimal(n / 10);
      assert s[..|s| - 1] == NatToDecimal(n / 10);
    } else {
      assert s[..|s| - 1] == [];
    }
  }

  /** Distinct numbers have distinct numerals, so an id string names one row. */
  lemma NatToDecimalInjective(m: nat, n: nat)
    requires NatToDecimal(m) == NatToDecimal(n)
    ensures m == n
  {
    DecimalValueOfNatToDecimal(m);
    DecimalValueOfNatToDecimal(n);
  }

  /** Leading zeros do not change the value: `/articles/007` names row 7. */
  lemma {:induction false} LeadingZeroIgnored(s: string)
    requires AllDigits(s)
    ensures AllDigits("0" + s) && DecimalValue("0" + s) == DecimalValue(s)
    decreases |s|
  {
    if s != [] {
      var t := s[..|s| - 1];
      LeadingZeroIgnored(t);
      assert ("0" + s)[..|"0" + s| - 1] == "0" + t;
    }
  }
}
