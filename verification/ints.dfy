/** Integer literals as Python's `int(str)` reads them, restricted to an
    optional leading '-' followed by ASCII decimal digits. */
module Ints {
  import opened Wrappers

  /** `int()` was handed text that is not an integer literal (a ValueError). */
  datatype IntError = NotAnInteger(text: string)

  predicate IsDigit(c: char) {
    '0' <= c <= '9'
  }

  predicate AllDigits(s: string) {
    forall i :: 0 <= i < |s| ==> IsDigit(s[i])
  }

  /** One or more ASCII digits: the language of the regex `\d+`. */
  predicate IsDigits(s: string) {
    |s| > 0 && AllDigits(s)
  }

  /** The literals the model's `int()` accepts. */
  predicate IsIntLiteral(s: string) {
    IsDigits(s) || (|s| > 0 && s[0] == '-' && IsDigits(s[1..]))
  }

  function DigitValue(c: char): (d: nat)
    requires IsDigit(c)
    ensures d < 10
  {
    (c as int) - ('0' as int)
  }

  function DigitChar(d: nat): (c: char)
    requires d < 10
    ensures IsDigit(c) && DigitValue(c) == d
  {
    (('0' as int) + d) as char
  }

  /** The base-10 value of a digit string, most significant digit first. */
  function DigitsValue(s: string): nat
    requires AllDigits(s)
    decreases |s|
  {
    if |s| == 0 then 0 else DigitsValue(s[..|s| - 1]) * 10 + DigitValue(s[|s| - 1])
  }

  /** `int(s)`: a digit string is its value, a '-' before one negates it,
      anything else fails and names the offending text. */
  function ParseInt(s: string): (r: Result<int, IntError>)
    ensures r.Success? <==> IsIntLiteral(s)
    ensures r.Failure? ==> r.error == NotAnInteger(s)
    ensures r.Success? && IsDigits(s) ==> r.value >= 0
    ensures r.Success? && !IsDigits(s) ==> r.value <= 0
  {
    if IsDigits(s) then Success(DigitsValue(s))
    else if |s| > 0 && s[0] == '-' && IsDigits(s[1..]) then Success(-(DigitsValue(s[1..]) as int))
    else Failure(NotAnInteger(s))
  }

  /** The canonical decimal spelling of a natural number. */
  function ShowNat(n: nat): (s: string)
    ensures IsDigits(s)
    ensures DigitsValue(s) == n
    decreases n
  {
    if n < 10 then [DigitChar(n)]
    else
      var p := ShowNat(n / 10);
      var s := p + [DigitChar(n % 10)];
      assert s[..|s| - 1] == p;
      s
  }

  /** The canonical decimal spelling of an integer, as Python's `str(n)`. */
  function ShowInt(n: int): string {
    if n < 0 then "-" + ShowNat(-n) else ShowNat(n)
  }

  /** Digits contain no character that is not a digit. */
  lemma DigitsExclude(s: string, c: char)
    requires IsDigits(s) && !IsDigit(c)
    ensures c !in s
  {
  }

  /** Reading back the canonical spelling gives the number again. */
  lemma ParseShowInt(n: int)
    ensures IsIntLiteral(ShowInt(n))
    ensures ParseInt(ShowInt(n)) == Success(n)
  {
    if n < 0 {
      var s := ShowInt(n);
      assert s[1..] == ShowNat(-n);
      assert !IsDigit(s[0]);
    }
  }
}
