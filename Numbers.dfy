/**
  A reference reading of number text in plain decimal notation: an optional sign,
  digits, and an optional point followed by digits (at least one digit in all).
  Every such text is read by Python's `float()` as this value; `float()` also reads
  forms this parser refuses (exponents, `inf`, `nan`, underscores, surrounding
  whitespace). The scripts take the reading of numbers as a parameter; this parser
  instantiates it in the worked examples.
*/
module Numbers {
  import opened Wrappers

  predicate IsDigit(c: char) {
    '0' <= c <= '9'
  }

  predicate IsDigits(s: string) {
    forall i :: 0 <= i < |s| ==> IsDigit(s[i])
  }

  /** The number a digit string denotes in base ten. */
  function DigitsValue(s: string): nat
    requires IsDigits(s)
  {
    if s == [] then 0 else DigitsValue(s[..|s| - 1]) * 10 + (s[|s| - 1] as int - '0' as int)
  }

  function Pow10(n: nat): (r: nat)
    ensures r >= 1
  {
    if n == 0 then 1 else 10 * Pow10(n - 1)
  }

  /** The value of `whole.frac` written out in decimal. */
  function DecimalValue(whole: string, frac: string): real
    requires IsDigits(whole) && IsDigits(frac)
  {
    DigitsValue(whole) as real + DigitsValue(frac) as real / Pow10(|frac|) as real
  }

  /** Position of the first `c` in `s`, or `|s|` when there is none. */
  function IndexOf(s: string, c: char): (k: nat)
    ensures k <= |s|
    ensures k < |s| ==> s[k] == c
    ensures forall i :: 0 <= i < k ==> s[i] != c
  {
    if s == [] then 0 else if s[0] == c then 0 else 1 + IndexOf(s[1..], c)
  }

  function ParseUnsigned(s: string): Option<real> {
    var k := IndexOf(s, '.');
    var whole := s[..k];
    var frac := if k < |s| then s[k + 1..] else [];
    if IsDigits(whole) && IsDigits(frac) && |whole| + |frac| > 0
    then Some(DecimalValue(whole, frac))
    else None
  }

  /** Reads plain decimal notation; `None` for any other text. */
  function ParseDecimal(s: string): Option<real> {
    if |s| > 0 && (s[0] == '-' || s[0] == '+') then
      match ParseUnsigned(s[1..])
      case Some(x) => Some(if s[0] == '-' then -x else x)
      case None => None
    else
      ParseUnsigned(s)
  }

  /** Digits, a point and digits read as their decimal value. */
  lemma ParsePointed(whole: string, frac: string)
    requires IsDigits(whole) && IsDigits(frac) && |whole| > 0
    ensures ParseDecimal(whole + "." + frac) == Some(DecimalValue(whole, frac))
  {
    var s := whole + "." + frac;
    assert IsDigit(s[0]);
    assert IndexOf(s, '.') == |whole| by {
      assert s[|whole|] == '.';
      assert forall i :: 0 <= i < |whole| ==> s[i] == whole[i];
    }
    assert s[..|whole|] == whole;
    assert s[|whole| + 1..] == frac;
  }

  /** A digit string alone is read as the whole number it denotes. */
  lemma ParseWhole(whole: string)
    requires IsDigits(whole) && |whole| > 0
    ensures ParseDecimal(whole) == Some(DigitsValue(whole) as real)
  {
    NoPoint(whole);
    assert whole[..|whole|] == whole;
    assert ParseUnsigned(whole) == Some(DecimalValue(whole, []));
    assert IsDigit(whole[0]);
  }

  lemma {:induction false} NoPoint(s: string)
    requires IsDigits(s)
    ensures IndexOf(s, '.') == |s|
  {
    if s != [] {
      assert IsDigit(s[0]);
      NoPoint(s[1..]);
    }
  }
}
