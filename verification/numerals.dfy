/** Decimal rendering of ids and the String-to-Integer conversion Ruby's
    `format('%d', str)` applies. */
module Numerals {
  import opened Wrappers
  import opened Errors

  predicate IsDigit(c: char) {
    '0' <= c <= '9'
  }

  predicate AllDigits(s: string) {
    forall i :: 0 <= i < |s| ==> IsDigit(s[i])
  }

  predicate IsOctalDigit(c: char) {
    '0' <= c <= '7'
  }

  predicate AllOctalDigits(s: string) {
    forall i :: 0 <= i < |s| ==> IsOctalDigit(s[i])
  }

  function DigitChar(d: nat): (c: char)
    requires d < 10
    ensures IsDigit(c)
  {
    ('0' as int + d) as char
  }

  function DigitValue(c: char): nat
    requires IsDigit(c)
  {
    c as int - '0' as int
  }

  /** A decimal numeral with no redundant leading zero. */
  predicate IsCanonicalDecimal(s: string) {
    |s| > 0 && AllDigits(s) && (s[0] == '0' ==> |s| == 1)
  }

  /** The decimal digits of `n` (`Integer#to_s`). */
  function Decimal(n: nat): (s: string)
    ensures IsCanonicalDecimal(s)
  {
    if n < 10 then [DigitChar(n)] else Decimal(n / 10) + [DigitChar(n % 10)]
  }

  function DecimalValue(s: string): nat
    requires AllDigits(s)
  {
    if |s| == 0 then 0 else 10 * DecimalValue(s[..|s| - 1]) + DigitValue(s[|s| - 1])
  }

  function OctalValue(s: string): nat
    requires AllOctalDigits(s)
  {
    if |s| == 0 then 0 else 8 * OctalValue(s[..|s| - 1]) + DigitValue(s[|s| - 1])
  }

  /** Reading back the numeral of `n` gives `n`. */
  lemma {:induction false} DecimalRoundTrip(n: nat)
    ensures DecimalValue(Decimal(n)) == n
  {
    var s := Decimal(n);
    if n >= 10 {
      assert s[..|s| - 1] == Decimal(n / 10);
      DecimalRoundTrip(n / 10);
    }
  }

  /** The Integer Ruby's `'%d' % arg` formats, for a nil or String `arg`:
      nil raises TypeError; a decimal numeral is read in base 10, one with
      a leading zero in base 8; any other String raises ArgumentError. */
  function FormatArg(arg: Option<string>): (r: Outcome<nat>)
    ensures arg.None? ==> r == Failure(TypeError)
    ensures arg.Some? && IsCanonicalDecimal(arg.value) ==> r == Success(DecimalValue(arg.value))
    ensures arg.Some? && r.Failure? ==> r.error == ArgumentError(arg.value)
    ensures r.Success? ==> arg.Some? && AllDigits(arg.value) && |arg.value| > 0
  {
    match arg
    case None => Failure(TypeError)
    case Some(s) =>
      if IsCanonicalDecimal(s) then Success(DecimalValue(s))
      else if |s| > 1 && s[0] == '0' && AllOctalDigits(s[1..]) then Success(OctalValue(s[1..]))
      else Failure(ArgumentError(s))
  }

  /** The numeral of an id converts back to that id. */
  lemma FormatArgOfDecimal(n: nat)
    ensures FormatArg(Some(Decimal(n))) == Success(n)
  {
    DecimalRoundTrip(n);
  }
}
