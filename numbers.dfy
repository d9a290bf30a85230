/** Numeric literals: the text that ReadOperand collects is handed to
    decimal.Parse, or to double.Parse when it holds an exponent marker. Values
    are exact rationals here. */
module Numbers {
  import opened Errors
  import opened Chars

  function DigitValue(c: char): (d: nat)
    requires IsDigit(c)
    ensures d < 10
  {
    c as int - '0' as int
  }

  predicate AllDigits(s: string) {
    forall i :: 0 <= i < |s| ==> IsDigit(s[i])
  }

  function Pow10(n: nat): (p: nat)
    ensures p >= 1
  {
    if n == 0 then 1 else 10 * Pow10(n - 1)
  }

  /** Ten to an integer power, as an exact rational. */
  function Scale(e: int): (r: real)
    ensures r > 0.0
    ensures e >= 0 ==> r == Pow10(e) as real
  {
    if e >= 0 then Pow10(e) as real else 1.0 / Pow10(-e) as real
  }

  /** A digit string read in base ten; the empty string reads as 0. DigitsValue
      and DigitsValueBody (like NatToString and NatToStringBody) are one
      definition split in two layers, so that the verifier unfolds one level of
      the recursion at a time. */
  function DigitsValue(s: string): (n: nat)
    requires AllDigits(s)
    ensures n < Pow10(|s|)
    decreases |s|, 1
  {
    DigitsValueBody(s)
  }

  function DigitsValueBody(s: string): (n: nat)
    requires AllDigits(s)
    ensures n < Pow10(|s|)
    decreases |s|, 0
  {
    if |s| == 0 then 0 else DigitsValue(s[..|s| - 1]) * 10 + DigitValue(s[|s| - 1])
  }

  /** The decimal digits of `n`, without leading zeros. */
  function NatToString(n: nat): (s: string)
    ensures |s| > 0
    decreases n, 1
  {
    NatToStringBody(n)
  }

  function NatToStringBody(n: nat): (s: string)
    ensures |s| > 0
    decreases n, 0
  {
    (if n < 10 then [] else NatToString(n / 10)) + ['0' + (n % 10) as char]
  }

  /** The text NatToString writes is a digit string that reads back as `n`,
      with no leading zero. */
  lemma {:induction false} NatToStringDigits(n: nat)
    ensures var s := NatToString(n); AllDigits(s) && DigitsValue(s) == n && (s[0] == '0' ==> n == 0)
  {
    var s := NatToString(n);
    if n >= 10 {
      var prefix := NatToString(n / 10);
      NatToStringDigits(n / 10);
      assert s[..|s| - 1] == prefix;
      assert s[0] == prefix[0];
    }
  }

  /** Index of the first decimal point in `s`, or |s|. */
  function IndexOfDot(s: string): (i: nat)
    ensures i <= |s|
    ensures i < |s| ==> s[i] == '.'
  {
    if |s| == 0 then 0
    else if s[0] == '.' then 0
    else 1 + IndexOfDot(s[1..])
  }

  predicate IsExponentMarker(c: char) {
    c == 'e' || c == 'E'
  }

  function IndexOfExponent(s: string): (i: nat)
    ensures i <= |s|
    ensures i < |s| ==> IsExponentMarker(s[i])
  {
    if |s| == 0 then 0
    else if IsExponentMarker(s[0]) then 0
    else 1 + IndexOfExponent(s[1..])
  }

  /** decimal.Parse on the characters a literal can hold (digits and '.'):
      digits with at most one decimal point and at least one digit. */
  function DecimalParse(s: string): (r: Result<real>)
    ensures r.Ok? ==> r.value >= 0.0
    ensures r.Err? ==> r.error == InvalidNumber(s)
    ensures |s| > 0 && AllDigits(s) ==> r == Ok(DigitsValue(s) as real)
  {
    var i := IndexOfDot(s);
    var whole := s[..i];
    var fraction := if i < |s| then s[i + 1..] else "";
    if AllDigits(whole) && AllDigits(fraction) && |whole| + |fraction| > 0 then
      assert |s| > 0 && AllDigits(s) ==> i == |s| && whole == s;
      Ok(DigitsValue(whole) as real + DigitsValue(fraction) as real / Pow10(|fraction|) as real)
    else
      Err(InvalidNumber(s))
  }

  /** The exponent after the marker: an optional sign and at least one digit. */
  function ExponentParse(t: string): (r: Result<int>)
    ensures r.Ok? ==> |t| > 0
  {
    var negative := |t| > 0 && t[0] == '-';
    var digits := if |t| > 0 && (t[0] == '+' || t[0] == '-') then t[1..] else t;
    if |digits| > 0 && AllDigits(digits) then
      Ok(if negative then -(DigitsValue(digits) as int) else DigitsValue(digits))
    else
      Err(InvalidNumber(t))
  }

  /** double.Parse on the characters a literal can hold: a decimal mantissa, then
      optionally an exponent marker and a signed exponent. The value is the exact
      rational; the binary rounding of a double is not modelled. */
  function DoubleParse(s: string): (r: Result<real>)
    ensures r.Err? ==> r.error == InvalidNumber(s)
    ensures r.Ok? ==> r.value >= 0.0
  {
    var i := IndexOfExponent(s);
    match DecimalParse(s[..i])
    case Err(_) => Err(InvalidNumber(s))
    case Ok(mantissa) =>
      if i == |s| then Ok(mantissa)
      else
        match ExponentParse(s[i + 1..])
        case Err(_) => Err(InvalidNumber(s))
        case Ok(e) =>
          var scale := Scale(e);
          assert mantissa * scale >= 0.0 by { PositiveProduct(mantissa, scale); }
          Ok(mantissa * scale)
  }

  lemma PositiveProduct(x: real, y: real)
    requires x >= 0.0 && y > 0.0
    ensures x * y >= 0.0
  {
  }

  /** In a digit string followed by a '.', the first decimal point is that one. */
  lemma {:induction false} IndexOfDotAfterDigits(d: string, rest: string)
    requires AllDigits(d) && |rest| > 0 && rest[0] == '.'
    ensures IndexOfDot(d + rest) == |d|
  {
    if |d| > 0 {
      assert (d + rest)[1..] == d[1..] + rest;
      IndexOfDotAfterDigits(d[1..], rest);
    } else {
      assert d + rest == rest;
    }
  }

  /** A literal with a decimal point reads as its whole part plus its fraction
      digits over the matching power of ten: "2.7" is 2 + 7/10. */
  lemma {:induction false} DecimalParseFraction(whole: string, fraction: string)
    requires AllDigits(whole) && AllDigits(fraction) && |whole| + |fraction| > 0
    ensures DecimalParse(whole + "." + fraction)
         == Ok(DigitsValue(whole) as real + DigitsValue(fraction) as real / Pow10(|fraction|) as real)
  {
    var s := whole + "." + fraction;
    assert s == whole + ("." + fraction);
    IndexOfDotAfterDigits(whole, "." + fraction);
    assert s[..|whole|] == whole;
    assert s[|whole| + 1..] == fraction;
  }

  predicate HasExponentMarker(s: string) {
    exists i :: 0 <= i < |s| && IsExponentMarker(s[i])
  }

  /** The constant ReadOperand builds from the collected text: parsed as a
      double when it holds an exponent marker and as a decimal otherwise, then
      multiplied by -1 when the literal carried a leading minus sign. */
  function LiteralValue(operand: string, negative: bool): (r: Result<real>)
    ensures r.Err? ==> r.error == InvalidNumber(operand)
    ensures r.Ok? ==> (negative <==> r.value < 0.0) || r.value == 0.0
    ensures |operand| > 0 && AllDigits(operand) ==>
      r == Ok(if negative then -(DigitsValue(operand) as real) else DigitsValue(operand) as real)
  {
    var parsed := if HasExponentMarker(operand) then DoubleParse(operand) else DecimalParse(operand);
    match parsed
    case Err(e) => Err(e)
    case Ok(v) => Ok(if negative then v * -1.0 else v)
  }

  /** A leading minus sign negates the literal's value, whatever its form, and
      fails exactly when the unsigned literal fails. */
  lemma {:induction false} LiteralNegation(operand: string)
    ensures LiteralValue(operand, true).Ok? <==> LiteralValue(operand, false).Ok?
    ensures LiteralValue(operand, false).Ok? ==> LiteralValue(operand, true).value == -LiteralValue(operand, false).value
  {
  }
}
