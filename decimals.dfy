/** Exact decimal numbers, standing for the float64 values pandas produces
    from numerals, with the numeral grammar `[+|-]digits[.digits]`. */
module Decimals {
  import opened Wrappers
  import opened Text

  /** The number `mantissa / 10^scale`. */
  datatype Decimal = Decimal(mantissa: int, scale: nat)

  function Abs(n: int): nat { if n < 0 then -n else n }

  /** Only characters a numeral may hold: digits, '.', and a sign in front. */
  predicate NumeralChars(s: string)
  {
    forall i :: 0 <= i < |s| ==> IsDigit(s[i]) || s[i] == '.' || (i == 0 && (s[i] == '-' || s[i] == '+'))
  }

  /** `s` holds at most one '.'. */
  predicate AtMostOneDot(s: string)
  {
    forall i, j :: 0 <= i < j < |s| && s[i] == '.' ==> s[j] != '.'
  }

  /** An unsigned numeral `digits` or `digits.digits`. */
  function ParseUnsigned(s: string): (r: Option<Decimal>)
    ensures r.Some? ==> r.value.mantissa >= 0
  {
    var k := Find(s, '.');
    if k == |s| then ParsePoint(s, "", false) else ParsePoint(s[..k], s[k + 1..], true)
  }

  /** The number written `whole` (when `!point`) or `whole.fraction`: both parts
      non-empty digit strings. */
  function ParsePoint(whole: string, fraction: string, point: bool): (r: Option<Decimal>)
    ensures r.Some? ==> r.value.mantissa >= 0
  {
    if whole != [] && AllDigits(whole) && (point ==> fraction != [] && AllDigits(fraction)) then
      Some(Decimal(DigitsToNat(whole + fraction), |fraction|))
    else
      None
  }

  /** The numeral `s` as a number, or None when `s` is not a numeral
      (pandas' `to_numeric(..., errors="coerce")` on one cell). */
  function Parse(s: string): (r: Option<Decimal>)
  {
    if s != [] && (s[0] == '-' || s[0] == '+') then
      match ParseUnsigned(s[1..])
      case Some(d) => Some(if s[0] == '-' then Decimal(-d.mantissa, d.scale) else d)
      case None => None
    else
      ParseUnsigned(s)
  }

  lemma ParseUnsignedSound(s: string)
    ensures ParseUnsigned(s).Some? ==> DigitsAndDots(s) && AtMostOneDot(s)
  {
    var k := Find(s, '.');
    if ParseUnsigned(s).Some? && k < |s| {
      var fraction := s[k + 1..];
      assert forall i :: k < i < |s| ==> s[i] == fraction[i - k - 1];
      assert forall i :: 0 <= i < k ==> s[i] == s[..k][i];
    }
  }

  /** Whatever parses holds only numeral characters and at most one '.':
      "None", "1.234.56" and "4,8" are not numbers. */
  lemma ParseSound(s: string)
    ensures Parse(s).Some? ==> NumeralChars(s) && AtMostOneDot(s)
  {
    if s != [] && (s[0] == '-' || s[0] == '+') {
      var body := s[1..];
      ParseUnsignedSound(body);
      assert forall i :: 1 <= i < |s| ==> s[i] == body[i - 1];
    } else {
      ParseUnsignedSound(s);
    }
  }

  /** A plain digit string parses as the integer it denotes. */
  lemma ParseDigits(s: string)
    requires s != [] && AllDigits(s)
    ensures Parse(s) == Some(Decimal(DigitsToNat(s), 0))
  {
    ParseUnsignedDigits(s);
  }

  /** Every character of `s` is a digit or a '.'. */
  predicate DigitsAndDots(s: string)
  {
    forall i :: 0 <= i < |s| ==> IsDigit(s[i]) || s[i] == '.'
  }

  lemma DigitsAndDotsAppend(a: string, b: string)
    requires DigitsAndDots(a) && DigitsAndDots(b)
    ensures DigitsAndDots(a + b)
  {
    var ab := a + b;
    forall i | 0 <= i < |ab| ensures IsDigit(ab[i]) || ab[i] == '.' {
      if i < |a| { assert ab[i] == a[i]; } else { assert ab[i] == b[i - |a|]; }
    }
  }

  /** The canonical unsigned numeral of `m / 10^scale`: the integer part, then,
      when `scale > 0`, a '.' and exactly `scale` fraction digits. */
  function UnsignedNumeral(m: nat, scale: nat): (s: string)
    ensures s != [] && IsDigit(s[0]) && DigitsAndDots(s)
  {
    var digits := ZeroPad(NatToDigits(m), scale + 1);
    ZeroPadDigits(NatToDigits(m), scale + 1);
    var cut := |digits| - scale;
    if scale == 0 then
      digits
    else
      var whole, fraction := digits[..cut], digits[cut..];
      DigitsAndDotsAppend(whole, ".");
      DigitsAndDotsAppend(whole + ".", fraction);
      whole + "." + fraction
  }

  /** The canonical numeral of `d`: its unsigned numeral, after a '-' when negative. */
  function Show(d: Decimal): (s: string)
    ensures NumeralChars(s) && s != []
  {
    (if d.mantissa < 0 then "-" else "") + UnsignedNumeral(Abs(d.mantissa), d.scale)
  }

  /** In `whole.fraction` the first '.' follows the digits of `whole`. */
  lemma FindPoint(whole: string, fraction: string)
    requires AllDigits(whole)
    ensures Find(whole + "." + fraction, '.') == |whole|
    ensures (whole + "." + fraction)[..|whole|] == whole
    ensures (whole + "." + fraction)[|whole| + 1..] == fraction
  {
    var s := whole + "." + fraction;
    assert s[|whole|] == '.';
    assert forall i :: 0 <= i < |whole| ==> s[i] == whole[i];
  }

  /** `whole.fraction` parses as the digits of both parts, scaled by the fraction's length. */
  lemma ParseWholeFraction(whole: string, fraction: string)
    requires whole != [] && fraction != [] && AllDigits(whole) && AllDigits(fraction)
    ensures ParseUnsigned(whole + "." + fraction) == Some(Decimal(DigitsToNat(whole + fraction), |fraction|))
  {
    FindPoint(whole, fraction);
  }

  /** A plain digit string is an unsigned numeral of scale 0. */
  lemma ParseUnsignedDigits(s: string)
    requires s != [] && AllDigits(s)
    ensures ParseUnsigned(s) == Some(Decimal(DigitsToNat(s), 0))
  {
    assert forall i :: 0 <= i < |s| ==> s[i] != '.';
    assert s + "" == s;
  }

  lemma ParseUnsignedNumeral(m: nat, scale: nat)
    ensures ParseUnsigned(UnsignedNumeral(m, scale)) == Some(Decimal(m, scale))
  {
    if scale == 0 {
      var digits := ZeroPad(NatToDigits(m), 1);
      PaddedNumeral(m, 1);
      assert UnsignedNumeral(m, scale) == digits;
      ParseUnsignedDigits(digits);
    } else {
      ParseFractionNumeral(m, scale);
    }
  }

  lemma ParseFractionNumeral(m: nat, scale: nat)
    requires scale > 0
    ensures ParseUnsigned(UnsignedNumeral(m, scale)) == Some(Decimal(m, scale))
  {
    var digits := ZeroPad(NatToDigits(m), scale + 1);
    var cut := |digits| - scale;
    var whole, fraction := digits[..cut], digits[cut..];
    assert UnsignedNumeral(m, scale) == whole + "." + fraction;
    assert DigitsToNat(whole + fraction) == m by {
      PaddedNumeral(m, scale + 1);
      SplitJoin(digits, cut);
    }
    assert ParseUnsigned(whole + "." + fraction) == Some(Decimal(DigitsToNat(whole + fraction), scale)) by {
      PaddedNumeral(m, scale + 1);
      AllDigitsSlices(digits, cut);
      ParseWholeFraction(whole, fraction);
    }
  }

  /** Parsing the canonical numeral gives back exactly the same number. */
  lemma ParseShow(d: Decimal)
    ensures Parse(Show(d)) == Some(d)
  {
    var body := UnsignedNumeral(Abs(d.mantissa), d.scale);
    ParseUnsignedNumeral(Abs(d.mantissa), d.scale);
    if d.mantissa < 0 {
      assert Show(d)[1..] == body;
    } else {
      assert Show(d) == body;
    }
  }

  /** `a <= b` as numbers. */
  predicate Le(a: Decimal, b: Decimal)
  {
    a.mantissa * Pow10(b.scale) <= b.mantissa * Pow10(a.scale)
  }

  /** `d` is a whole number. */
  predicate IsIntegral(d: Decimal)
  {
    d.mantissa % Pow10(d.scale) == 0
  }

  /** The whole number an integral decimal denotes. */
  function IntegralValue(d: Decimal): (n: int)
    requires IsIntegral(d)
    ensures n * Pow10(d.scale) == d.mantissa
  {
    d.mantissa / Pow10(d.scale)
  }
}
