/**
 * String helpers behind the request validators: whitespace trimming as
 * done by the `trim()` sanitizer (the JavaScript `\s` class), and the
 * decimal integer syntax checked by `isInt`.
 */
module Text {

  /** The characters matched by the JavaScript regular-expression class `\s`. */
  predicate IsWhitespace(c: char)
  {
    || c == ' ' || c == '\t' || c == '\n' || c == '\r'
    || c == '\U{000B}' || c == '\U{000C}' || c == '\U{00A0}' || c == '\U{1680}'
    || ('\U{2000}' <= c <= '\U{200A}')
    || c == '\U{2028}' || c == '\U{2029}' || c == '\U{202F}' || c == '\U{205F}'
    || c == '\U{3000}' || c == '\U{FEFF}'
  }

  /** Drops the leading run of whitespace. */
  function TrimStart(s: string): (r: string)
    ensures |r| <= |s| && r == s[|s| - |r|..]
    ensures |r| > 0 ==> !IsWhitespace(r[0])
    ensures forall i :: 0 <= i < |s| - |r| ==> IsWhitespace(s[i])
  {
    if |s| > 0 && IsWhitespace(s[0]) then TrimStart(s[1..]) else s
  }

  /** Drops the trailing run of whitespace. */
  function TrimEnd(s: string): (r: string)
    ensures |r| <= |s| && r == s[..|r|]
    ensures |r| > 0 ==> !IsWhitespace(r[|r| - 1])
    ensures forall i :: |r| <= i < |s| ==> IsWhitespace(s[i])
  {
    if |s| > 0 && IsWhitespace(s[|s| - 1]) then TrimEnd(s[..|s| - 1]) else s
  }

  /** `r` is the slice of `s` starting at `a`, and what lies around it is whitespace. */
  predicate CutFrom(s: string, r: string, a: int)
  {
    && 0 <= a && a + |r| <= |s| && r == s[a..a + |r|]
    && (forall i :: 0 <= i < a ==> IsWhitespace(s[i]))
    && (forall i :: a + |r| <= i < |s| ==> IsWhitespace(s[i]))
  }

  /** `trim()`: both runs of whitespace dropped (what that leaves is stated by `TrimShape`). */
  function Trim(s: string): (r: string)
    ensures |r| <= |s|
  {
    TrimEnd(TrimStart(s))
  }

  /**
   * The trimmed string is a contiguous slice of the input that neither
   * starts nor ends with whitespace, and everything cut off is whitespace.
   */
  lemma TrimShape(s: string)
    ensures exists a :: CutFrom(s, Trim(s), a)
    ensures |Trim(s)| > 0 ==> !IsWhitespace(Trim(s)[0]) && !IsWhitespace(Trim(s)[|Trim(s)| - 1])
  {
    var t := TrimStart(s);
    var r := TrimEnd(t);
    var a := |s| - |t|;
    assert r == Trim(s);
    assert t == s[a..] && r == t[..|r|];
    assert r == s[a..a + |r|];
    forall i | a + |r| <= i < |s|
      ensures IsWhitespace(s[i])
    {
      assert s[i] == t[i - a];
    }
    assert CutFrom(s, r, a);
  }

  /** A string that neither starts nor ends with whitespace is its own trim. */
  lemma TrimOfTrimmed(s: string)
    requires |s| > 0 ==> !IsWhitespace(s[0]) && !IsWhitespace(s[|s| - 1])
    ensures Trim(s) == s
  {
    assert TrimStart(s) == s;
    assert TrimEnd(s) == s;
  }

  /** Trimming twice is trimming once. */
  lemma TrimIdempotent(s: string)
    ensures Trim(Trim(s)) == Trim(s)
  {
    TrimShape(s);
    TrimOfTrimmed(Trim(s));
  }

  predicate IsDigit(c: char)
  {
    '0' <= c <= '9'
  }

  predicate AllDigits(s: string)
  {
    forall i :: 0 <= i < |s| ==> IsDigit(s[i])
  }

  function DigitChar(d: int): (c: char)
    requires 0 <= d < 10
    ensures IsDigit(c) && c as int - '0' as int == d
  {
    ('0' as int + d) as char
  }

  /** The numeric value of a string of decimal digits. */
  function DigitsValue(s: string): (n: nat)
    requires AllDigits(s)
  {
    if |s| == 0 then 0
    else DigitsValue(s[..|s| - 1]) * 10 + (s[|s| - 1] as int - '0' as int)
  }

  /** The decimal digits of a natural number, without leading zeros. */
  function NaturalString(n: nat): (s: string)
    ensures |s| > 0 && AllDigits(s)
    ensures |s| > 1 ==> s[0] != '0'
  {
    if n < 10 then [DigitChar(n)] else NaturalString(n / 10) + [DigitChar(n % 10)]
  }

  /** The variation selectors U+FE0E and U+FE0F, which `isLength` leaves out of its count. */
  predicate IsVariationSelector(c: char)
  {
    c == '\U{FE0E}' || c == '\U{FE0F}'
  }

  /**
   * The length validator.js `isLength` measures: code points, less the
   * variation selectors. Characters here are code points, so its
   * surrogate-pair correction is already built in.
   */
  function VisibleLength(s: string): (n: nat)
    ensures n <= |s|
  {
    if |s| == 0 then 0
    else VisibleLength(s[..|s| - 1]) + (if IsVariationSelector(s[|s| - 1]) then 0 else 1)
  }

  /** Without variation selectors, `isLength` counts every character. */
  lemma {:induction false} VisibleLengthWithoutSelectors(s: string)
    requires forall i :: 0 <= i < |s| ==> !IsVariationSelector(s[i])
    ensures VisibleLength(s) == |s|
  {
    if |s| > 0 {
      VisibleLengthWithoutSelectors(s[..|s| - 1]);
    }
  }

  /** `isLength` counts the two halves of a text and nothing more. */
  lemma {:induction false} VisibleLengthOfConcat(a: string, b: string)
    ensures VisibleLength(a + b) == VisibleLength(a) + VisibleLength(b)
    decreases |b|
  {
    if |b| > 0 {
      assert (a + b)[..|a + b| - 1] == a + b[..|b| - 1];
      VisibleLengthOfConcat(a, b[..|b| - 1]);
    } else {
      assert a + b == a;
    }
  }

  /** Two emoji hearts with their presentation selectors measure 2, though they are 4 code points. */
  lemma HeartsMeasureTwo()
    ensures VisibleLength("\U{2764}\U{FE0F}\U{2764}\U{FE0F}") == 2
  {
    var heart := "\U{2764}\U{FE0F}";
    assert heart[..1] == "\U{2764}" && "\U{2764}"[..0] == "";
    assert VisibleLength(heart) == 1;
    VisibleLengthOfConcat(heart, heart);
    assert heart + heart == "\U{2764}\U{FE0F}\U{2764}\U{FE0F}";
  }

  /** The plain decimal form of an integer: a minus sign before the digits of a negative number. */
  function DecimalString(n: int): (s: string)
  {
    if n < 0 then "-" + NaturalString(-n) else NaturalString(n)
  }

  /** 10^21: from this magnitude on, JavaScript writes a number in exponent form. */
  const ExponentThreshold: int := 1_000_000_000_000_000_000_000

  /** A digit string without its trailing zeros, keeping at least one digit. */
  function StripTrailingZeros(s: string): (r: string)
    ensures |r| <= |s| && r == s[..|r|]
    ensures |s| > 0 ==> |r| > 0
  {
    if |s| > 1 && s[|s| - 1] == '0' then StripTrailingZeros(s[..|s| - 1]) else s
  }

  /** `String(n)` from 10^21 on: the significant digits, a point after the first, then `e+` and the exponent. */
  function ExponentString(n: nat): (s: string)
    requires n >= ExponentThreshold
  {
    var d := NaturalString(n);
    var m := StripTrailingZeros(d);
    [m[0]] + (if |m| > 1 then "." + m[1..] else "") + "e+" + NaturalString(|d| - 1)
  }

  /** `String(n)` for an integer-valued number: plain decimal below 10^21 in magnitude, exponent form above. */
  function NumberString(n: int): (s: string)
  {
    if n <= -ExponentThreshold then "-" + ExponentString(-n)
    else if n >= ExponentThreshold then ExponentString(n)
    else DecimalString(n)
  }

  /** The syntax `^[-+]?[0-9]+$` that `isInt` accepts (leading zeros allowed). */
  predicate IsIntLiteral(s: string)
  {
    if |s| > 0 && (s[0] == '-' || s[0] == '+') then |s| > 1 && AllDigits(s[1..])
    else |s| > 0 && AllDigits(s)
  }

  /** The integer an `isInt`-accepted string denotes. */
  function IntLiteralValue(s: string): int
    requires IsIntLiteral(s)
  {
    if s[0] == '-' then -(DigitsValue(s[1..]) as int)
    else if s[0] == '+' then DigitsValue(s[1..])
    else DigitsValue(s)
  }

  /** Reading back the digits of a natural number gives the number. */
  lemma {:induction false} NaturalStringRoundTrip(n: nat)
    ensures DigitsValue(NaturalString(n)) == n
  {
    if n >= 10 {
      var s := NaturalString(n);
      assert s[..|s| - 1] == NaturalString(n / 10);
      NaturalStringRoundTrip(n / 10);
    }
  }

  /** Every integer's decimal form is accepted by `isInt` and denotes that integer. */
  lemma DecimalRoundTrip(n: int)
    ensures IsIntLiteral(DecimalString(n))
    ensures IntLiteralValue(DecimalString(n)) == n
  {
    if n < 0 {
      var s := DecimalString(n);
      assert s[1..] == NaturalString(-n);
      NaturalStringRoundTrip(-n);
    } else {
      NaturalStringRoundTrip(n);
    }
  }

  /** `isInt` never accepts the exponent form: its `e` is no digit. */
  lemma ExponentNotInt(n: nat)
    requires n >= ExponentThreshold
    ensures !IsIntLiteral(ExponentString(n))
    ensures !IsIntLiteral("-" + ExponentString(n))
  {
    var d := NaturalString(n);
    var m := StripTrailingZeros(d);
    var x := if |m| > 1 then "." + m[1..] else "";
    var e := ExponentString(n);
    assert e == [m[0]] + x + "e+" + NaturalString(|d| - 1);
    assert m[0] == d[0] && IsDigit(e[0]);
    assert e[1 + |x|] == 'e' && !IsDigit(e[1 + |x|]);
    assert ("-" + e)[1..] == e;
  }

  /** An integer's `String` form is an `isInt` literal exactly below 10^21 in magnitude, and then it denotes the integer. */
  lemma NumberStringIsInt(n: int)
    ensures IsIntLiteral(NumberString(n)) <==> -ExponentThreshold < n < ExponentThreshold
    ensures -ExponentThreshold < n < ExponentThreshold ==> IntLiteralValue(NumberString(n)) == n
  {
    if n <= -ExponentThreshold {
      assert NumberString(n) == "-" + ExponentString(-n);
      ExponentNotInt(-n);
    } else if n >= ExponentThreshold {
      assert NumberString(n) == ExponentString(n);
      ExponentNotInt(n);
    } else {
      assert NumberString(n) == DecimalString(n);
      DecimalRoundTrip(n);
    }
  }
}
