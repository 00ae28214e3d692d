/** Decimal text for numbers, as the sensors write it and the server reads it
    back: `str(n)` and `int(s)` for integers, `format(x, ".Nf")` (with the
    `+` flag and a field width) and `float(s)` for decimal fractions.
    Readings are `real`s; the printed value is the reading rounded half to
    even at the requested number of places, and `float(s)` is exact. */
module Numeric {
  import opened Wrappers
  import opened Text

  predicate IsDigit(c: char) {
    '0' <= c <= '9'
  }

  predicate AllDigits(s: string) {
    forall i :: 0 <= i < |s| ==> IsDigit(s[i])
  }

  function DigitValue(c: char): nat
    requires IsDigit(c)
  {
    c as int - '0' as int
  }

  function DigitChar(d: nat): (c: char)
    requires d < 10
    ensures IsDigit(c) && DigitValue(c) == d
  {
    (d + '0' as int) as char
  }

  /** The number denoted by a string of decimal digits, most significant first. */
  function DigitsValue(s: string): nat
    requires AllDigits(s)
    decreases |s|
  {
    if |s| == 0 then 0 else 10 * DigitsValue(s[..|s| - 1]) + DigitValue(s[|s| - 1])
  }

  lemma DigitsValueSnoc(s: string, c: char)
    requires AllDigits(s) && IsDigit(c)
    ensures AllDigits(s + [c])
    ensures DigitsValue(s + [c]) == 10 * DigitsValue(s) + DigitValue(c)
  {
    assert (s + [c])[..|s|] == s;
  }

  function Pow10(p: nat): (r: nat)
    ensures r >= 1
  {
    if p == 0 then 1 else 10 * Pow10(p - 1)
  }

  /** `str(n)` for a natural number: its decimal digits, no leading zero. */
  function NatDigits(n: nat): (s: string)
    ensures |s| >= 1 && AllDigits(s)
    ensures DigitsValue(s) == n
    ensures |s| > 1 ==> s[0] != '0'
    decreases n
  {
    if n < 10 then [DigitChar(n)]
    else
      var s := NatDigits(n / 10) + [DigitChar(n % 10)];
      DigitsValueSnoc(NatDigits(n / 10), DigitChar(n % 10));
      s
  }

  /** `d` with '0's added on the left up to `width` characters. */
  function ZeroPad(d: string, width: nat): (r: string)
    ensures |r| >= width && |r| >= |d|
  {
    if |d| >= width then d else seq(width - |d|, _ => '0') + d
  }

  /** Leading zeros do not change the value of a numeral. */
  lemma {:induction false} LeadingZeros(k: nat, d: string)
    requires AllDigits(d)
    ensures AllDigits(seq(k, _ => '0') + d)
    ensures DigitsValue(seq(k, _ => '0') + d) == DigitsValue(d)
    decreases |d|
  {
    var z := seq(k, _ => '0');
    if |d| == 0 {
      assert z + d == z;
      assert DigitsValue(z) == 0 by { AllZeros(k); }
    } else {
      var d' := d[..|d| - 1];
      LeadingZeros(k, d');
      assert (z + d)[..|z + d| - 1] == z + d';
    }
  }

  lemma {:induction false} AllZeros(k: nat)
    ensures AllDigits(seq(k, _ => '0'))
    ensures DigitsValue(seq(k, _ => '0')) == 0
  {
    if k > 0 {
      AllZeros(k - 1);
      assert seq(k, _ => '0')[..k - 1] == seq(k - 1, _ => '0');
    }
  }

  /** The value of a numeral split in two: the left part counts in units of
      ten to the length of the right part. */
  lemma {:induction false} DigitsValueAppend(a: string, b: string)
    requires AllDigits(a) && AllDigits(b)
    ensures AllDigits(a + b)
    ensures DigitsValue(a + b) == DigitsValue(a) * Pow10(|b|) + DigitsValue(b)
    decreases |b|
  {
    if |b| == 0 {
      assert a + b == a;
    } else {
      var b' := b[..|b| - 1];
      DigitsValueAppend(a, b');
      AppendLastDigit(a, b, b');
    }
  }

  /** The step of `DigitsValueAppend`: one more digit on the right. */
  lemma AppendLastDigit(a: string, b: string, b': string)
    requires AllDigits(a) && AllDigits(b) && |b| > 0 && b' == b[..|b| - 1]
    requires AllDigits(a + b') && DigitsValue(a + b') == DigitsValue(a) * Pow10(|b'|) + DigitsValue(b')
    ensures AllDigits(a + b) && DigitsValue(a + b) == DigitsValue(a) * Pow10(|b|) + DigitsValue(b)
  {
    var c := b[|b| - 1];
    LastOfAppend(a, b, b', c);
    assert DigitsValue(a + b) == 10 * DigitsValue(a + b') + DigitValue(c);
    assert DigitsValue(b) == 10 * DigitsValue(b') + DigitValue(c);
    assert Pow10(|b|) == 10 * Pow10(|b'|);
    ShiftDigit(DigitsValue(a), DigitsValue(b'), DigitValue(c), Pow10(|b'|), Pow10(|b|),
               DigitsValue(a + b'), DigitsValue(a + b), DigitsValue(b));
  }

  /** The last digit of `a + b` and what comes before it. */
  lemma LastOfAppend(a: string, b: string, b': string, c: char)
    requires AllDigits(a) && AllDigits(b) && |b| > 0 && b' == b[..|b| - 1] && c == b[|b| - 1]
    ensures AllDigits(a + b) && (a + b)[..|a + b| - 1] == a + b' && (a + b)[|a + b| - 1] == c
  {
    assert b == b' + [c];
    assert a + b == (a + b') + [c];
  }

  /** The arithmetic step of `DigitsValueAppend`. */
  lemma ShiftDigit(va: int, vb: int, c: int, q: int, p: int, w: int, whole: int, right: int)
    requires w == va * q + vb && whole == 10 * w + c && right == 10 * vb + c && p == 10 * q
    ensures whole == va * p + right
  {
    assert va * (10 * q) == 10 * (va * q);
  }

  /** Python's `str(n)` for an int. */
  function FormatInt(n: int): string {
    if n < 0 then "-" + NatDigits(-n) else NatDigits(n)
  }

  /** Python's `int(s)`, restricted to optional white space, an optional
      sign and ASCII digits; None where Python raises ValueError. */
  function ParseInt(s: string): (r: Option<int>)
    ensures r.Some? ==> |Strip(s)| > 0
  {
    ParseSignedDigits(Strip(s))
  }

  /** An optionally signed, non-empty string of digits. */
  function ParseSignedDigits(t: string): (r: Option<int>)
    ensures r.Some? ==> |t| > 0
  {
    if |t| > 0 && (t[0] == '+' || t[0] == '-') then
      var body := t[1..];
      if |body| > 0 && AllDigits(body) then
        var v: int := DigitsValue(body);
        Some(if t[0] == '-' then -v else v)
      else None
    else if |t| > 0 && AllDigits(t) then Some(DigitsValue(t))
    else None
  }

  /** Python's `round` rule for printing: nearest integer, ties to even. */
  function RoundHalfEven(y: real): (n: int)
    ensures -0.5 <= n as real - y <= 0.5
    ensures (n as real - y == 0.5 || y - n as real == 0.5) ==> n % 2 == 0
  {
    var f := y.Floor;
    var d := y - f as real;
    if d < 0.5 then f
    else if d > 0.5 then f + 1
    else if f % 2 == 0 then f
    else f + 1
  }

  function Abs(x: real): real {
    if x < 0.0 then -x else x
  }

  /** `|x|` scaled by `10^p` and rounded: the digits Python prints for `x` at `p` places. */
  function Scaled(x: real, p: nat): (n: nat)
    ensures -0.5 <= n as real - Abs(x) * Pow10(p) as real <= 0.5
  {
    var n := RoundHalfEven(Abs(x) * Pow10(p) as real);
    n
  }

  /** The value a reading has once printed at `p` places. */
  function Rounded(x: real, p: nat): real {
    var n := Scaled(x, p);
    (if x < 0.0 then -(n as real) else n as real) / Pow10(p) as real
  }

  function Sign(x: real, plus: bool): string {
    if x < 0.0 then "-" else if plus then "+" else ""
  }

  /** The digits of `n` with a decimal point `p` places from the right and
      at least one digit before it (`Magnitude(5, 2) == "0.05"`). */
  function Magnitude(n: nat, p: nat): string {
    var digits := ZeroPad(NatDigits(n), p + 1);
    var cut := |digits| - p;
    digits[..cut] + (if p == 0 then "" else "." + digits[cut..])
  }

  /** Python's `format(x, ".{p}f")`, or `format(x, "+.{p}f")` when `plus`. */
  function Fixed(x: real, p: nat, plus: bool): string {
    Sign(x, plus) + Magnitude(Scaled(x, p), p)
  }

  /** Right-justifies `s` in a field of `width` characters (the `4` of `:4.1f`). */
  function PadLeft(s: string, width: nat): (r: string)
    ensures |r| >= width && |r| >= |s|
  {
    if |s| >= width then s else seq(width - |s|, _ => ' ') + s
  }

  /** Python's `float(s)` restricted to optional white space, an optional
      sign and a decimal numeral (`12`, `12.`, `12.5`, `.5`). */
  function ParseFloat(s: string): (r: Option<real>)
    ensures r.Some? ==> |Strip(s)| > 0
  {
    ParseSignedDecimal(Strip(s))
  }

  function ParseSignedDecimal(t: string): (r: Option<real>)
    ensures r.Some? ==> |t| > 0
  {
    if |t| > 0 && (t[0] == '+' || t[0] == '-') then
      match ParseDecimal(t[1..])
      case None => None
      case Some(v) => Some(if t[0] == '-' then -v else v)
    else ParseDecimal(t)
  }

  /** An unsigned decimal numeral: digits with at most one point, at least one digit. */
  function ParseDecimal(t: string): (r: Option<real>)
    ensures r.Some? ==> |t| > 0 && r.value >= 0.0
  {
    match IndexOf(t, ".")
    case None =>
      if |t| > 0 && AllDigits(t) then Some(DigitsValue(t) as real) else None
    case Some(i) => PointValue(t[..i], t[i + 1..])
  }

  /** The numeral `whole.frac`; either side may be empty, but not both. */
  function PointValue(whole: string, frac: string): (r: Option<real>)
    ensures r.Some? ==> |whole| + |frac| > 0 && r.value >= 0.0
  {
    if AllDigits(whole) && AllDigits(frac) && |whole| + |frac| > 0 then
      NonNegativeQuotient(DigitsValue(frac) as real, Pow10(|frac|) as real);
      Some(DigitsValue(whole) as real + DigitsValue(frac) as real / Pow10(|frac|) as real)
    else None
  }

  lemma NonNegativeQuotient(a: real, b: real)
    requires a >= 0.0 && b > 0.0
    ensures a / b >= 0.0
  {
  }

  /** The characters a printed number is made of: digits, sign, point, padding. */
  predicate NumericChar(c: char) {
    IsDigit(c) || c == '+' || c == '-' || c == '.' || c == ' '
  }

  predicate NumericText(s: string) {
    forall i :: 0 <= i < |s| ==> NumericChar(s[i])
  }

  lemma NumericExcludes(s: string, c: char)
    requires NumericText(s) && !NumericChar(c)
    ensures c !in s
  {
  }

  lemma NumericConcat(a: string, b: string)
    requires NumericText(a) && NumericText(b)
    ensures NumericText(a + b)
  {
    forall i | 0 <= i < |a + b| ensures NumericChar((a + b)[i]) {
      if i < |a| { assert (a + b)[i] == a[i]; } else { assert (a + b)[i] == b[i - |a|]; }
    }
  }

  lemma DigitsNumeric(s: string)
    requires AllDigits(s)
    ensures NumericText(s)
  {
  }

  /** The pieces of `Magnitude(n, p)`: at least one digit before the point,
      exactly `p` after it, together worth `n / 10^p`. */
  lemma MagnitudeParts(n: nat, p: nat) returns (whole: string, frac: string)
    ensures Magnitude(n, p) == whole + (if p == 0 then "" else "." + frac)
    ensures |whole| >= 1 && |frac| == p && AllDigits(whole) && AllDigits(frac)
    ensures DigitsValue(whole) * Pow10(p) + DigitsValue(frac) == n
  {
    var digits := ZeroPad(NatDigits(n), p + 1);
    ZeroPadDigits(NatDigits(n), p + 1);
    var cut := |digits| - p;
    whole, frac := digits[..cut], digits[cut..];
    CutDigits(digits, cut);
  }

  lemma ZeroPadDigits(d: string, width: nat)
    requires AllDigits(d)
    ensures AllDigits(ZeroPad(d, width)) && DigitsValue(ZeroPad(d, width)) == DigitsValue(d)
  {
    if |d| < width {
      LeadingZeros(width - |d|, d);
    }
  }

  /** A numeral cut in two: the left part counts in units of ten to the right part's length. */
  lemma CutDigits(digits: string, cut: nat)
    requires AllDigits(digits) && cut <= |digits|
    ensures AllDigits(digits[..cut]) && AllDigits(digits[cut..])
    ensures DigitsValue(digits[..cut]) * Pow10(|digits| - cut) + DigitsValue(digits[cut..]) == DigitsValue(digits)
  {
    var whole, frac := digits[..cut], digits[cut..];
    assert digits == whole + frac;
    assert AllDigits(whole) && AllDigits(frac) by {
      forall i | 0 <= i < |whole| ensures IsDigit(whole[i]) { assert whole[i] == digits[i]; }
      forall i | 0 <= i < |frac| ensures IsDigit(frac[i]) { assert frac[i] == digits[cut + i]; }
    }
    DigitsValueAppend(whole, frac);
  }

  /** `Magnitude(n, p)` is a numeral that starts and ends with a digit. */
  lemma MagnitudeShape(n: nat, p: nat)
    ensures |Magnitude(n, p)| > 0 && NumericText(Magnitude(n, p))
    ensures IsDigit(Magnitude(n, p)[0]) && IsDigit(Magnitude(n, p)[|Magnitude(n, p)| - 1])
  {
    var whole, frac := MagnitudeParts(n, p);
    PointedShape(whole, frac, p, Magnitude(n, p));
  }

  lemma PointedShape(whole: string, frac: string, p: nat, m: string)
    requires m == whole + (if p == 0 then "" else "." + frac)
    requires |whole| >= 1 && |frac| == p && AllDigits(whole) && AllDigits(frac)
    ensures |m| > 0 && NumericText(m) && IsDigit(m[0]) && IsDigit(m[|m| - 1])
  {
    DigitsNumeric(whole);
    assert m[0] == whole[0];
    if p == 0 {
      assert m == whole;
    } else {
      var tail := "." + frac;
      DigitsNumeric(frac);
      NumericConcat(".", frac);
      NumericConcat(whole, tail);
      assert m[|m| - 1] == frac[p - 1];
    }
  }

  /** What `format(x, ...)` prints is a non-empty numeral with no white
      space at either end. */
  lemma FixedTrimmed(x: real, p: nat, plus: bool)
    ensures |Fixed(x, p, plus)| > 0 && Trimmed(Fixed(x, p, plus))
  {
    MagnitudeShape(Scaled(x, p), p);
    SignedTrimmed(Sign(x, plus), Magnitude(Scaled(x, p), p));
  }

  lemma SignedTrimmed(sign: string, m: string)
    requires sign == "-" || sign == "+" || sign == ""
    requires |m| > 0 && IsDigit(m[0]) && IsDigit(m[|m| - 1])
    ensures |sign + m| > 0 && Trimmed(sign + m)
  {
    assert (sign + m)[|sign + m| - 1] == m[|m| - 1];
  }

  /** What `format(x, ...)` prints, padded or not, is made only of digits,
      a sign, a point and spaces. */
  lemma FixedNumeric(x: real, p: nat, plus: bool, width: nat)
    ensures NumericText(Fixed(x, p, plus))
    ensures NumericText(PadLeft(Fixed(x, p, plus), width))
  {
    var sign := Sign(x, plus);
    MagnitudeShape(Scaled(x, p), p);
    assert NumericText(sign);
    NumericConcat(sign, Magnitude(Scaled(x, p), p));
    PadLeftNumeric(Fixed(x, p, plus), width);
  }

  lemma PadLeftNumeric(s: string, width: nat)
    requires NumericText(s)
    ensures NumericText(PadLeft(s, width))
  {
    if |s| < width {
      var spaces := seq(width - |s|, _ => ' ');
      assert NumericText(spaces);
      NumericConcat(spaces, s);
    }
  }

  /** `float` reads back what `format` printed: the reading rounded at `p` places. */
  lemma ParseFixed(x: real, p: nat, plus: bool, width: nat, pre: string, post: string)
    requires AllSpace(pre) && AllSpace(post)
    ensures ParseFloat(pre + PadLeft(Fixed(x, p, plus), width) + post) == Some(Rounded(x, p))
  {
    FixedTrimmed(x, p, plus);
    ParseFixedBare(x, p, plus);
    ParsePadded(Fixed(x, p, plus), Rounded(x, p), width, pre, post);
  }

  /** White space around a numeral, and padding on its left, do not change what `float` reads. */
  lemma ParsePadded(f: string, v: real, width: nat, pre: string, post: string)
    requires |f| > 0 && Trimmed(f) && ParseSignedDecimal(f) == Some(v)
    requires AllSpace(pre) && AllSpace(post)
    ensures ParseFloat(pre + PadLeft(f, width) + post) == Some(v)
  {
    StripPadLeft(f, width, pre, post);
    ParseStripped(pre + PadLeft(f, width) + post, f, v);
  }

  lemma StripPadLeft(f: string, width: nat, pre: string, post: string)
    requires |f| > 0 && Trimmed(f) && AllSpace(pre) && AllSpace(post)
    ensures Strip(pre + PadLeft(f, width) + post) == f
  {
    var padded := PadLeft(f, width);
    var spaces := padded[..|padded| - |f|];
    PadLeftSpaces(f, width, spaces);
    AllSpaceConcat(pre, spaces);
    assert pre + padded + post == (pre + spaces) + f + post;
    StripPadded(pre + spaces, f, post);
  }

  lemma PadLeftSpaces(s: string, width: nat, spaces: string)
    requires spaces == PadLeft(s, width)[..|PadLeft(s, width)| - |s|]
    ensures AllSpace(spaces) && PadLeft(s, width) == spaces + s
  {
  }

  lemma ParseStripped(s: string, t: string, v: real)
    requires Strip(s) == t && ParseSignedDecimal(t) == Some(v)
    ensures ParseFloat(s) == Some(v)
  {
  }

  /** `float(format(x, ...))` without padding. */
  lemma ParseFixedBare(x: real, p: nat, plus: bool)
    ensures ParseSignedDecimal(Fixed(x, p, plus)) == Some(Rounded(x, p))
  {
    var n := Scaled(x, p);
    var m := Magnitude(n, p);
    MagnitudeShape(n, p);
    ParseMagnitude(n, p);
    RoundedMagnitude(x, p);
    ReadSigned(Fixed(x, p, plus), Sign(x, plus), m, n as real / Pow10(p) as real, Rounded(x, p));
  }

  lemma ReadSigned(f: string, sign: string, m: string, v: real, w: real)
    requires sign == "-" || sign == "+" || sign == ""
    requires f == sign + m && |m| > 0 && IsDigit(m[0]) && ParseDecimal(m) == Some(v)
    requires w == if sign == "-" then -v else v
    ensures ParseSignedDecimal(f) == Some(w)
  {
    ParseSigned(sign, m, v);
  }

  /** The rounded reading is the printed magnitude over `10^p`, with the reading's sign. */
  lemma RoundedMagnitude(x: real, p: nat)
    ensures Rounded(x, p) == (var v := Scaled(x, p) as real / Pow10(p) as real; if x < 0.0 then -v else v)
  {
    NegateQuotient(Scaled(x, p) as real, Pow10(p) as real);
  }

  /** A sign in front of a numeral that starts with a digit negates it or not. */
  lemma ParseSigned(sign: string, m: string, v: real)
    requires sign == "-" || sign == "+" || sign == ""
    requires |m| > 0 && IsDigit(m[0]) && ParseDecimal(m) == Some(v)
    ensures ParseSignedDecimal(sign + m) == Some(if sign == "-" then -v else v)
  {
    if sign == "" {
      assert sign + m == m;
    } else {
      ParseAfterSign(sign + m, m, v);
    }
  }

  lemma ParseAfterSign(t: string, m: string, v: real)
    requires |t| > 0 && (t[0] == '-' || t[0] == '+') && t[1..] == m
    requires ParseDecimal(m) == Some(v)
    ensures ParseSignedDecimal(t) == Some(if t[0] == '-' then -v else v)
  {
  }

  /** The magnitude printed for scaled value `n` reads back as `n / 10^p`. */
  lemma ParseMagnitude(n: nat, p: nat)
    ensures ParseDecimal(Magnitude(n, p)) == Some(n as real / Pow10(p) as real)
  {
    var whole, frac := MagnitudeParts(n, p);
    if p == 0 {
      ParseWhole(Magnitude(n, p), whole, n);
      DivOne(n as real, Pow10(0) as real);
    } else {
      ParseWithPoint(whole, frac, DigitsValue(whole), DigitsValue(frac), Pow10(p), n);
    }
  }

  lemma ParseWhole(m: string, whole: string, n: nat)
    requires m == whole && |whole| > 0 && AllDigits(whole) && DigitsValue(whole) == n
    ensures ParseDecimal(m) == Some(n as real)
  {
    forall k | 0 <= k < |whole| ensures whole[k] != '.' {
      assert IsDigit(whole[k]);
    }
    NoOccurrence(whole, ".");
  }

  lemma DivOne(x: real, d: real)
    requires d == 1.0
    ensures x / d == x
  {
  }

  lemma ParseWithPoint(whole: string, frac: string, w: nat, r: nat, P: nat, n: nat)
    requires AllDigits(whole) && AllDigits(frac) && |whole| > 0
    requires w == DigitsValue(whole) && r == DigitsValue(frac) && P == Pow10(|frac|)
    requires w * P + r == n
    ensures ParseDecimal(whole + ("." + frac)) == Some(n as real / P as real)
  {
    ParsePointed(whole, frac);
    ScaledRead(w, P, r, n, ParseDecimal(whole + ("." + frac)));
  }

  lemma ScaledRead(w: int, P: int, r: int, n: int, v: Option<real>)
    requires P > 0 && n == w * P + r
    requires v == Some(w as real + r as real / P as real)
    ensures v == Some(n as real / P as real)
  {
    ScaledSum(w, P, r, n);
  }

  lemma ParsePointed(whole: string, frac: string)
    requires AllDigits(whole) && AllDigits(frac) && |whole| > 0
    ensures ParseDecimal(whole + ("." + frac)) ==
              Some(DigitsValue(whole) as real + DigitsValue(frac) as real / Pow10(|frac|) as real)
  {
    ParseAtPoint(whole + ("." + frac), whole, frac);
    PointDigits(whole, frac);
  }

  lemma ParseAtPoint(m: string, whole: string, frac: string)
    requires m == whole + ("." + frac) && AllDigits(whole)
    ensures ParseDecimal(m) == PointValue(whole, frac)
  {
    PointSplit(whole, frac);
    ParseDecimalAt(m, whole, frac);
  }

  lemma PointDigits(whole: string, frac: string)
    requires AllDigits(whole) && AllDigits(frac) && |whole| > 0
    ensures PointValue(whole, frac) ==
              Some(DigitsValue(whole) as real + DigitsValue(frac) as real / Pow10(|frac|) as real)
  {
  }

  lemma ParseDecimalAt(t: string, whole: string, frac: string)
    requires IndexOf(t, ".") == Some(|whole|) && |whole| < |t|
    requires t[..|whole|] == whole && t[|whole| + 1..] == frac
    ensures ParseDecimal(t) == PointValue(whole, frac)
  {
  }

  /** In `whole.frac` the first point is the one after `whole`. */
  lemma PointSplit(whole: string, frac: string)
    requires AllDigits(whole)
    ensures IndexOf(whole + ("." + frac), ".") == Some(|whole|)
    ensures (whole + ("." + frac))[..|whole|] == whole
    ensures (whole + ("." + frac))[|whole| + 1..] == frac
  {
    NoOccurrence(whole, ".");
    IndexOfAfterPrefix(whole, "." + frac, ".");
    assert OccursAt("." + frac, ".", 0);
  }

  lemma NegateQuotient(a: real, b: real)
    requires b != 0.0
    ensures -(a / b) == -a / b
  {
  }

  /** `w + r / P == n / P` over the reals when `n == w * P + r` over the integers. */
  lemma ScaledSum(w: int, P: int, r: int, n: int)
    requires P > 0 && n == w * P + r
    ensures w as real + r as real / P as real == n as real / P as real
  {
    assert (w * P) as real == w as real * P as real;
    assert n as real == w as real * P as real + r as real;
  }

  /** The server's `int(...)` reads back the sensor's `str(n)`. */
  lemma ParseFormatInt(n: int, pre: string, post: string)
    requires AllSpace(pre) && AllSpace(post)
    ensures ParseInt(pre + FormatInt(n) + post) == Some(n)
  {
    var f := FormatInt(n);
    var d := NatDigits(if n < 0 then -n else n);
    assert f[|f| - 1] == d[|d| - 1];
    StripPadded(pre, f, post);
    SignedDigitsOfFormat(n);
  }

  lemma SignedDigitsOfFormat(n: int)
    ensures ParseSignedDigits(FormatInt(n)) == Some(n)
  {
    var f := FormatInt(n);
    if n < 0 {
      assert f[1..] == NatDigits(-n);
    } else {
      assert IsDigit(f[0]);
    }
  }

  /** `str(n)` is a numeral: digits and possibly a minus sign. */
  lemma FormatIntShape(n: int)
    ensures |FormatInt(n)| > 0 && NumericText(FormatInt(n)) && Trimmed(FormatInt(n))
  {
    var d := NatDigits(if n < 0 then -n else n);
    DigitsNumeric(d);
    if n < 0 {
      assert NumericText("-");
      NumericConcat("-", d);
      SignedTrimmed("-", d);
    } else {
      SignedTrimmed("", d);
    }
  }
}
