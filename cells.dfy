/**
 * The scalar values a table row holds once the file has been read, and the
 * tests the transform applies to them: pandas' missing-value test, Python's
 * `str.strip()`, Python's `float()` on a string, and pandas' `to_numeric`
 * with `errors='coerce'`.
 */
module Cells {
  import opened Wrappers

  /** A floating-point result, up to its exact value: IEEE rounding is not modelled. */
  datatype Number = Finite(value: real) | Infinity(negative: bool) | NaN

  /** One cell: `None`, a string, or a number (a float NaN is `Num(NaN)`). */
  datatype Cell = Missing | Text(s: string) | Num(n: Number)

  /** Zero; `-0.0 == 0` holds in Python, and the reals have a single zero. */
  const Zero: Number := Finite(0.0)

  /** Python's `str.isspace()` for one character: the whitespace `str.strip()` removes. */
  predicate IsSpace(c: char) {
    var k := c as int;
    || k == 0x20 || 0x09 <= k <= 0x0D || 0x1C <= k <= 0x1F || k == 0x85 || k == 0xA0
    || k == 0x1680 || 0x2000 <= k <= 0x200A || k == 0x2028 || k == 0x2029
    || k == 0x202F || k == 0x205F || k == 0x3000
  }

  /**
   * The whitespace `float()` ignores around a number.  `float()` turns each
   * non-ASCII whitespace character into a space, keeps ASCII characters as
   * they are, and then strips only the ASCII space, tab, newline, vertical
   * tab, form feed and carriage return; so the separators U+001C..U+001F,
   * which `str.isspace()` accepts, are not ignored.
   */
  predicate IsFloatSpace(c: char) {
    IsSpace(c) && !(0x1C <= c as int <= 0x1F)
  }

  /** The length of the run of `space` characters that starts `s`. */
  function LeadingSpaces(s: string, space: char -> bool): (n: nat)
    ensures n <= |s|
    ensures forall k :: 0 <= k < n ==> space(s[k])
    ensures n < |s| ==> !space(s[n])
  {
    if s != [] && space(s[0]) then 1 + LeadingSpaces(s[1..], space) else 0
  }

  /** The length of the run of `space` characters that ends `s`. */
  function TrailingSpaces(s: string, space: char -> bool): (n: nat)
    ensures n <= |s|
    ensures forall k :: |s| - n <= k < |s| ==> space(s[k])
    ensures n < |s| ==> !space(s[|s| - 1 - n])
  {
    if s != [] && space(s[|s| - 1]) then 1 + TrailingSpaces(s[..|s| - 1], space) else 0
  }

  /**
   * `s` without its leading and trailing `space` characters: Python's
   * `str.strip()` with `IsSpace`, and the trimming `float()` does with
   * `IsFloatSpace`.
   */
  function Strip(s: string, space: char -> bool): (r: string)
    ensures LeadingSpaces(s, space) + |r| <= |s|
    ensures r == s[LeadingSpaces(s, space)..LeadingSpaces(s, space) + |r|]
    ensures forall k :: LeadingSpaces(s, space) + |r| <= k < |s| ==> space(s[k])
    ensures r != [] ==> !space(r[0]) && !space(r[|r| - 1])
  {
    var t := s[LeadingSpaces(s, space)..];
    t[..|t| - TrailingSpaces(t, space)]
  }

  /** Lower-cases an ASCII letter and leaves every other character alone. */
  function Lower(c: char): (d: char)
    ensures 'A' <= c <= 'Z' ==> d as int == c as int + 32
    ensures !('A' <= c <= 'Z') ==> d == c
  {
    if 'A' <= c <= 'Z' then (c as int + 32) as char else c
  }

  function LowerAll(s: string): (r: string)
    ensures |r| == |s|
    ensures forall k :: 0 <= k < |s| ==> r[k] == Lower(s[k])
  {
    seq(|s|, k requires 0 <= k < |s| => Lower(s[k]))
  }

  predicate IsDigit(c: char) {
    '0' <= c <= '9'
  }

  predicate AllDigits(s: string) {
    forall k :: 0 <= k < |s| ==> IsDigit(s[k])
  }

  /** The length of the run of ASCII digits that starts at position `at` of `s`. */
  function DigitRun(s: string, at: nat): (n: nat)
    requires at <= |s|
    ensures at + n <= |s|
    ensures forall k :: at <= k < at + n ==> IsDigit(s[k])
    ensures at + n < |s| ==> !IsDigit(s[at + n])
    decreases |s| - at
  {
    if at < |s| && IsDigit(s[at]) then 1 + DigitRun(s, at + 1) else 0
  }

  /** The value of a string of decimal digits. */
  function DigitsValue(ds: string): nat
    requires AllDigits(ds)
  {
    if ds == [] then 0 else 10 * DigitsValue(ds[..|ds| - 1]) + (ds[|ds| - 1] as int - '0' as int)
  }

  /** `m * 10^e`, one power of ten at a time. */
  function Scale(m: nat, e: int): real
    decreases if e >= 0 then e else -e
  {
    if e == 0 then m as real
    else if e > 0 then 10.0 * Scale(m, e - 1)
    else Scale(m, e + 1) / 10.0
  }

  /** An optional leading `+` or `-`: whether it was `-`, and the rest. */
  function SplitSign(s: string): (bool, string) {
    if s != [] && (s[0] == '+' || s[0] == '-') then (s[0] == '-', s[1..]) else (false, s)
  }

  /** An exponent suffix: nothing, or `e`/`E`, an optional sign and at least one digit. */
  function ParseExponent(s: string): Option<int> {
    if s == [] then Some(0)
    else if s[0] != 'e' && s[0] != 'E' then None
    else
      var (negative, ds) := SplitSign(s[1..]);
      if ds != [] && AllDigits(ds) then
        var magnitude: int := DigitsValue(ds);
        Some(if negative then -magnitude else magnitude)
      else None
  }

  /**
   * An unsigned decimal numeral as `float()` reads it: digits, optionally a
   * point and more digits (at least one digit in all), then an optional
   * exponent, and nothing after.  `i` counts the integer digits, `p` the
   * point and `j` the fraction digits.
   */
  function ParseDecimal(s: string): Option<real> {
    var i := DigitRun(s, 0);
    var p := if i < |s| && s[i] == '.' then 1 else 0;
    ParseNumeral(s, i, p, DigitRun(s, i + p))
  }

  /** The numeral `s` once its `i` integer digits, `p` point and `j` fraction digits are known. */
  function ParseNumeral(s: string, i: nat, p: nat, j: nat): Option<real>
    requires DigitsAt(s, i, p, j)
  {
    if i + j == 0 then None
    else
      match ParseExponent(s[i + p + j..])
      case None => None
      case Some(e) => Some(NumeralValue(s, i, p, j, e))
  }

  /** `s` holds `i` digits, then `p` other characters, then `j` digits. */
  predicate DigitsAt(s: string, i: nat, p: nat, j: nat) {
    && i + p + j <= |s|
    && (forall k :: 0 <= k < i ==> IsDigit(s[k]))
    && (forall k :: i + p <= k < i + p + j ==> IsDigit(s[k]))
  }

  /** The value of a numeral with `i` integer digits, a point when `p == 1`, `j` fraction digits and exponent `e`. */
  function NumeralValue(s: string, i: nat, p: nat, j: nat, e: int): real
    requires DigitsAt(s, i, p, j)
  {
    var digits := s[..i] + s[i + p..i + p + j];
    assert AllDigits(digits) by {
      AllDigitsAppend(s[..i], s[i + p..i + p + j]);
    }
    Scale(DigitsValue(digits), e - j)
  }

  /**
   * Python's `float()` on a string: surrounding whitespace (`IsFloatSpace`)
   * is ignored, then an optional sign, then `inf`, `infinity` or `nan` in any letter case, or a
   * decimal numeral.  `None` stands for the `ValueError` it raises otherwise.
   */
  function ParseFloat(s: string): Option<Number> {
    var (negative, body) := SplitSign(Strip(s, IsFloatSpace));
    var word := LowerAll(body);
    if word == "inf" || word == "infinity" then Some(Infinity(negative))
    else if word == "nan" then Some(NaN)
    else
      match ParseDecimal(body)
      case None => None
      case Some(x) => Some(Finite(if negative then -x else x))
  }

  /** pandas' `isna`: `None` or a float NaN. */
  predicate IsNa(c: Cell) {
    c == Missing || c == Num(NaN)
  }

  /** The missing-value test of `transpose_row`: NA, or a string that strips to `-` or to nothing. */
  predicate IsMissing(c: Cell) {
    IsNa(c) || (c.Text? && (Strip(c.s, IsSpace) == "-" || Strip(c.s, IsSpace) == ""))
  }

  /** Python's `float(value)`: `None` stands for the `ValueError` or `TypeError` it raises. */
  function FloatOf(c: Cell): Option<Number> {
    match c
    case Missing => None
    case Text(s) => ParseFloat(s)
    case Num(n) => Some(n)
  }

  /** pandas' `to_numeric(..., errors='coerce')` on one value: what does not parse becomes NaN. */
  function ToNumeric(c: Cell): Number {
    FloatOf(c).GetOr(NaN)
  }

  /** A string made only of whitespace and dashes is not a number, whichever whitespace `float()` leaves in place. */
  lemma BlankNeverParses(s: string)
    requires forall k :: 0 <= k < |s| ==> IsSpace(s[k]) || s[k] == '-'
    ensures ParseFloat(s) == None
  {
    var t := Strip(s, IsFloatSpace);
    var body := SplitSign(t).1;
    if body != [] {
      var at := LeadingSpaces(s, IsFloatSpace) + |t| - |body|;
      assert body[0] == t[|t| - |body|] == s[at];
    }
    NoNumeralStart(body);
  }

  /** A string that starts with whitespace or a dash is neither an infinity, a NaN nor a decimal numeral. */
  lemma NoNumeralStart(body: string)
    requires body != [] ==> IsSpace(body[0]) || body[0] == '-'
    ensures var word := LowerAll(body); word != "inf" && word != "infinity" && word != "nan"
    ensures ParseDecimal(body) == None
  {
    if body != [] {
      assert LowerAll(body)[0] == Lower(body[0]);
    }
    assert DigitRun(body, 0) == 0;
  }

  /** A string that strips to `-` or to nothing never parses, so that half of the missing-value test only repeats the parse test. */
  lemma MarkerNeverParses(s: string)
    requires Strip(s, IsSpace) == "-" || Strip(s, IsSpace) == ""
    ensures ParseFloat(s) == None
  {
    var r, lead := Strip(s, IsSpace), LeadingSpaces(s, IsSpace);
    forall k | 0 <= k < |s|
      ensures IsSpace(s[k]) || s[k] == '-'
    {
      if lead <= k < lead + |r| {
        assert s[k] == r[k - lead];
      }
    }
    BlankNeverParses(s);
  }

  lemma {:induction false} DigitsValueZero(ds: string)
    requires AllDigits(ds)
    ensures DigitsValue(ds) == 0 <==> forall k :: 0 <= k < |ds| ==> ds[k] == '0'
  {
    if ds != [] {
      var init := ds[..|ds| - 1];
      DigitsValueZero(init);
      assert forall k :: 0 <= k < |init| ==> init[k] == ds[k];
    }
  }

  /** A numeral's value is zero exactly when its mantissa is. */
  lemma {:induction false} ScaleZero(m: nat, e: int)
    ensures Scale(m, e) == 0.0 <==> m == 0
    decreases if e >= 0 then e else -e
  {
    if e > 0 {
      ScaleZero(m, e - 1);
    } else if e < 0 {
      ScaleZero(m, e + 1);
    }
  }

  /** No `e` or `E` comes before position `k` of `t`. */
  predicate NoExponentBefore(t: string, k: int) {
    forall j :: 0 <= j < k && j < |t| ==> t[j] != 'e' && t[j] != 'E'
  }

  /** Every digit of the numeral `t` before its exponent is `0`. */
  predicate ZeroMantissa(t: string) {
    forall k :: 0 <= k < |t| && IsDigit(t[k]) && NoExponentBefore(t, k) ==> t[k] == '0'
  }

  /**
   * The layout of a numeral: `i` integer digits, a point when `p == 1`, `j`
   * fraction digits, then nothing or an exponent.  Its digits before the
   * exponent are all `0` exactly when the integer and fraction digits are.
   */
  lemma MantissaLayout(t: string, i: nat, p: nat, j: nat)
    requires p <= 1 && i + p + j <= |t|
    requires forall k :: 0 <= k < i ==> IsDigit(t[k])
    requires p == 1 ==> t[i] == '.'
    requires forall k :: i + p <= k < i + p + j ==> IsDigit(t[k])
    requires i + p + j < |t| ==> t[i + p + j] == 'e' || t[i + p + j] == 'E'
    ensures ZeroMantissa(t) <==>
      (forall k :: 0 <= k < i ==> t[k] == '0') && (forall k :: i + p <= k < i + p + j ==> t[k] == '0')
  {
    assert forall k :: 0 <= k < i + p + j ==> t[k] != 'e' && t[k] != 'E';
    if ZeroMantissa(t) {
      forall k | 0 <= k < i || i + p <= k < i + p + j
        ensures t[k] == '0'
      {
        assert NoExponentBefore(t, k);
      }
    }
  }

  /** Where the integer digits, the point, the fraction digits and the exponent of a parsed numeral lie. */
  lemma ParseDecimalLayout(t: string) returns (i: nat, p: nat, j: nat, e: int)
    requires ParseDecimal(t).Some?
    ensures p <= 1 && DigitsAt(t, i, p, j)
    ensures p == 1 ==> t[i] == '.'
    ensures p == 0 ==> j == 0
    ensures i + p + j < |t| ==> t[i + p + j] == 'e' || t[i + p + j] == 'E'
    ensures ParseExponent(t[i + p + j..]) == Some(e)
    ensures ParseDecimal(t) == Some(NumeralValue(t, i, p, j, e))
  {
    i := DigitRun(t, 0);
    p := if i < |t| && t[i] == '.' then 1 else 0;
    j := DigitRun(t, i + p);
    assert ParseDecimal(t) == ParseNumeral(t, i, p, j);
    assert p == 0 ==> j == 0 by {
      if p == 0 && i < |t| {
        assert !IsDigit(t[i]);
      }
    }
    e := ParseNumeralExponent(t, i, p, j);
  }

  /** A numeral that parses ends in nothing or in an exponent, whose value is `e`. */
  lemma ParseNumeralExponent(t: string, i: nat, p: nat, j: nat) returns (e: int)
    requires DigitsAt(t, i, p, j) && ParseNumeral(t, i, p, j).Some?
    ensures i + p + j < |t| ==> t[i + p + j] == 'e' || t[i + p + j] == 'E'
    ensures ParseExponent(t[i + p + j..]) == Some(e)
    ensures ParseNumeral(t, i, p, j) == Some(NumeralValue(t, i, p, j, e))
  {
    var tail := t[i + p + j..];
    e := ParseExponent(tail).value;
    assert i + p + j < |t| ==> t[i + p + j] == tail[0];
  }

  /** A numeral's value is zero exactly when its integer and fraction digits are all `0`. */
  lemma NumeralValueZero(t: string, i: nat, p: nat, j: nat, e: int)
    requires DigitsAt(t, i, p, j)
    ensures NumeralValue(t, i, p, j, e) == 0.0 <==>
      (forall k :: 0 <= k < i ==> t[k] == '0') && (forall k :: i + p <= k < i + p + j ==> t[k] == '0')
  {
    var whole, fraction := t[..i], t[i + p..i + p + j];
    var digits := whole + fraction;
    AllDigitsAppend(whole, fraction);
    ScaleZero(DigitsValue(digits), e - j);
    DigitsValueZero(digits);
    AllZeroAppend(whole, fraction);
    SliceAllZero(t, 0, i);
    SliceAllZero(t, i + p, i + p + j);
  }

  /** The value of a numeral laid out as `ParseDecimalLayout` describes is zero exactly when its digits before the exponent are `0`. */
  lemma LayoutZero(t: string, i: nat, p: nat, j: nat, e: int)
    requires p <= 1 && DigitsAt(t, i, p, j)
    requires p == 1 ==> t[i] == '.'
    requires i + p + j < |t| ==> t[i + p + j] == 'e' || t[i + p + j] == 'E'
    ensures NumeralValue(t, i, p, j, e) == 0.0 <==> ZeroMantissa(t)
  {
    NumeralValueZero(t, i, p, j, e);
    MantissaLayout(t, i, p, j);
  }

  /** A numeral that parses has the value zero exactly when all its digits before the exponent are `0`. */
  lemma ParseDecimalZero(t: string)
    requires ParseDecimal(t).Some?
    ensures ParseDecimal(t).value == 0.0 <==> ZeroMantissa(t)
  {
    var i, p, j, e := ParseDecimalLayout(t);
    LayoutZero(t, i, p, j, e);
  }

  lemma AllDigitsAppend(a: string, b: string)
    requires AllDigits(a) && AllDigits(b)
    ensures AllDigits(a + b)
  {
    assert forall k :: 0 <= k < |a + b| ==> (a + b)[k] == if k < |a| then a[k] else b[k - |a|];
  }

  lemma SliceAllZero(t: string, lo: nat, hi: nat)
    requires lo <= hi <= |t|
    ensures (forall k :: 0 <= k < |t[lo..hi]| ==> t[lo..hi][k] == '0') <==> (forall k :: lo <= k < hi ==> t[k] == '0')
  {
    assert forall k :: lo <= k < hi ==> t[k] == t[lo..hi][k - lo];
  }

  lemma AllZeroAppend(a: string, b: string)
    ensures (forall k :: 0 <= k < |a + b| ==> (a + b)[k] == '0') <==>
      (forall k :: 0 <= k < |a| ==> a[k] == '0') && (forall k :: 0 <= k < |b| ==> b[k] == '0')
  {
    assert forall k :: 0 <= k < |a| ==> (a + b)[k] == a[k];
    assert forall k :: 0 <= k < |b| ==> (a + b)[|a| + k] == b[k];
  }

  /**
   * `float(s)` is zero exactly when `s`, stripped and unsigned, is a decimal
   * numeral whose digits before the exponent are all `0`: `0`, `-0.00`,
   * `.0e5`, but not `inf`, `nan` or `0.01`.
   */
  lemma ParseFloatIsZero(s: string)
    ensures var body := SplitSign(Strip(s, IsFloatSpace)).1;
      ParseFloat(s) == Some(Zero) <==> ParseDecimal(body).Some? && ZeroMantissa(body)
  {
    var (negative, body) := SplitSign(Strip(s, IsFloatSpace));
    var word := LowerAll(body);
    if word == "inf" || word == "infinity" || word == "nan" {
      assert Lower(body[0]) == word[0];
      assert DigitRun(body, 0) == 0;
      assert ParseDecimal(body).None?;
    } else if ParseDecimal(body).Some? {
      ParseDecimalZero(body);
    }
  }
}
