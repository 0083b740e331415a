/**
 * Attribute parsing: JavaScript's `parseInt` and `parseFloat` as prefix
 * readers, `parseSizeValue` (fallback 10) for the gap and width attributes,
 * and `parseInt(...) || 3` for the `columns` attribute.
 *
 * Both readers skip leading white space and take an optional sign. `parseInt`
 * without a radix then reads a `0x` / `0X` prefix as hexadecimal and decimal
 * digits otherwise; `parseFloat` reads decimal digits only. Numbers are
 * integers here: the rest of the string (a unit such as "px", a fraction) is
 * ignored.
 */
module Parsing {
  import opened Common

  /** The weight of a digit character in bases up to 16; 16 for any other character. */
  function DigitWeight(c: char): (d: nat)
    ensures d <= 16
  {
    if '0' <= c <= '9' then (c as int) - ('0' as int)
    else if 'a' <= c <= 'f' then (c as int) - ('a' as int) + 10
    else if 'A' <= c <= 'F' then (c as int) - ('A' as int) + 10
    else 16
  }

  predicate IsDigitIn(c: char, radix: nat) {
    DigitWeight(c) < radix
  }

  predicate IsDigit(c: char) {
    IsDigitIn(c, 10)
  }

  function DigitChar(d: nat): (c: char)
    requires d < 10
    ensures IsDigit(c) && DigitWeight(c) == d
  {
    (('0' as int) + d) as char
  }

  predicate AllDigits(s: string, radix: nat) {
    forall i :: 0 <= i < |s| ==> IsDigitIn(s[i], radix)
  }

  /** Length of the run of digits of base `radix` at the start of `s`. */
  function DigitRun(s: string, radix: nat): (n: nat)
    ensures n <= |s|
    ensures AllDigits(s[..n], radix)
    ensures n < |s| ==> !IsDigitIn(s[n], radix)
  {
    if |s| == 0 || !IsDigitIn(s[0], radix) then 0
    else
      var k := DigitRun(s[1..], radix);
      assert s[..1 + k] == [s[0]] + s[1..][..k];
      1 + k
  }

  /** Value of a digit string in base `radix`, most significant digit first. */
  function DigitsValue(d: string, radix: nat): nat
    requires AllDigits(d, radix)
  {
    if |d| == 0 then 0
    else radix * DigitsValue(d[..|d| - 1], radix) + DigitWeight(d[|d| - 1])
  }

  /**
   * The white space and line terminators that `parseInt` and `parseFloat` skip:
   * tab, line feed, vertical tab, form feed, carriage return, space, no-break
   * space, the byte-order mark, the line and paragraph separators and the
   * other space separators of Unicode.
   */
  predicate IsSpace(c: char) {
    var k := c as int;
    || 0x09 <= k <= 0x0D || k == 0x20 || k == 0xA0 || k == 0x1680
    || 0x2000 <= k <= 0x200A || k == 0x2028 || k == 0x2029 || k == 0x202F
    || k == 0x205F || k == 0x3000 || k == 0xFEFF
  }

  /** `s` without its leading white space. */
  function TrimStart(s: string): (t: string)
    ensures |t| <= |s|
    ensures |t| > 0 ==> !IsSpace(t[0])
  {
    if |s| > 0 && IsSpace(s[0]) then TrimStart(s[1..]) else s
  }

  /** `TrimStart` keeps a suffix and drops white space only. */
  lemma {:induction false} TrimDropsSpaces(s: string)
    ensures TrimStart(s) == s[|s| - |TrimStart(s)|..]
    ensures forall i :: 0 <= i < |s| - |TrimStart(s)| ==> IsSpace(s[i])
  {
    if |s| > 0 && IsSpace(s[0]) {
      TrimDropsSpaces(s[1..]);
      assert forall i :: 1 <= i < |s| - |TrimStart(s)| ==> s[i] == s[1..][i - 1];
    }
  }

  /** A string that does not start with white space is its own trimmed form. */
  lemma TrimPlain(s: string)
    requires |s| == 0 || !IsSpace(s[0])
    ensures TrimStart(s) == s
  {
  }

  /** The string after an optional leading sign. */
  function Unsigned(s: string): string {
    if |s| > 0 && (s[0] == '-' || s[0] == '+') then s[1..] else s
  }

  /** Applies the sign that `s` starts with, if any, to a magnitude. */
  function Signed(s: string, magnitude: nat): int {
    if |s| > 0 && s[0] == '-' then -(magnitude as int) else magnitude
  }

  /** The value of the run of base-`radix` digits at the start of `s`; `None` (NaN) without one. */
  function DigitPrefix(s: string, radix: nat): (r: Option<nat>)
    ensures r.Some? <==> |s| > 0 && IsDigitIn(s[0], radix)
  {
    var n := DigitRun(s, radix);
    if n == 0 then None else Some(DigitsValue(s[..n], radix))
  }

  /**
   * An optional sign followed by at least one decimal digit, at the very start
   * of `s`. `None` stands for JavaScript's NaN.
   */
  function ParseDecimal(s: string): Option<int> {
    match DigitPrefix(Unsigned(s), 10)
    case None => None
    case Some(m) => Some(Signed(s, m))
  }

  /** `parseFloat`, integer part only: white space skipped, then a signed decimal prefix. */
  function ParseFloat(s: string): Option<int> {
    ParseDecimal(TrimStart(s))
  }

  /** `0x` or `0X` at the start of `s`. */
  predicate HexMarked(s: string) {
    |s| >= 2 && s[0] == '0' && (s[1] == 'x' || s[1] == 'X')
  }

  /**
   * `parseInt` without a radix: white space skipped, an optional sign, then
   * hexadecimal digits after a `0x` marker and decimal digits otherwise.
   */
  function ParseInt(s: string): Option<int> {
    var t := TrimStart(s);
    var body := Unsigned(t);
    var magnitude := if HexMarked(body) then DigitPrefix(body[2..], 16) else DigitPrefix(body, 10);
    match magnitude
    case None => None
    case Some(m) => Some(Signed(t, m))
  }

  /** Without a hexadecimal marker `parseInt` and `parseFloat` read the same integer. */
  lemma ParseIntDecimal(s: string)
    requires !HexMarked(Unsigned(TrimStart(s)))
    ensures ParseInt(s) == ParseFloat(s)
  {
  }

  /** Decimal rendering of a natural number, without leading zeros. */
  function Decimal(n: nat): (s: string)
    ensures |s| >= 1
    ensures AllDigits(s, 10)
  {
    if n < 10 then [DigitChar(n)]
    else Decimal(n / 10) + [DigitChar(n % 10)]
  }

  /** Decimal rendering of an integer, with a leading '-' when negative. */
  function Show(x: int): string {
    if x < 0 then "-" + Decimal(-x) else Decimal(x)
  }

  /** A suffix that cannot extend the number in front of it, such as "px" or "". */
  predicate UnitSuffix(u: string) {
    |u| == 0 || !IsDigit(u[0])
  }

  /** A suffix that does not turn a leading "0" into the hexadecimal marker `0x`. */
  predicate NotHexAfterZero(x: int, u: string) {
    x != 0 || |u| == 0 || (u[0] != 'x' && u[0] != 'X')
  }

  lemma {:induction false} DecimalValue(n: nat)
    ensures DigitsValue(Decimal(n), 10) == n
  {
    if n >= 10 {
      DecimalValue(n / 10);
      var d := Decimal(n / 10) + [DigitChar(n % 10)];
      assert d[..|d| - 1] == Decimal(n / 10);
    }
  }

  /** The rendering of a positive number does not start with '0'. */
  lemma {:induction false} DecimalLead(n: nat)
    requires n > 0
    ensures Decimal(n)[0] != '0'
  {
    if n >= 10 {
      DecimalLead(n / 10);
    }
  }

  lemma {:induction false} DigitRunStopsAtUnit(d: string, u: string)
    requires AllDigits(d, 10) && UnitSuffix(u)
    ensures DigitRun(d + u, 10) == |d|
  {
    if |d| > 0 {
      assert (d + u)[0] == d[0];
      assert (d + u)[1..] == d[1..] + u;
      DigitRunStopsAtUnit(d[1..], u);
    } else {
      assert d + u == u;
    }
  }

  lemma UnsignedShow(x: int, u: string)
    ensures Unsigned(Show(x) + u) == Decimal(Abs(x)) + u
    ensures |Show(x) + u| > 0 && ((Show(x) + u)[0] == '-' <==> x < 0)
    ensures !IsSpace((Show(x) + u)[0])
  {
    var d := Decimal(Abs(x));
    assert IsDigit(d[0]);
    if x < 0 {
      assert Show(x) + u == ['-'] + (d + u);
    } else {
      assert Show(x) + u == d + u;
      assert (d + u)[0] == d[0];
    }
  }

  /** Reading back a rendered integer followed by a unit gives the integer. */
  lemma ParseShowRoundTrip(x: int, u: string)
    requires UnitSuffix(u)
    ensures ParseDecimal(Show(x) + u) == Some(x)
    ensures ParseFloat(Show(x) + u) == Some(x)
  {
    var d := Decimal(Abs(x));
    DecimalValue(Abs(x));
    DigitRunStopsAtUnit(d, u);
    UnsignedShow(x, u);
    TrimPlain(Show(x) + u);
    assert (d + u)[..|d|] == d;
  }

  /** `parseInt` reads a rendered integer back too, unless a "0" is followed by an `x`. */
  lemma ParseIntShowRoundTrip(x: int, u: string)
    requires UnitSuffix(u) && NotHexAfterZero(x, u)
    ensures ParseInt(Show(x) + u) == Some(x)
  {
    ParseShowRoundTrip(x, u);
    UnsignedShow(x, u);
    TrimPlain(Show(x) + u);
    var d := Decimal(Abs(x));
    if x != 0 {
      DecimalLead(Abs(x));
      assert (d + u)[0] == d[0];
    } else {
      assert d == "0";
      assert |u| > 0 ==> (d + u)[1] == u[0];
    }
    ParseIntDecimal(Show(x) + u);
  }

  /** Leading white space changes nothing: both readers skip it. */
  lemma {:induction false} TrimSpaces(ws: string, s: string)
    requires forall i :: 0 <= i < |ws| ==> IsSpace(ws[i])
    ensures TrimStart(ws + s) == TrimStart(s)
    ensures ParseFloat(ws + s) == ParseFloat(s) && ParseInt(ws + s) == ParseInt(s)
  {
    if |ws| > 0 {
      assert (ws + s)[0] == ws[0];
      assert (ws + s)[1..] == ws[1..] + s;
      TrimSpaces(ws[1..], s);
    } else {
      assert ws + s == s;
    }
  }

  /** Fallback of a gap or width attribute that is missing or not numeric. */
  const DefaultSize: int := 10

  /**
   * `parseSizeValue`: a missing or empty attribute and a string without a numeric
   * prefix give 10; otherwise the numeric prefix, unit ignored, sign kept.
   */
  function ParseSizeValue(v: Option<string>): (r: int)
    ensures v.None? ==> r == DefaultSize
    ensures v.Some? && ParseFloat(v.value).None? ==> r == DefaultSize
    ensures v.Some? && ParseFloat(v.value).Some? ==> r == ParseFloat(v.value).value
  {
    if v.None? || v.value == "" then DefaultSize
    else
      match ParseFloat(v.value)
      case None => DefaultSize
      case Some(n) => n
  }

  /** A rendered number with a unit, such as "20px", "0" or "-5", after any white space, is read back exactly. */
  lemma SizeValueOfNumber(ws: string, x: int, u: string)
    requires forall i :: 0 <= i < |ws| ==> IsSpace(ws[i])
    requires UnitSuffix(u)
    ensures ParseSizeValue(Some(ws + (Show(x) + u))) == x
  {
    ParseShowRoundTrip(x, u);
    TrimSpaces(ws, Show(x) + u);
  }

  /** A string whose start, after white space and sign, is not a digit falls back to 10. */
  lemma SizeValueWithoutNumber(s: string)
    requires |Unsigned(TrimStart(s))| == 0 || !IsDigit(Unsigned(TrimStart(s))[0])
    ensures ParseSizeValue(Some(s)) == DefaultSize
  {
  }

  /** Fallback column count of the `columns` attribute. */
  const DefaultColumns: int := 3

  /** `x || 3`: NaN and 0 are falsy. */
  function OrDefaultColumns(n: Option<int>): int {
    match n
    case None => DefaultColumns
    case Some(k) => if k == 0 then DefaultColumns else k
  }

  /** `parseInt(value || '3') || 3` of the `columns` attribute. */
  function ParseColumns(v: Option<string>): (r: int)
    ensures r != 0
    ensures v.Some? && ParseInt(v.value).Some? && ParseInt(v.value).value != 0 ==> r == ParseInt(v.value).value
    ensures v.None? || ParseInt(v.value).None? || ParseInt(v.value) == Some(0) ==> r == DefaultColumns
  {
    ParseThree();
    OrDefaultColumns(ParseInt(if v.None? || v.value == "" then "3" else v.value))
  }

  lemma ParseThree()
    ensures ParseInt("3") == Some(3)
  {
    assert Show(3) + "" == "3";
    ParseIntShowRoundTrip(3, "");
  }

  lemma ParseNull()
    ensures ParseInt("null") == None && ParseInt("") == None
  {
    TrimPlain("null");
    assert !HexMarked("null") && !IsDigitIn("null"[0], 10);
  }

  /** `parseInt(value) || 3`, where `parseInt(null)` reads the string "null". */
  function ParseColumnsStandalone(v: Option<string>): int {
    OrDefaultColumns(ParseInt(match v case None => "null" case Some(s) => s))
  }

  /** The two spellings of the `columns` parse agree on every attribute value. */
  lemma ColumnsParsersAgree(v: Option<string>)
    ensures ParseColumns(v) == ParseColumnsStandalone(v)
  {
    ParseThree();
    ParseNull();
  }

  /** A rendered count other than 0 is taken as is, after any white space; "0" gives 3. */
  lemma ColumnsOfNumber(ws: string, k: int, u: string)
    requires forall i :: 0 <= i < |ws| ==> IsSpace(ws[i])
    requires UnitSuffix(u) && NotHexAfterZero(k, u)
    ensures ParseColumns(Some(ws + (Show(k) + u))) == (if k == 0 then DefaultColumns else k)
  {
    ParseIntShowRoundTrip(k, u);
    TrimSpaces(ws, Show(k) + u);
  }
}
