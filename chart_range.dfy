/** Trailing-range selection inside `renderChart` (dashboard.js): the range control's
    text is read with `parseInt(…, 10) || 12` and the last `range` months are kept. */
module ChartRange {
  import opened Wrappers
  import opened Text

  const DefaultRange: int := 12

  /** ECMAScript StrWhiteSpaceChar: the WhiteSpace and LineTerminator code points that
      `parseInt` skips before the number. */
  predicate IsJsSpace(c: char)
  {
    || c == '\t' || c == '\U{000B}' || c == '\U{000C}' || c == ' ' || c == '\U{00A0}'
    || c == '\U{FEFF}' || c == '\U{1680}' || '\U{2000}' <= c <= '\U{200A}' || c == '\U{202F}'
    || c == '\U{205F}' || c == '\U{3000}'
    || c == '\n' || c == '\r' || c == '\U{2028}' || c == '\U{2029}'
  }

  function TrimStart(s: string): (r: string)
    ensures |r| <= |s| && r == s[|s| - |r|..]
    ensures r == [] || !IsJsSpace(r[0])
  {
    if s != [] && IsJsSpace(s[0]) then TrimStart(s[1..]) else s
  }

  /** The longest prefix of decimal digits. */
  function DigitPrefix(s: string): (r: string)
    ensures r <= s
    ensures forall i :: 0 <= i < |r| ==> IsDigit(r[i])
    ensures |r| == |s| || !IsDigit(s[|r|])
  {
    if s != [] && IsDigit(s[0]) then [s[0]] + DigitPrefix(s[1..]) else []
  }

  function DigitValue(c: char): nat
    requires IsDigit(c)
  {
    c as int - '0' as int
  }

  /** The value of a digit string, most significant digit first. */
  function DigitsValue(d: string): nat
    requires forall i :: 0 <= i < |d| ==> IsDigit(d[i])
  {
    if d == [] then 0 else DigitsValue(d[..|d| - 1]) * 10 + DigitValue(d[|d| - 1])
  }

  /** `parseInt(s, 10)`; `None` stands for NaN. */
  function ParseInt(s: string): (r: Option<int>)
    ensures TrimStart(s) == [] ==> r.None?
    ensures r.Some? ==> var t := TrimStart(s);
      t != [] && (IsDigit(t[0]) || t[0] == '-' || t[0] == '+')
    ensures r.Some? && r.value < 0 ==> TrimStart(s)[0] == '-'
  {
    ParseTrimmed(TrimStart(s))
  }

  /** `parseInt` after the leading white space: an optional sign, then the digits. */
  function ParseTrimmed(t: string): Option<int>
  {
    var negative := t != [] && t[0] == '-';
    var unsigned := if t != [] && (t[0] == '-' || t[0] == '+') then t[1..] else t;
    var digits := DigitPrefix(unsigned);
    if digits == [] then None
    else
      var v: int := DigitsValue(digits);
      Some(if negative then -v else v)
  }

  function DigitChar(k: nat): (c: char)
    requires k < 10
    ensures IsDigit(c)
  {
    ('0' as int + k) as char
  }

  /** Decimal text of a natural number, as a number input holds it. */
  function Digits(k: nat): (r: string)
    ensures r != []
    ensures forall i :: 0 <= i < |r| ==> IsDigit(r[i])
  {
    if k < 10 then [DigitChar(k)] else Digits(k / 10) + [DigitChar(k % 10)]
  }

  function ToDecimal(n: int): string
  {
    if n < 0 then "-" + Digits(-n) else Digits(n)
  }

  lemma {:induction false} DigitsValueOfDigits(k: nat)
    ensures DigitsValue(Digits(k)) == k
    decreases k
  {
    if k >= 10 {
      var d := Digits(k);
      assert d[..|d| - 1] == Digits(k / 10);
      DigitsValueOfDigits(k / 10);
    }
  }

  lemma {:induction false} DigitPrefixOfDigits(d: string, rest: string)
    requires forall i :: 0 <= i < |d| ==> IsDigit(d[i])
    requires rest == [] || !IsDigit(rest[0])
    ensures DigitPrefix(d + rest) == d
    decreases |d|
  {
    if d != [] {
      assert (d + rest)[1..] == d[1..] + rest;
      DigitPrefixOfDigits(d[1..], rest);
    } else {
      assert d + rest == rest;
    }
  }

  lemma ParseTrimmedDigits(d: string, rest: string)
    requires d != [] && forall i :: 0 <= i < |d| ==> IsDigit(d[i])
    requires rest == [] || !IsDigit(rest[0])
    ensures ParseTrimmed(d + rest) == Some(DigitsValue(d) as int)
  {
    DigitPrefixOfDigits(d, rest);
    assert (d + rest)[0] == d[0];
  }

  lemma ParseTrimmedNegative(u: string, d: string)
    requires d != [] && DigitPrefix(u) == d
    ensures ParseTrimmed("-" + u) == Some(-(DigitsValue(d) as int))
  {
    var t := "-" + u;
    assert t[0] == '-';
    assert t[1..] == u;
  }

  lemma TrimStartUnspaced(t: string)
    requires t != [] && !IsJsSpace(t[0])
    ensures TrimStart(t) == t
  {
  }

  /** `parseInt` reads back the decimal text of any integer, ignoring whatever
      non-digit text follows it ("6 meses" reads as 6). */
  lemma ParseIntReadsDecimal(n: int, rest: string)
    requires rest == [] || !IsDigit(rest[0])
    ensures ParseInt(ToDecimal(n) + rest) == Some(n)
  {
    var k: nat := if n < 0 then -n else n;
    var d := Digits(k);
    DigitsValueOfDigits(k);
    if n < 0 {
      var text := "-" + (d + rest);
      assert ToDecimal(n) + rest == text;
      TrimStartUnspaced(text);
      DigitPrefixOfDigits(d, rest);
      ParseTrimmedNegative(d + rest, d);
    } else {
      var text := d + rest;
      assert text[0] == d[0];
      TrimStartUnspaced(text);
      ParseTrimmedDigits(d, rest);
    }
  }

  lemma {:induction false} TrimStartSkipsSpace(space: string, s: string)
    requires forall i :: 0 <= i < |space| ==> IsJsSpace(space[i])
    ensures TrimStart(space + s) == TrimStart(s)
    decreases |space|
  {
    if space != [] {
      assert (space + s)[0] == space[0];
      assert (space + s)[1..] == space[1..] + s;
      TrimStartSkipsSpace(space[1..], s);
    } else {
      assert space + s == s;
    }
  }

  /** Leading white space is skipped. */
  lemma ParseIntSkipsSpace(space: string, s: string)
    requires forall i :: 0 <= i < |space| ==> IsJsSpace(space[i])
    ensures ParseInt(space + s) == ParseInt(s)
  {
    TrimStartSkipsSpace(space, s);
  }

  /** `parseInt(input, 10) || 12`: NaN and 0 fall back to the default of twelve months. */
  function RangeOf(input: string): (r: int)
    ensures r != 0
    ensures ParseInt(input).None? || ParseInt(input) == Some(0) ==> r == DefaultRange
    ensures ParseInt(input).Some? && ParseInt(input).value != 0 ==> r == ParseInt(input).value
  {
    match ParseInt(input)
    case Some(v) => if v != 0 then v else DefaultRange
    case None => DefaultRange
  }

  function Max(a: int, b: int): int { if a >= b then a else b }

  /** `s.slice(start)` for a non-negative start. */
  function Slice<T>(s: seq<T>, start: nat): seq<T>
  {
    if start >= |s| then [] else s[start..]
  }

  datatype Selection = Selection(labels: seq<string>, values: seq<real>)

  /** How many trailing months a range keeps: `min(range, length)`, none for a
      negative range. */
  function Kept(range: int, length: nat): nat
  {
    if range <= 0 then 0 else Min(range, length)
  }

  /** `start = Math.max(0, labels.length - range)` and the two slices from it. */
  function SelectRange(labels: seq<string>, values: seq<real>, range: int): (sel: Selection)
    requires range != 0
    ensures var n := Kept(range, |labels|);
      && |sel.labels| == n
      && sel.labels == labels[|labels| - n..]
      && (|values| == |labels| ==> sel.values == values[|values| - n..])
  {
    var start := Max(0, |labels| - range);
    Selection(Slice(labels, start), Slice(values, start))
  }

  /** The chart's selection from the range control's text. */
  function SelectForChart(labels: seq<string>, values: seq<real>, input: string): (sel: Selection)
    ensures var n := Kept(RangeOf(input), |labels|);
      && sel.labels == labels[|labels| - n..]
      && (|values| == |labels| ==> sel.values == values[|values| - n..])
    ensures |sel.labels| <= |labels|
  {
    SelectRange(labels, values, RangeOf(input))
  }

  /** Text that is not a number, or is zero, shows the last twelve months. */
  lemma NonNumericRangeShowsTwelve(labels: seq<string>, values: seq<real>, input: string)
    requires ParseInt(input).None? || ParseInt(input) == Some(0)
    requires |values| == |labels|
    ensures var n := Min(DefaultRange, |labels|);
      SelectForChart(labels, values, input) == Selection(labels[|labels| - n..], values[|values| - n..])
  {
  }

  /** A negative range selects nothing: the start lies beyond the end. */
  lemma NegativeRangeShowsNothing(labels: seq<string>, values: seq<real>, input: string)
    requires ParseInt(input).Some? && ParseInt(input).value < 0
    requires |values| == |labels|
    ensures SelectForChart(labels, values, input) == Selection([], [])
  {
  }

  /** A range at least the series length keeps the whole series. */
  lemma WideRangeKeepsAll(labels: seq<string>, values: seq<real>, range: int)
    requires range >= |labels| && range > 0 && |values| == |labels|
    ensures SelectRange(labels, values, range) == Selection(labels, values)
  {
  }
}
