/** Thousands separators (`numberWithCommas`, dashboard.js): the global replace of
    /\B(?=(\d{3})+(?!\d))/ by ",", applied to the text `toFixed(2)` produces. */
module Format {
  import opened Text

  /** `\w`: ASCII letters, digits and the underscore. */
  predicate IsWordChar(c: char)
  {
    'a' <= c <= 'z' || 'A' <= c <= 'Z' || IsDigit(c) || c == '_'
  }

  predicate AllDigits(s: string, from: int, to: int)
    requires 0 <= from <= to <= |s|
  {
    forall i :: from <= i < to ==> IsDigit(s[i])
  }

  /** `\B` at position `p` (between `s[p-1]` and `s[p]`): both neighbours are word
      characters or neither is; outside the string counts as a non-word character. */
  predicate NotBoundary(s: string, p: nat)
    requires p <= |s|
  {
    (p > 0 && IsWordChar(s[p - 1])) == (p < |s| && IsWordChar(s[p]))
  }

  /** Length of the run of digits that starts at `p`. */
  function DigitRun(s: string, p: nat): (r: nat)
    requires p <= |s|
    ensures p + r <= |s|
    ensures AllDigits(s, p, p + r)
    ensures p + r == |s| || !IsDigit(s[p + r])
    decreases |s| - p
  {
    if p < |s| && IsDigit(s[p]) then 1 + DigitRun(s, p + 1) else 0
  }

  /** `(?=(\d{3})+(?!\d))` as the regex engine reads it: one or more digit triples
      follow `p`, and no digit follows them. */
  ghost predicate TriplesAhead(s: string, p: nat)
    requires p <= |s|
  {
    exists k :: 1 <= k && p + 3 * k <= |s| && AllDigits(s, p, p + 3 * k) &&
      (p + 3 * k == |s| || !IsDigit(s[p + 3 * k]))
  }

  /** The lookahead decided from the digit run: a non-empty multiple of three. */
  predicate GroupsAhead(s: string, p: nat)
    requires p <= |s|
  {
    var n := DigitRun(s, p);
    n >= 3 && n % 3 == 0
  }

  lemma {:induction false} DigitRunExact(s: string, p: nat, q: nat)
    requires p <= q <= |s| && AllDigits(s, p, q)
    requires q == |s| || !IsDigit(s[q])
    ensures DigitRun(s, p) == q - p
    decreases q - p
  {
    if p < q { DigitRunExact(s, p + 1, q); }
  }

  lemma GroupsAheadMeaning(s: string, p: nat)
    requires p <= |s|
    ensures GroupsAhead(s, p) <==> TriplesAhead(s, p)
  {
    var n := DigitRun(s, p);
    if GroupsAhead(s, p) {
      assert p + 3 * (n / 3) == p + n;
    }
    if TriplesAhead(s, p) {
      var k :| 1 <= k && p + 3 * k <= |s| && AllDigits(s, p, p + 3 * k) &&
        (p + 3 * k == |s| || !IsDigit(s[p + 3 * k]));
      DigitRunExact(s, p, p + 3 * k);
    }
  }

  /** A match of the whole pattern at `p`, where a "," is inserted. */
  predicate CommaAt(s: string, p: nat)
    requires p <= |s|
  {
    NotBoundary(s, p) && GroupsAhead(s, p)
  }

  /** A character, with a comma in front of it when `comma` holds. */
  function Mark(comma: bool, c: char): string
  {
    if comma then [',', c] else [c]
  }

  /** The global replace: every position from `p` on is tried once, left to right,
      and a match inserts "," before the character there. */
  function Scan(s: string, p: nat): string
    requires p <= |s|
    decreases |s| - p
  {
    if p == |s| then (if CommaAt(s, p) then "," else "")
    else Mark(CommaAt(s, p), s[p]) + Scan(s, p + 1)
  }

  /** Deleting the commas from the result gives back the input without its commas
      (the input itself when, like `toFixed` output, it has none). */
  function NumberWithCommas(s: string): (r: string)
    ensures StripCommas(r) == StripCommas(s)
  {
    ScanOnlyAddsCommas(s, 0);
    assert s[0..] == s;
    Scan(s, 0)
  }

  /** A comma goes only after a word character and before three digits. */
  lemma CommaPlacement(s: string, p: nat)
    requires p <= |s| && CommaAt(s, p)
    ensures 0 < p && p + 3 <= |s|
    ensures IsWordChar(s[p - 1]) && IsDigit(s[p]) && IsDigit(s[p + 1]) && IsDigit(s[p + 2])
  {
    var n := DigitRun(s, p);
    assert IsDigit(s[p]) && IsDigit(s[p + 1]) && IsDigit(s[p + 2]);
  }

  lemma Assoc(a: string, b: string, c: string)
    ensures a + (b + c) == (a + b) + c
  {
  }

  function StripCommas(s: string): string
  {
    if s == [] then [] else (if s[0] == ',' then [] else [s[0]]) + StripCommas(s[1..])
  }

  lemma {:induction false} StripCommasAppend(a: string, b: string)
    ensures StripCommas(a + b) == StripCommas(a) + StripCommas(b)
    decreases |a|
  {
    if a == [] {
      assert a + b == b;
    } else {
      assert (a + b)[1..] == a[1..] + b;
      StripCommasAppend(a[1..], b);
    }
  }

  lemma StripMark(comma: bool, c: char)
    ensures StripCommas(Mark(comma, c)) == StripCommas([c])
  {
    if comma { assert Mark(comma, c)[1..] == [c]; }
  }

  lemma {:induction false} ScanOnlyAddsCommas(s: string, p: nat)
    requires p <= |s|
    ensures StripCommas(Scan(s, p)) == StripCommas(s[p..])
    decreases |s| - p
  {
    if p < |s| {
      ScanOnlyAddsCommas(s, p + 1);
      StripCommasAppend(Mark(CommaAt(s, p), s[p]), Scan(s, p + 1));
      StripMark(CommaAt(s, p), s[p]);
      assert s[p..] == [s[p]] + s[p + 1..];
      StripCommasAppend([s[p]], s[p + 1..]);
    }
  }

  predicate IsDigitString(d: string)
  {
    forall i :: 0 <= i < |d| ==> IsDigit(d[i])
  }

  /** Reference grouping: the last three digits, preceded by a comma and the
      grouping of the rest. */
  function Group(d: string): string
    decreases |d|
  {
    if |d| <= 3 then d else Group(d[..|d| - 3]) + ("," + d[|d| - 3..])
  }

  /** Digits in groups: one to three leading digits, then ",ddd" groups. */
  predicate ThousandsGrouped(g: string)
    decreases |g|
  {
    if |g| <= 3 then g != [] && IsDigitString(g)
    else
      && |g| >= 5
      && g[|g| - 4] == ','
      && IsDigitString(g[|g| - 3..])
      && ThousandsGrouped(g[..|g| - 4])
  }

  lemma {:induction false} StripOfDigits(d: string)
    requires IsDigitString(d)
    ensures StripCommas(d) == d
    decreases |d|
  {
    if d != [] { StripOfDigits(d[1..]); }
  }

  lemma CommaJoin(a: string, b: string)
    requires |b| == 3
    ensures var g := a + ("," + b);
      && |g| == |a| + 4 && g[..|g| - 4] == a && g[|g| - 4] == ',' && g[|g| - 3..] == b
  {
  }

  lemma StripLeadingComma(b: string)
    ensures StripCommas("," + b) == StripCommas(b)
  {
    assert ("," + b)[1..] == b;
  }

  lemma {:induction false} GroupIsGrouped(d: string)
    requires d != [] && IsDigitString(d)
    ensures ThousandsGrouped(Group(d))
    decreases |d|
  {
    if |d| > 3 {
      var head, tail := d[..|d| - 3], d[|d| - 3..];
      GroupIsGrouped(head);
      CommaJoin(Group(head), tail);
      assert IsDigitString(tail);
    }
  }

  lemma StripJoin(g: string, tail: string)
    requires IsDigitString(tail)
    ensures StripCommas(g + ("," + tail)) == StripCommas(g) + tail
  {
    StripCommasAppend(g, "," + tail);
    StripLeadingComma(tail);
    StripOfDigits(tail);
  }

  lemma {:induction false} GroupKeepsDigits(d: string)
    requires IsDigitString(d)
    ensures StripCommas(Group(d)) == d
    decreases |d|
  {
    if |d| <= 3 {
      StripOfDigits(d);
    } else {
      var head, tail := d[..|d| - 3], d[|d| - 3..];
      assert IsDigitString(head) && IsDigitString(tail);
      GroupKeepsDigits(head);
      StripJoin(Group(head), tail);
      assert d == head + tail;
    }
  }

  /** The reference grouping is digit groups holding exactly the input digits. */
  lemma GroupShape(d: string)
    requires d != [] && IsDigitString(d)
    ensures ThousandsGrouped(Group(d))
    ensures StripCommas(Group(d)) == d
  {
    GroupIsGrouped(d);
    GroupKeepsDigits(d);
  }

  /** The comma-inserting scan over a digit string, with the comma rule of an integer
      part of `n` digits. */
  function GroupFrom(d: string, j: nat): string
    requires j <= |d|
    decreases |d| - j
  {
    if j == |d| then [] else Mark(CommaBefore(|d|, j), d[j]) + GroupFrom(d, j + 1)
  }

  /** A comma before digit `j` of `n`: not in front, and a multiple of three digits
      from there to the end. */
  predicate CommaBefore(n: int, j: int)
  {
    0 < j && (n - j) % 3 == 0
  }

  lemma CommaBeforeShift(n: int, j: int)
    requires 0 <= j <= n - 3
    ensures CommaBefore(n, j) == CommaBefore(n - 3, j)
  {
    assert n - j == (n - 3 - j) + 3;
  }

  lemma SuffixCons(d: string, k: nat)
    requires k < |d|
    ensures d[k..] == [d[k]] + d[k + 1..]
  {
  }

  lemma {:induction false} GroupFromShort(d: string, j: nat)
    requires j <= |d| <= 3
    ensures GroupFrom(d, j) == d[j..]
    decreases |d| - j
  {
    if j < |d| {
      GroupFromShort(d, j + 1);
      SuffixCons(d, j);
    }
  }

  lemma GroupFromLastThree(d: string)
    requires |d| > 3
    ensures GroupFrom(d, |d| - 3) == "," + d[|d| - 3..]
  {
    var n := |d|;
    assert !CommaBefore(n, n - 1) && !CommaBefore(n, n - 2) && CommaBefore(n, n - 3);
    SuffixCons(d, n - 1);
    assert GroupFrom(d, n - 1) == d[n - 1..];
    SuffixCons(d, n - 2);
    assert GroupFrom(d, n - 2) == d[n - 2..];
    SuffixCons(d, n - 3);
    assert [',', d[n - 3]] + d[n - 2..] == "," + ([d[n - 3]] + d[n - 2..]);
  }

  lemma {:induction false} GroupFromSplit(d: string, j: nat)
    requires |d| > 3 && j <= |d| - 3
    ensures GroupFrom(d, j) == GroupFrom(d[..|d| - 3], j) + ("," + d[|d| - 3..])
    decreases |d| - j
  {
    var n := |d|;
    var head, tail := d[..n - 3], "," + d[n - 3..];
    if j == n - 3 {
      GroupFromLastThree(d);
      assert GroupFrom(head, j) == [];
      assert [] + tail == tail;
    } else {
      GroupFromSplit(d, j + 1);
      CommaBeforeShift(n, j);
      assert head[j] == d[j];
      Assoc(Mark(CommaBefore(n, j), d[j]), GroupFrom(head, j + 1), tail);
    }
  }

  lemma {:induction false} GroupFromIsGroup(d: string)
    ensures GroupFrom(d, 0) == Group(d)
    decreases |d|
  {
    if |d| <= 3 {
      GroupFromShort(d, 0);
    } else {
      GroupFromSplit(d, 0);
      GroupFromIsGroup(d[..|d| - 3]);
    }
  }

  /** What `toFixed(2)` yields for a number below 1e21 in magnitude: an optional
      minus sign, the integer digits, a point and exactly two decimals. */
  predicate FixedTwoShape(sign: string, intPart: string, frac: string)
  {
    && (sign == "" || sign == "-")
    && intPart != [] && IsDigitString(intPart)
    && |frac| == 2 && IsDigitString(frac)
  }

  /** `s` is a sign of length `L`, the digits `d`, a point, and two more characters. */
  ghost predicate Layout(s: string, L: nat, d: string)
  {
    && L <= 1 && d != [] && IsDigitString(d)
    && |s| == L + |d| + 3
    && (L == 1 ==> s[0] == '-')
    && s[L..L + |d|] == d
    && s[L + |d|] == '.'
  }

  lemma LayoutDigit(s: string, L: nat, d: string, j: nat)
    requires Layout(s, L, d) && j < |d|
    ensures s[L + j] == d[j] && IsDigit(s[L + j])
  {
    assert s[L..L + |d|][j] == s[L + j];
  }

  lemma LayoutOfFixed(sign: string, d: string, frac: string)
    requires FixedTwoShape(sign, d, frac)
    ensures Layout(sign + d + "." + frac, |sign|, d)
    ensures (sign + d + "." + frac)[|sign| + |d|..] == "." + frac
  {
    var s := sign + d + "." + frac;
    assert s[|sign|..|sign| + |d|] == d;
  }

  lemma {:induction false} ScanShortTail(s: string, p: nat)
    requires p <= |s| && |s| - p < 3
    ensures Scan(s, p) == s[p..]
    decreases |s| - p
  {
    if p < |s| {
      ScanShortTail(s, p + 1);
      SuffixCons(s, p);
    }
  }

  /** The point and the two decimals pass through unchanged. */
  lemma ScanTail(s: string, p: nat)
    requires p < |s| && |s| - p <= 3 && !IsDigit(s[p])
    ensures Scan(s, p) == s[p..]
  {
    assert DigitRun(s, p) == 0;
    ScanShortTail(s, p + 1);
    SuffixCons(s, p);
  }

  /** Where the pattern matches in `toFixed(2)` text: inside the integer digits,
      exactly where a positive multiple of three digits remains. */
  lemma CommaAtIntegerPart(s: string, L: nat, d: string, j: nat)
    requires Layout(s, L, d) && j <= |d|
    ensures CommaAt(s, L + j) <==> j < |d| && CommaBefore(|d|, j)
  {
    var n := |d|;
    forall i | L + j <= i < L + n ensures IsDigit(s[i]) {
      LayoutDigit(s, L, d, i - L);
    }
    DigitRunExact(s, L + j, L + n);
    if j < n {
      LayoutDigit(s, L, d, j);
      assert IsWordChar(s[L + j]);
      if j > 0 {
        LayoutDigit(s, L, d, j - 1);
        assert IsWordChar(s[L + j - 1]);
      }
    }
  }

  /** Digit `k` of `d` sits at position `L + k` of `s`, and the pattern matches
      there exactly when the grouping puts a comma before that digit. */
  ghost predicate DigitAgrees(s: string, L: nat, d: string, k: nat)
  {
    k < |d| && L + k < |s| && s[L + k] == d[k] && CommaAt(s, L + k) == CommaBefore(|d|, k)
  }

  lemma LayoutAgrees(s: string, L: nat, d: string)
    requires Layout(s, L, d)
    ensures forall k :: 0 <= k < |d| ==> DigitAgrees(s, L, d, k)
  {
    forall k | 0 <= k < |d| ensures DigitAgrees(s, L, d, k) {
      CommaAtIntegerPart(s, L, d, k);
      LayoutDigit(s, L, d, k);
    }
  }

  /** One step of the scan agrees with one step of the digit grouping. */
  lemma ScanMatchesGroupFrom(s: string, L: nat, d: string, j: nat, rest: string)
    requires DigitAgrees(s, L, d, j)
    requires Scan(s, L + j + 1) == GroupFrom(d, j + 1) + rest
    ensures Scan(s, L + j) == GroupFrom(d, j) + rest
  {
    Assoc(Mark(CommaBefore(|d|, j), d[j]), GroupFrom(d, j + 1), rest);
  }

  /** From digit `j` of the integer part on, the scan emits the grouping of the
      remaining digits followed by what it emits after them, `rest`. */
  lemma {:induction false} ScanIntegerPart(s: string, L: nat, d: string, j: nat, rest: string)
    requires j <= |d| && L + |d| <= |s|
    requires forall k :: j <= k < |d| ==> DigitAgrees(s, L, d, k)
    requires Scan(s, L + |d|) == rest
    ensures Scan(s, L + j) == GroupFrom(d, j) + rest
    decreases |d| - j
  {
    if j == |d| {
      assert [] + rest == rest;
    } else {
      ScanIntegerPart(s, L, d, j + 1, rest);
      ScanMatchesGroupFrom(s, L, d, j, rest);
    }
  }

  /** The leading minus sign is not a word character, so no comma follows it. */
  lemma ScanSign(s: string, d: string)
    requires Layout(s, 1, d)
    ensures Scan(s, 0) == "-" + Scan(s, 1)
  {
    assert DigitRun(s, 0) == 0;
  }

  lemma Reassemble(sign: string, g: string, frac: string)
    ensures sign + (g + ("." + frac)) == sign + g + "." + frac
  {
  }

  /** On `toFixed(2)` text the replace groups the integer digits in threes from the
      right and leaves the sign, the point and the decimals alone. */
  lemma FixedTwoGrouping(sign: string, intPart: string, frac: string)
    requires FixedTwoShape(sign, intPart, frac)
    ensures NumberWithCommas(sign + intPart + "." + frac) == sign + Group(intPart) + "." + frac
  {
    var s := sign + intPart + "." + frac;
    var L := |sign|;
    LayoutOfFixed(sign, intPart, frac);
    ScanTail(s, L + |intPart|);
    LayoutAgrees(s, L, intPart);
    ScanIntegerPart(s, L, intPart, 0, "." + frac);
    GroupFromIsGroup(intPart);
    var g := Group(intPart);
    assert Scan(s, L) == g + ("." + frac);
    if L == 1 {
      ScanSign(s, intPart);
    } else {
      assert sign + (g + ("." + frac)) == g + ("." + frac);
    }
    Reassemble(sign, g, frac);
  }

  /** Together: the integer part comes out grouped in threes, the digits are all
      still there, and nothing after the point changes. */
  lemma FixedTwoFormatted(sign: string, intPart: string, frac: string)
    requires FixedTwoShape(sign, intPart, frac)
    ensures exists g ::
      && NumberWithCommas(sign + intPart + "." + frac) == sign + g + "." + frac
      && ThousandsGrouped(g)
      && StripCommas(g) == intPart
  {
    FixedTwoGrouping(sign, intPart, frac);
    GroupShape(intPart);
  }
}
