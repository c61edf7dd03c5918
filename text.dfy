/** String helpers the dashboard relies on: ASCII lower-casing, substring search
    (`String.prototype.includes`) and the code-unit order used by `Array.prototype.sort`. */
module Text {

  predicate IsDigit(c: char) { '0' <= c <= '9' }

  function Min(a: int, b: int): int { if a <= b then a else b }

  predicate IsAsciiUpper(c: char) { 'A' <= c <= 'Z' }

  /** `toLowerCase` on one character; only ASCII letters are mapped (see README). */
  function LowerChar(c: char): char
  {
    if IsAsciiUpper(c) then (c as int + 32) as char else c
  }

  function Lower(s: string): (r: string)
    ensures |r| == |s|
    ensures forall i :: 0 <= i < |s| ==> r[i] == LowerChar(s[i])
  {
    if s == [] then [] else [LowerChar(s[0])] + Lower(s[1..])
  }

  /** Text without ASCII capitals is its own lower-case form. */
  lemma LowerUnchanged(s: string)
    requires forall i :: 0 <= i < |s| ==> !IsAsciiUpper(s[i])
    ensures Lower(s) == s
  {
  }

  /** Lower-casing works one character at a time. */
  lemma LowerCons(c: char, s: string)
    ensures Lower([c] + s) == [LowerChar(c)] + Lower(s)
  {
  }

  /** The needle occurs in `s` starting at index `i`. */
  ghost predicate OccursAt(s: string, needle: string, i: int)
  {
    0 <= i && i + |needle| <= |s| && s[i..i + |needle|] == needle
  }

  /** `s.includes(needle)`: try each starting position from the left. */
  function Includes(s: string, needle: string): bool
    decreases |s|
  {
    if needle <= s then true
    else if s == [] then false
    else Includes(s[1..], needle)
  }

  /** The search answers exactly the question "does the needle occur somewhere". */
  lemma {:induction false} IncludesMeaning(s: string, needle: string)
    ensures Includes(s, needle) <==> exists i :: OccursAt(s, needle, i)
    decreases |s|
  {
    if needle <= s {
      assert OccursAt(s, needle, 0);
    } else if s == [] {
      assert forall i :: !OccursAt(s, needle, i);
    } else {
      IncludesMeaning(s[1..], needle);
      if Includes(s[1..], needle) {
        var i :| OccursAt(s[1..], needle, i);
        assert s[1..][i..i + |needle|] == s[i + 1..i + 1 + |needle|];
        assert OccursAt(s, needle, i + 1);
      } else {
        forall i | 0 <= i ensures !OccursAt(s, needle, i) {
          if i == 0 && |needle| <= |s| {
            assert s[0..|needle|] == s[..|needle|];
          } else if 0 < i && i + |needle| <= |s| {
            assert s[1..][i - 1..i - 1 + |needle|] == s[i..i + |needle|];
            assert !OccursAt(s[1..], needle, i - 1);
          }
        }
      }
    }
  }

  /** A needle is found only in a string at least as long. */
  lemma {:induction false} IncludesLength(s: string, needle: string)
    ensures Includes(s, needle) ==> |needle| <= |s|
    decreases |s|
  {
    if !(needle <= s) && s != [] {
      IncludesLength(s[1..], needle);
    }
  }

  /** Strict lexicographic order: a proper prefix comes first, otherwise the first
      differing character decides. */
  predicate Below(a: string, b: string)
    decreases |a|
  {
    if a == [] then b != []
    else if b == [] then false
    else a[0] < b[0] || (a[0] == b[0] && Below(a[1..], b[1..]))
  }

  lemma {:induction false} BelowIrreflexive(a: string)
    ensures !Below(a, a)
    decreases |a|
  {
    if a != [] { BelowIrreflexive(a[1..]); }
  }

  lemma {:induction false} BelowTransitive(a: string, b: string, c: string)
    requires Below(a, b) && Below(b, c)
    ensures Below(a, c)
    decreases |a|
  {
    if a != [] && a[0] == b[0] && b[0] == c[0] {
      BelowTransitive(a[1..], b[1..], c[1..]);
    }
  }

  /** Any two different strings are ordered one way round. */
  lemma {:induction false} BelowTotal(a: string, b: string)
    requires a != b
    ensures Below(a, b) || Below(b, a)
    decreases |a|
  {
    if a != [] && b != [] && a[0] == b[0] {
      assert a == [a[0]] + a[1..] && b == [b[0]] + b[1..];
      BelowTotal(a[1..], b[1..]);
    }
  }

  lemma BelowAsymmetric(a: string, b: string)
    requires Below(a, b)
    ensures !Below(b, a)
  {
    if Below(b, a) {
      BelowTransitive(a, b, a);
      BelowIrreflexive(a);
    }
  }

  predicate StrictlyAscending(s: seq<string>)
  {
    forall i, j :: 0 <= i < j < |s| ==> Below(s[i], s[j])
  }

  lemma SameElementsBothEmpty(s: seq<string>, t: seq<string>)
    requires forall x :: x in s <==> x in t
    ensures s == [] <==> t == []
  {
    if s != [] { assert s[0] in t; }
    if t != [] { assert t[0] in s; }
  }

  /** A strictly ascending sequence is determined by its elements: this is what makes
      the sorted list of month keys unique. */
  lemma {:induction false} AscendingUnique(s: seq<string>, t: seq<string>)
    requires StrictlyAscending(s) && StrictlyAscending(t)
    requires forall x :: x in s <==> x in t
    ensures s == t
    decreases |s|
  {
    SameElementsBothEmpty(s, t);
    if s != [] {
      assert s[0] in s;
      if s[0] != t[0] {
        assert s[0] in t && t[0] in s;
        var i :| 0 <= i < |t| && t[i] == s[0];
        var j :| 0 <= j < |s| && s[j] == t[0];
        assert i > 0 && j > 0;
        assert Below(t[0], s[0]) && Below(s[0], t[0]);
        BelowAsymmetric(t[0], s[0]);
      }
      forall x ensures x in s[1..] <==> x in t[1..] {
        if x in s[1..] {
          var k :| 1 <= k < |s| && s[k] == x;
          assert Below(s[0], x);
          if x == t[0] { BelowIrreflexive(x); }
          assert x in t;
        }
        if x in t[1..] {
          var k :| 1 <= k < |t| && t[k] == x;
          assert Below(t[0], x);
          if x == s[0] { BelowIrreflexive(x); }
          assert x in s;
        }
      }
      AscendingUnique(s[1..], t[1..]);
      assert s == [s[0]] + s[1..] && t == [t[0]] + t[1..];
    }
  }
}
