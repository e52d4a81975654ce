/**
 * The handful of Python string operations the provisioner relies on: strip, split,
 * upper, startswith/endswith, substring tests, "\n".join and string ordering.
 */
module Text {

  type Line = string

  /** The characters for which Python's str.isspace() holds; str.strip() and str.split() remove them. */
  const Whitespace: set<char> := {
    ' ', '\t', '\n', '\r', '\U{B}', '\U{C}', '\U{1C}', '\U{1D}', '\U{1E}', '\U{1F}', '\U{85}', '\U{A0}',
    '\U{1680}', '\U{2000}', '\U{2001}', '\U{2002}', '\U{2003}', '\U{2004}', '\U{2005}', '\U{2006}',
    '\U{2007}', '\U{2008}', '\U{2009}', '\U{200A}', '\U{2028}', '\U{2029}', '\U{202F}', '\U{205F}', '\U{3000}'
  }

  /** The characters at which Python's str.splitlines() breaks a text into lines. */
  const LineBreaks: set<char> := {
    '\n', '\r', '\U{B}', '\U{C}', '\U{1C}', '\U{1D}', '\U{1E}', '\U{85}', '\U{2028}', '\U{2029}'
  }

  /** A line as str.splitlines() produces it: no line-break character inside. */
  predicate IsLine(l: string) {
    forall k :: 0 <= k < |l| ==> l[k] !in LineBreaks
  }

  predicate StartsWith(s: string, prefix: string) {
    |prefix| <= |s| && s[..|prefix|] == prefix
  }

  predicate EndsWith(s: string, suffix: string) {
    |suffix| <= |s| && s[|s| - |suffix|..] == suffix
  }

  /** Python's `sub in s`. */
  predicate Contains(s: string, sub: string)
    decreases |s|
  {
    StartsWith(s, sub) || (s != [] && Contains(s[1..], sub))
  }

  function UpperChar(c: char): char {
    if 'a' <= c <= 'z' then (c as int - 32) as char else c
  }

  /** str.upper(), for the ASCII letters. */
  function Upper(s: string): (r: string)
    ensures |r| == |s|
  {
    seq(|s|, k requires 0 <= k < |s| => UpperChar(s[k]))
  }

  /** The length of the longest prefix of s made of characters of cs. */
  function LeadIn(s: string, cs: set<char>): (n: nat)
    ensures n <= |s|
    ensures forall k :: 0 <= k < n ==> s[k] in cs
    ensures n < |s| ==> s[n] !in cs
  {
    if s == [] || s[0] !in cs then 0 else 1 + LeadIn(s[1..], cs)
  }

  /** The length of the longest suffix of s made of characters of cs. */
  function TrailIn(s: string, cs: set<char>): (n: nat)
    ensures n <= |s|
    ensures forall k :: |s| - n <= k < |s| ==> s[k] in cs
    ensures n < |s| ==> s[|s| - 1 - n] !in cs
  {
    if s == [] || s[|s| - 1] !in cs then 0 else 1 + TrailIn(s[..|s| - 1], cs)
  }

  /** The length of the longest prefix of s with no character of cs. */
  function LeadOut(s: string, cs: set<char>): (n: nat)
    ensures n <= |s|
    ensures forall k :: 0 <= k < n ==> s[k] !in cs
    ensures n < |s| ==> s[n] in cs
  {
    if s == [] || s[0] in cs then 0 else 1 + LeadOut(s[1..], cs)
  }

  /**
   * Python's s.strip(chars): the slice of s left once the characters of cs are
   * removed from both ends.
   */
  function StripBy(s: string, cs: set<char>): string {
    var i := LeadIn(s, cs);
    if i == |s| then ""
    else
      s[i..|s| - TrailIn(s, cs)]
  }

  /** The strip is a slice of s, everything outside it is in cs, and it neither starts nor ends with cs. */
  lemma {:induction false} StripByFacts(s: string, cs: set<char>)
    ensures var r, i := StripBy(s, cs), LeadIn(s, cs);
      i + |r| <= |s| && r == s[i..i + |r|] &&
      (forall k :: 0 <= k < |s| && !(i <= k < i + |r|) ==> s[k] in cs) &&
      (r == [] || (r[0] !in cs && r[|r| - 1] !in cs))
  {
    var i := LeadIn(s, cs);
    if i < |s| {
      var t := TrailIn(s, cs);
      assert s[i] !in cs;
      assert i < |s| - t;
      var r := s[i..|s| - t];
      assert r[0] == s[i] && r[|r| - 1] == s[|s| - t - 1];
    }
  }

  /** Python's s.strip(). */
  function Strip(s: string): string {
    StripBy(s, Whitespace)
  }

  /** A word as str.split() returns it: non-empty and free of whitespace. */
  predicate IsWord(w: string) {
    w != [] && forall k :: 0 <= k < |w| ==> w[k] !in Whitespace
  }

  /** Python's s.split() with no separator: the maximal runs of non-whitespace characters. */
  function Words(s: string): (r: seq<string>)
    ensures forall i :: 0 <= i < |r| ==> IsWord(r[i])
    decreases |s|
  {
    var i := LeadIn(s, Whitespace);
    if i == |s| then []
    else
      var t := s[i..];
      assert t[0] == s[i];
      var n := LeadOut(t, Whitespace);
      assert IsWord(t[..n]);
      [t[..n]] + Words(t[n..])
  }

  /** The index of the first c in s, or |s| when there is none. */
  function IndexOf(s: string, c: char): (i: nat)
    ensures i <= |s|
    ensures forall k :: 0 <= k < i ==> s[k] != c
    ensures i < |s| ==> s[i] == c
  {
    LeadOut(s, {c})
  }

  /**
   * Python's s.split("`", 2)[1] for an s that holds a backquote: the text after the
   * first backquote, up to the next backquote or the end of s.
   */
  function Quoted(s: string): (r: string)
    requires '`' in s
    ensures var i := IndexOf(s, '`');
      i < |s| && i + 1 + |r| <= |s| && r == s[i + 1..i + 1 + |r|] &&
      '`' !in r && (i + 1 + |r| == |s| || s[i + 1 + |r|] == '`')
  {
    var i := IndexOf(s, '`');
    var rest := s[i + 1..];
    rest[..IndexOf(rest, '`')]
  }

  /** Python's s.split("\n")[0]. */
  function FirstLine(s: string): (r: string)
    ensures StartsWith(s, r) && '\n' !in r
    ensures |r| < |s| ==> s[|r|] == '\n'
  {
    s[..IndexOf(s, '\n')]
  }

  /** "\n".join(lines) */
  function JoinLines(lines: seq<Line>): string {
    if lines == [] then "" else if |lines| == 1 then lines[0] else lines[0] + "\n" + JoinLines(lines[1..])
  }

  /** Python's a < b on strings: lexicographic by code point, a proper prefix first. */
  predicate LexLess(a: string, b: string)
    decreases |a|
  {
    if a == [] then b != []
    else if b == [] then false
    else if a[0] != b[0] then a[0] < b[0]
    else LexLess(a[1..], b[1..])
  }

  lemma {:induction false} LexLessIrreflexive(a: string)
    ensures !LexLess(a, a)
  {
    if a != [] {
      LexLessIrreflexive(a[1..]);
    }
  }

  lemma {:induction false} LexLessTransitive(a: string, b: string, c: string)
    requires LexLess(a, b) && LexLess(b, c)
    ensures LexLess(a, c)
    decreases |a|
  {
    if a != [] && b != [] && c != [] && a[0] == b[0] && b[0] == c[0] {
      LexLessTransitive(a[1..], b[1..], c[1..]);
    }
  }

  lemma {:induction false} LexLessTotal(a: string, b: string)
    ensures a == b || LexLess(a, b) || LexLess(b, a)
    decreases |a|
  {
    if a != [] && b != [] && a[0] == b[0] {
      LexLessTotal(a[1..], b[1..]);
      if a[1..] == b[1..] {
        assert a == [a[0]] + a[1..] && b == [b[0]] + b[1..];
      }
    }
  }

  predicate IsAlnum(c: char) {
    'a' <= c <= 'z' || 'A' <= c <= 'Z' || '0' <= c <= '9'
  }

  predicate IsDigit(c: char) {
    '0' <= c <= '9'
  }

  /** The strip of s is s[lo..hi] when s[lo] and s[hi - 1] are kept and everything outside is stripped. */
  lemma {:induction false} StripByIs(s: string, cs: set<char>, lo: nat, hi: nat)
    requires lo < hi <= |s| && s[lo] !in cs && s[hi - 1] !in cs
    requires forall k :: 0 <= k < |s| && !(lo <= k < hi) ==> s[k] in cs
    ensures StripBy(s, cs) == s[lo..hi]
  {
    var r := StripBy(s, cs);
    var i := LeadIn(s, cs);
    assert r != [];
    assert i == lo;
    assert i + |r| == hi;
  }

  /** Text appended after a character outside cs does not change the leading run of cs. */
  lemma {:induction false} LeadInAppend(a: string, rest: string, cs: set<char>)
    requires LeadIn(a, cs) < |a|
    ensures LeadIn(a + rest, cs) == LeadIn(a, cs)
  {
    if a[0] in cs {
      assert (a + rest)[1..] == a[1..] + rest;
      LeadInAppend(a[1..], rest, cs);
    }
  }

  /** The last position of s outside cs, when s has one. */
  function LastOut(s: string, cs: set<char>): (j: int)
    ensures LeadIn(s, cs) < |s| ==> LeadIn(s, cs) <= j < |s| && s[j] !in cs
    ensures forall k :: 0 <= k < |s| && j < k ==> s[k] in cs
  {
    |s| - 1 - TrailIn(s, cs)
  }

  /**
   * The first line of a + rest stripped of cs, where a holds no newline and rest starts
   * a new line that cs strips, is a slice of a from its first kept character past its last.
   */
  lemma {:induction false} FirstLineOfStrip(a: string, rest: string, cs: set<char>) returns (e: nat)
    requires '\n' !in a && '\n' in cs && (rest == [] || rest[0] == '\n')
    requires LeadIn(a, cs) < |a|
    ensures LastOut(a, cs) < e <= |a|
    ensures FirstLine(StripBy(a + rest, cs)) == a[LeadIn(a, cs)..e]
  {
    var s := a + rest;
    var i := LeadIn(a, cs);
    LeadInAppend(a, rest, cs);
    var j := LastOut(a, cs);
    var t := StripBy(s, cs);
    assert t == s[i..i + |t|];
    assert j < i + |t| by {
      assert s[j] == a[j];
    }
    e := if i + |t| < |a| then i + |t| else |a|;
    NewlineEndsSlice(a, rest, i, t);
  }

  /** In a slice of a + rest starting inside a, the first newline is where a ends. */
  lemma {:induction false} NewlineEndsSlice(a: string, rest: string, i: nat, t: string)
    requires '\n' !in a && (rest == [] || rest[0] == '\n')
    requires i <= |a| && i + |t| <= |a + rest| && t == (a + rest)[i..i + |t|]
    ensures var e := if i + |t| < |a| then i + |t| else |a|;
      FirstLine(t) == a[i..e]
  {
    var e := if i + |t| < |a| then i + |t| else |a|;
    forall k | 0 <= k < e - i
      ensures t[k] == a[i + k]
    {
      assert t[k] == (a + rest)[i + k];
    }
    if |a| < i + |t| {
      assert t[|a| - i] == (a + rest)[|a|] == rest[0];
    }
    assert IndexOf(t, '\n') == e - i;
    assert t[..e - i] == a[i..e];
  }

  /** A strip that keeps something runs from the first kept character through the last. */
  lemma {:induction false} StripByBounds(s: string, cs: set<char>)
    requires StripBy(s, cs) != ""
    ensures LeadIn(s, cs) <= LastOut(s, cs) < |s|
    ensures s[LeadIn(s, cs)] !in cs && s[LastOut(s, cs)] !in cs
    ensures forall k :: LastOut(s, cs) < k < |s| ==> s[k] in cs
    ensures StripBy(s, cs) == s[LeadIn(s, cs)..LastOut(s, cs) + 1]
  {
    assert LeadIn(s, cs) != |s|;
  }

  /** Stripping what follows a line's end and stripping again gives the line itself, stripped. */
  lemma {:induction false} StripFirstLineBy(a: string, rest: string, cs: set<char>)
    requires '\n' !in a && '\n' in cs && (rest == [] || rest[0] == '\n')
    requires StripBy(a, cs) != ""
    ensures StripBy(FirstLine(StripBy(a + rest, cs)), cs) == StripBy(a, cs)
  {
    StripByBounds(a, cs);
    var i := LeadIn(a, cs);
    var j := LastOut(a, cs);
    var e := FirstLineOfStrip(a, rest, cs);
    StripSliceOfLine(a, cs, i, j, e);
  }

  lemma {:induction false} StripSliceOfLine(a: string, cs: set<char>, i: nat, j: nat, e: nat)
    requires i <= j < e <= |a| && a[i] !in cs && a[j] !in cs
    requires forall k :: j < k < |a| ==> a[k] in cs
    ensures StripBy(a[i..e], cs) == a[i..j + 1]
  {
    var f := a[i..e];
    assert f[0] == a[i] && f[j - i] == a[j];
    forall k | 0 <= k < |f| && !(0 <= k < j + 1 - i)
      ensures f[k] in cs
    {
      assert f[k] == a[i + k];
    }
    StripByIs(f, cs, 0, j + 1 - i);
    assert f[0..j + 1 - i] == a[i..j + 1];
  }

  lemma {:induction false} StripFirstLine(a: string, rest: string)
    requires '\n' !in a && (rest == [] || rest[0] == '\n')
    requires Strip(a) != ""
    ensures Strip(FirstLine(Strip(a + rest))) == Strip(a)
  {
    StripFirstLineBy(a, rest, Whitespace);
  }
}
