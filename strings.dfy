/**
 * The parts of Go's `strings` package that the repository and the server
 * rely on, over strings of Unicode code points.
 */
module Strings {

  predicate HasPrefix(s: string, prefix: string) {
    |prefix| <= |s| && s[..|prefix|] == prefix
  }

  predicate HasSuffix(s: string, suffix: string) {
    |suffix| <= |s| && s[|s| - |suffix|..] == suffix
  }

  /** `sub` occurs in `s` at index `i`. */
  predicate OccursAt(s: string, sub: string, i: int) {
    0 <= i <= |s| - |sub| && s[i..i + |sub|] == sub
  }

  /** `sub` occurs somewhere in `s`. */
  ghost predicate Contains(s: string, sub: string) {
    exists i :: OccursAt(s, sub, i)
  }

  lemma ContainsTail(s: string, sub: string)
    requires s != [] && !Contains(s, sub)
    ensures !Contains(s[1..], sub)
  {
    forall i | 0 <= i <= |s| - 1 - |sub|
      ensures !OccursAt(s[1..], sub, i)
    {
      assert s[1..][i..i + |sub|] == s[i + 1..i + 1 + |sub|];
      assert !OccursAt(s, sub, i + 1);
    }
  }

  // ---------------------------------------------------------------------
  // strings.Index for a one-character separator, strings.Split(s, sep)[0]
  // and strings.SplitN(s, sep, 2)
  // ---------------------------------------------------------------------

  /** The index of the first `c` in `s`, or -1 when there is none. */
  function Index(s: string, c: char): (k: int)
    ensures -1 <= k < |s|
    ensures k >= 0 ==> s[k] == c
    ensures forall i :: 0 <= i < |s| && (k < 0 || i < k) ==> s[i] != c
  {
    if s == [] then -1
    else if s[0] == c then 0
    else
      var k := Index(s[1..], c);
      if k < 0 then -1 else k + 1
  }

  /** The first field of `strings.Split(s, sep)`: the text before the first `sep`. */
  function UpToFirst(s: string, sep: char): (r: string)
    ensures HasPrefix(s, r) && sep !in r
    ensures |r| < |s| ==> s[|r|] == sep
    ensures |r| < |s| <==> sep in s
    ensures sep !in s ==> r == s
  {
    var k := Index(s, sep);
    if k < 0 then s else s[..k]
  }

  /** The prefix of `s` that stops at its first `sep` is unique. */
  lemma UpToFirstUnique(s: string, sep: char, r: string)
    requires HasPrefix(s, r) && sep !in r
    requires |r| < |s| ==> s[|r|] == sep
    ensures r == UpToFirst(s, sep)
  {
    var q := UpToFirst(s, sep);
    assert |r| == |q|;
    assert r == s[..|r|] && q == s[..|q|];
  }

  /** A separator right after a separator-free prefix ends the first field there. */
  lemma UpToFirstAppend(a: string, b: string, sep: char)
    requires b != [] && b[0] == sep
    ensures UpToFirst(a + b, sep) == UpToFirst(a, sep)
  {
    var q := UpToFirst(a, sep);
    assert (a + b)[..|q|] == q;
    if |q| == |a| {
      assert (a + b)[|q|] == sep;
    } else {
      assert (a + b)[|q|] == a[|q|];
    }
    UpToFirstUnique(a + b, sep, q);
  }

  /** Text appended after the first separator does not change the first field. */
  lemma UpToFirstExtend(a: string, b: string, sep: char)
    requires sep in a
    ensures UpToFirst(a + b, sep) == UpToFirst(a, sep)
  {
    var q := UpToFirst(a, sep);
    assert (a + b)[..|q|] == q;
    assert (a + b)[|q|] == a[|q|];
    UpToFirstUnique(a + b, sep, q);
  }

  /**
   * `strings.SplitN(s, string(sep), 2)`: one part when `s` has no `sep`,
   * otherwise the text before the first `sep` and everything after it.
   */
  function SplitOnce(s: string, sep: char): (parts: seq<string>)
    ensures |parts| == 1 || |parts| == 2
    ensures |parts| == 1 <==> sep !in s
    ensures |parts| == 1 ==> parts[0] == s
    ensures |parts| == 2 ==> parts[0] + [sep] + parts[1] == s && sep !in parts[0]
  {
    var k := Index(s, sep);
    if k < 0 then [s]
    else
      assert s == s[..k] + [sep] + s[k + 1..];
      [s[..k], s[k + 1..]]
  }

  // ---------------------------------------------------------------------
  // strings.Replace(s, pat, "", -1)
  // ---------------------------------------------------------------------

  /**
   * Removes every occurrence of `pat`, scanning left to right without
   * overlaps, as `strings.Replace(s, pat, "", -1)` does.
   */
  function RemoveAll(s: string, pat: string): (r: string)
    requires pat != []
    ensures |r| <= |s|
    decreases |s|
  {
    if |s| < |pat| then s
    else if s[..|pat|] == pat then RemoveAll(s[|pat|..], pat)
    else [s[0]] + RemoveAll(s[1..], pat)
  }

  /**
   * When `pat` begins with a character found nowhere else in it, an
   * occurrence of `pat` at the start of `s + pat` cannot reach past `s`.
   */
  lemma NoStraddle(s: string, pat: string)
    requires pat != [] && pat[0] !in pat[1..]
    requires s != [] && !OccursAt(s, pat, 0)
    ensures (s + pat)[..|pat|] != pat
  {
    var t := s + pat;
    if |s| >= |pat| {
      assert s[0..0 + |pat|] == t[..|pat|];
    } else {
      assert pat[1..][|s| - 1] in pat[1..];
      assert t[..|pat|][|s|] == t[|s|] == pat[0] != pat[|s|];
    }
  }

  /** A leading occurrence is removed. */
  lemma RemoveAllLeading(pat: string, t: string)
    requires pat != []
    ensures RemoveAll(pat + t, pat) == RemoveAll(t, pat)
  {
    var w := pat + t;
    assert w[..|pat|] == pat && w[|pat|..] == t;
  }

  /** The first character is kept when no occurrence starts there, even one running into a following `pat`. */
  lemma RemoveAllKeepsFirst(s: string, pat: string, t: string)
    requires pat != [] && pat[0] !in pat[1..]
    requires s != [] && !OccursAt(s, pat, 0)
    ensures RemoveAll(s + pat + t, pat) == [s[0]] + RemoveAll(s[1..] + pat + t, pat)
  {
    var w := s + pat + t;
    NoStraddle(s, pat);
    assert w[..|pat|] == (s + pat)[..|pat|];
    assert w[1..] == s[1..] + pat + t;
  }

  /** Two copies of `pat` after a clean `s` are both removed. */
  lemma RemoveAllRepeated(s: string, pat: string)
    requires pat != [] && pat[0] !in pat[1..]
    requires !Contains(s, pat)
    ensures RemoveAll(s + pat + pat, pat) == s
  {
    RemoveAllAfterClean(s, pat, pat);
    RemoveAllLeading(pat, []);
    assert pat + [] == pat;
    assert s + [] == s;
  }

  /** Removing from `s + pat + t` keeps `s` whole when `s` holds no `pat`. */
  lemma {:induction false} RemoveAllAfterClean(s: string, pat: string, t: string)
    requires pat != [] && pat[0] !in pat[1..]
    requires !Contains(s, pat)
    ensures RemoveAll(s + pat + t, pat) == s + RemoveAll(t, pat)
    decreases |s|
  {
    if s == [] {
      assert s + pat + t == pat + t;
      RemoveAllLeading(pat, t);
    } else {
      var rest := RemoveAll(t, pat);
      assert !OccursAt(s, pat, 0);
      RemoveAllKeepsFirst(s, pat, t);
      ContainsTail(s, pat);
      RemoveAllAfterClean(s[1..], pat, t);
      assert [s[0]] + s[1..] == s;
      assert [s[0]] + (s[1..] + rest) == s + rest;
    }
  }

  /** The trailing `pat` is always removed. */
  lemma {:induction false} RemoveAllTrailingShrinks(s: string, pat: string)
    requires pat != [] && pat[0] !in pat[1..]
    ensures |RemoveAll(s + pat, pat)| <= |s|
    decreases |s|
  {
    var t := s + pat;
    if s == [] {
      assert t == pat && t[..|pat|] == pat && t[|pat|..] == [];
    } else if OccursAt(s, pat, 0) {
      assert t[..|pat|] == s[..|pat|] == pat;
      assert t[|pat|..] == s[|pat|..] + pat;
      RemoveAllTrailingShrinks(s[|pat|..], pat);
    } else {
      NoStraddle(s, pat);
      assert t[1..] == s[1..] + pat;
      RemoveAllTrailingShrinks(s[1..], pat);
    }
  }

  /** An occurrence inside `s` is removed as well as the trailing `pat`. */
  lemma {:induction false} RemoveAllContainedShrinks(s: string, pat: string)
    requires pat != [] && pat[0] !in pat[1..]
    requires Contains(s, pat)
    ensures |RemoveAll(s + pat, pat)| <= |s| - |pat|
    decreases |s|
  {
    var t := s + pat;
    var i :| OccursAt(s, pat, i);
    if OccursAt(s, pat, 0) {
      assert t[..|pat|] == s[..|pat|] == pat;
      assert t[|pat|..] == s[|pat|..] + pat;
      RemoveAllTrailingShrinks(s[|pat|..], pat);
    } else {
      NoStraddle(s, pat);
      assert t[1..] == s[1..] + pat;
      assert s[1..][i - 1..i - 1 + |pat|] == s[i..i + |pat|];
      assert OccursAt(s[1..], pat, i - 1);
      RemoveAllContainedShrinks(s[1..], pat);
    }
  }

  /** Removing the occurrences from `s + pat` gives back `s` exactly when `s` holds none. */
  lemma RemoveAllTrailingExact(s: string, pat: string)
    requires pat != [] && pat[0] !in pat[1..]
    ensures RemoveAll(s + pat, pat) == s <==> !Contains(s, pat)
  {
    if Contains(s, pat) {
      RemoveAllContainedShrinks(s, pat);
    } else {
      RemoveAllAfterClean(s, pat, []);
      assert s + pat + [] == s + pat;
    }
  }

  /** Removing a character that does not occur changes nothing. */
  lemma {:induction false} RemoveAllCharAbsent(s: string, c: char)
    requires c !in s
    ensures RemoveAll(s, [c]) == s
  {
    if s != [] {
      assert s[..1][0] == s[0] != c;
      RemoveAllCharAbsent(s[1..], c);
    }
  }

  /** Removing a single character keeps exactly the other characters. */
  lemma {:induction false} RemoveAllCharKeeps(s: string, c: char)
    ensures forall x :: x in RemoveAll(s, [c]) <==> x in s && x != c
    decreases |s|
  {
    if s != [] {
      RemoveAllCharKeeps(s[1..], c);
      assert s == [s[0]] + s[1..];
      if s[0] == c {
        assert s[..1] == [c];
      } else {
        assert s[..1] != [c];
      }
    }
  }

  /** Removing a single character distributes over concatenation. */
  lemma {:induction false} RemoveAllCharAppend(a: string, b: string, c: char)
    ensures RemoveAll(a + b, [c]) == RemoveAll(a, [c]) + RemoveAll(b, [c])
    decreases |a|
  {
    if a == [] {
      assert a + b == b;
    } else {
      assert (a + b)[..1] == a[..1];
      assert (a + b)[1..] == a[1..] + b;
      RemoveAllCharAppend(a[1..], b, c);
    }
  }

  // ---------------------------------------------------------------------
  // strings.TrimSpace
  // ---------------------------------------------------------------------

  /** unicode.IsSpace: the Latin-1 spaces and the White_Space characters beyond. */
  predicate IsSpace(c: char) {
    || c == ' ' || ('\t' <= c <= '\r')
    || c == '\U{85}' || c == '\U{A0}' || c == '\U{1680}'
    || ('\U{2000}' <= c <= '\U{200A}')
    || c == '\U{2028}' || c == '\U{2029}' || c == '\U{202F}' || c == '\U{205F}'
    || c == '\U{3000}'
  }

  /** Neither end of `s` is a space. */
  predicate Trimmed(s: string) {
    s == [] || (!IsSpace(s[0]) && !IsSpace(s[|s| - 1]))
  }

  /** Drops the leading spaces. */
  function TrimLeft(s: string): (r: string)
    ensures |r| <= |s| && r == s[|s| - |r|..]
    ensures r == [] || !IsSpace(r[0])
    ensures forall i :: 0 <= i < |s| - |r| ==> IsSpace(s[i])
  {
    if s != [] && IsSpace(s[0]) then
      var r := TrimLeft(s[1..]);
      assert s[1..][|s| - 1 - |r|..] == s[|s| - |r|..];
      assert forall i :: 1 <= i < |s| - |r| ==> s[i] == s[1..][i - 1];
      r
    else s
  }

  /** Drops the trailing spaces. */
  function TrimRight(s: string): (r: string)
    ensures |r| <= |s| && r == s[..|r|]
    ensures r == [] || !IsSpace(r[|r| - 1])
    ensures forall i :: |r| <= i < |s| ==> IsSpace(s[i])
  {
    if s != [] && IsSpace(s[|s| - 1]) then TrimRight(s[..|s| - 1]) else s
  }

  /**
   * strings.TrimSpace: the result is a slice of `s` with no space at either
   * end, and everything cut off on either side is space.
   */
  function TrimSpace(s: string): (r: string)
    ensures Trimmed(r)
    ensures exists lead :: CutFrom(s, r, lead)
  {
    var left := TrimLeft(s);
    var r := TrimRight(left);
    var lead := |s| - |left|;
    assert CutFrom(s, r, lead);
    r
  }

  /** `r` is the slice of `s` at `lead`, and all that lies outside it is space. */
  predicate CutFrom(s: string, r: string, lead: int) {
    && 0 <= lead <= |s| - |r|
    && r == s[lead..lead + |r|]
    && (forall i :: 0 <= i < lead ==> IsSpace(s[i]))
    && (forall i :: lead + |r| <= i < |s| ==> IsSpace(s[i]))
  }

  /** A string with no space at either end is left as it is, so trimming is idempotent. */
  lemma TrimSpaceFixedPoint(s: string)
    ensures TrimSpace(s) == s <==> Trimmed(s)
    ensures TrimSpace(TrimSpace(s)) == TrimSpace(s)
  {
    if Trimmed(s) {
      assert TrimLeft(s) == s;
      assert TrimRight(s) == s;
    }
    var t := TrimSpace(s);
    assert TrimLeft(t) == t;
    assert TrimRight(t) == t;
  }

  // ---------------------------------------------------------------------
  // strings.ToLower (ASCII letters)
  // ---------------------------------------------------------------------

  function LowerAscii(c: char): (d: char) {
    if 'A' <= c <= 'Z' then (c as int + 32) as char else c
  }

  /** Where the lower-cased `s` starts with `prefix`, `s` has its spaces exactly where `prefix` does. */
  lemma LowerPrefixSpaces(s: string, prefix: string)
    requires HasPrefix(ToLower(s), prefix)
    ensures forall i :: 0 <= i < |prefix| ==> (s[i] == ' ' <==> prefix[i] == ' ')
  {
    var lower := ToLower(s);
    forall i | 0 <= i < |prefix|
      ensures s[i] == ' ' <==> prefix[i] == ' '
    {
      assert lower[..|prefix|][i] == lower[i] == LowerAscii(s[i]);
      LowerAsciiSpace(s[i]);
    }
  }

  /** Only a space lowers to a space. */
  lemma LowerAsciiSpace(c: char)
    ensures LowerAscii(c) == ' ' <==> c == ' '
  {
    if 'A' <= c <= 'Z' {
      assert LowerAscii(c) as int == c as int + 32 >= 97;
    }
  }

  function ToLower(s: string): (r: string)
    ensures |r| == |s|
    ensures forall i :: 0 <= i < |s| ==> r[i] == LowerAscii(s[i])
  {
    if s == [] then [] else [LowerAscii(s[0])] + ToLower(s[1..])
  }

  /** Lower-casing works character by character, so it distributes over concatenation. */
  lemma ToLowerAppend(a: string, b: string)
    ensures ToLower(a + b) == ToLower(a) + ToLower(b)
  {
    var joined := ToLower(a + b);
    var parts := ToLower(a) + ToLower(b);
    forall i | 0 <= i < |joined|
      ensures joined[i] == parts[i]
    {
      if i < |a| {
        assert (a + b)[i] == a[i];
      } else {
        assert (a + b)[i] == b[i - |a|];
      }
    }
  }

  // ---------------------------------------------------------------------
  // Byte-wise string order (sort.Strings); on code points UTF-8 byte
  // order and code point order agree.
  // ---------------------------------------------------------------------

  predicate Less(a: string, b: string) {
    b != [] && (a == [] || a[0] < b[0] || (a[0] == b[0] && Less(a[1..], b[1..])))
  }

  /** Any two distinct strings are ordered one way or the other. */
  lemma {:induction false} LessTotal(a: string, b: string)
    requires a != b
    ensures Less(a, b) || Less(b, a)
  {
    if a != [] && b != [] && a[0] == b[0] {
      assert a == [a[0]] + a[1..] && b == [b[0]] + b[1..];
      LessTotal(a[1..], b[1..]);
    }
  }

}
