/**
 * Go's `path/filepath` functions Join, Dir and Base on slash-separated paths.
 * Only what these functions do to paths whose elements hold no "." or ".."
 * and no doubled '/' is modelled; the rest of `filepath.Clean` is not.
 */
module Paths {
  import opened Strings

  /** A single path element: non-empty and free of '/'. */
  predicate IsComponent(b: string) {
    b != "" && '/' !in b
  }

  /** An element `filepath.Clean` removes or resolves against its parent. */
  predicate IsDotElement(b: string) {
    b == "." || b == ".."
  }

  /**
   * A directory path that joins without a doubled '/': non-empty, no
   * trailing '/' unless it is "/". Empty, "." and ".." elements inside it
   * are not excluded.
   */
  predicate IsCleanDir(a: string) {
    a != "" && (a == "/" || a[|a| - 1] != '/')
  }

  /** `filepath.Join(a, b)`: empty elements are dropped and one '/' separates the others. */
  function Join(a: string, b: string): (p: string)
    ensures |p| >= |a| && |p| >= |b|
    ensures a != "" && b != "" ==> |p| > |a|
    ensures IsComponent(b) ==> IsCleanDir(p)
  {
    if a == "" then b
    else if b == "" then a
    else if a[|a| - 1] == '/' then a + b
    else a + "/" + b
  }

  /** The index of the last `c` in `s`, or -1 when there is none. */
  function LastIndex(s: string, c: char): (k: int)
    ensures -1 <= k < |s|
    ensures k >= 0 ==> s[k] == c
    ensures forall i :: k < i < |s| ==> s[i] != c
  {
    if s == [] then -1
    else if s[|s| - 1] == c then |s| - 1
    else LastIndex(s[..|s| - 1], c)
  }

  /** `filepath.Dir`: everything before the last '/', "/" for a top-level entry, "." without any '/'. */
  function Dir(p: string): string {
    var k := LastIndex(p, '/');
    if k < 0 then "." else if k == 0 then "/" else p[..k]
  }

  /** `p` without its trailing '/' characters. */
  function DropTrailingSlashes(p: string): (r: string)
    ensures |r| <= |p| && r == p[..|r|]
    ensures r == [] || r[|r| - 1] != '/'
  {
    if p != [] && p[|p| - 1] == '/' then DropTrailingSlashes(p[..|p| - 1]) else p
  }

  /** `filepath.Base`: the last element, ignoring trailing '/'; "." for "" and "/" for only slashes. */
  function Base(p: string): string {
    if p == "" then "."
    else
      var q := DropTrailingSlashes(p);
      if q == "" then "/" else q[LastIndex(q, '/') + 1..]
  }

  /** Joining on a single element ends the path with that element, so not with '/'. */
  lemma JoinEndsWith(a: string, b: string)
    requires IsComponent(b)
    ensures Join(a, b)[|Join(a, b)| - 1] == b[|b| - 1] != '/'
    ensures a != "" && a[|a| - 1] != '/' ==> Join(a, b) == a + "/" + b
  {
    var p := Join(a, b);
    assert p[|p| - |b|..] == b;
  }

  /** The last element of a joined path is the element that was joined on. */
  lemma BaseJoin(a: string, b: string)
    requires IsComponent(b)
    ensures Base(Join(a, b)) == b
  {
    var p := Join(a, b);
    var x := p[..|p| - |b|];
    assert p == x + b;
    assert x == [] || x[|x| - 1] == '/';
    assert DropTrailingSlashes(p) == p;
    var k := LastIndex(p, '/');
    if x != [] {
      assert p[|x| - 1] == '/';
    }
    assert k == |x| - 1;
  }

  /** The directory of a joined path is the directory that was joined onto. */
  lemma DirJoin(a: string, b: string)
    requires IsCleanDir(a) && IsComponent(b)
    ensures Dir(Join(a, b)) == a
  {
    var p := Join(a, b);
    var x := if a == "/" then a else a + "/";
    assert p == x + b;
    var k := LastIndex(p, '/');
    assert p[|x| - 1] == '/';
    assert k == |x| - 1;
  }

}
