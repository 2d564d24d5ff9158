/**
 * POSIX path helpers as Python's `posixpath` defines them: `basename`,
 * `dirname` and `join`. Rust's `loc.rsplit('/').next()` is the same text as
 * `basename`, so the result processor uses `Basename` too.
 */
module Paths {

  /** The index just after the last `/` of `p`, or 0 when `p` has no `/`. */
  function SlashCut(p: string): (r: nat)
    ensures r <= |p|
    ensures r > 0 ==> p[r - 1] == '/'
    ensures forall j :: r <= j < |p| ==> p[j] != '/'
    decreases |p|
  {
    if |p| == 0 then 0
    else if p[|p| - 1] == '/' then |p|
    else SlashCut(p[..|p| - 1])
  }

  /** `os.path.basename`: everything after the last `/`. */
  function Basename(p: string): string
  {
    p[SlashCut(p)..]
  }

  /** The basename is the longest suffix without a `/`: it has none, and a `/` precedes it unless it is all of `p`. */
  lemma BasenameIsLastSegment(p: string)
    ensures var r := Basename(p);
      '/' !in r && |r| <= |p| && p[|p| - |r|..] == r && (|r| < |p| ==> p[|p| - |r| - 1] == '/')
  {
  }

  /** Every character of `h` is a `/`. */
  predicate AllSlashes(h: string)
  {
    forall j :: 0 <= j < |h| ==> h[j] == '/'
  }

  /** `h` without its trailing `/` characters (Python's `h.rstrip('/')`). */
  function StripTrailingSlashes(h: string): (r: string)
    ensures |r| <= |h| && h[..|r|] == r
    ensures r == [] || r[|r| - 1] != '/'
    ensures AllSlashes(h[|r|..])
    decreases |h|
  {
    if |h| > 0 && h[|h| - 1] == '/' then StripTrailingSlashes(h[..|h| - 1]) else h
  }

  /**
   * `os.path.dirname`: everything up to the last `/`, without trailing
   * slashes unless that prefix is made of slashes only (the root).
   */
  function Dirname(p: string): string
  {
    var head := p[..SlashCut(p)];
    if head != [] && !AllSlashes(head) then StripTrailingSlashes(head) else head
  }

  /** `os.path.join(a, b)` for two components. */
  function Join(a: string, b: string): string
  {
    if |b| > 0 && b[0] == '/' then b
    else if a == [] || a[|a| - 1] == '/' then a + b
    else a + "/" + b
  }

  /** After a text ending in `/`, a name without `/` is cut exactly at its start. */
  lemma {:induction false} SlashCutAfterSlash(a: string, name: string)
    requires |a| > 0 && a[|a| - 1] == '/' && '/' !in name
    ensures SlashCut(a + name) == |a|
    decreases |name|
  {
    if name == [] {
      assert a + name == a;
    } else {
      var q := a + name;
      assert q[|q| - 1] == name[|name| - 1];
      assert q[..|q| - 1] == a + name[..|name| - 1];
      SlashCutAfterSlash(a, name[..|name| - 1]);
    }
  }

  /** Joining a directory and a file name gives back the file name as basename. */
  lemma BasenameOfJoin(dir: string, name: string)
    requires '/' !in name
    ensures Basename(Join(dir, name)) == name
  {
    if |name| > 0 && name[0] == '/' {
    } else if dir == [] {
      assert Join(dir, name) == name;
    } else if dir[|dir| - 1] == '/' {
      SlashCutAfterSlash(dir, name);
    } else {
      assert Join(dir, name) == (dir + "/") + name;
      SlashCutAfterSlash(dir + "/", name);
    }
  }

  /** Joining a directory that has no trailing slash and a file name gives back the directory. */
  lemma {:induction false} DirnameOfJoin(dir: string, name: string)
    requires dir != [] && dir[|dir| - 1] != '/'
    requires '/' !in name
    ensures Dirname(Join(dir, name)) == dir
  {
    var p := dir + "/" + name;
    assert Join(dir, name) == p;
    var cut := SlashCut(p);
    assert p[|dir|] == '/';
    assert forall j :: |dir| < j < |p| ==> p[j] == name[j - |dir| - 1];
    assert p[..cut] == dir + "/";
    assert !AllSlashes(dir + "/") by { assert (dir + "/")[|dir| - 1] != '/'; }
    assert StripTrailingSlashes(dir + "/") == StripTrailingSlashes(dir);
  }
}
