/**
 * The part of Node's posix `path.extname` the downloader relies on: the
 * extension of the last path segment, from its last `.` to the end, or the
 * empty string when that segment has no `.`, starts with its only `.`, or is `..`.
 * Trailing `/` characters are ignored.
 */
module Paths {
  import opened Wrappers

  function LastIndexOf(s: string, c: char): (r: Option<nat>)
    ensures r.Some? ==> r.value < |s| && s[r.value] == c && forall k :: r.value < k < |s| ==> s[k] != c
    ensures r.None? ==> forall k :: 0 <= k < |s| ==> s[k] != c
    decreases |s|
  {
    if s == [] then None
    else if s[|s| - 1] == c then Some(|s| - 1)
    else LastIndexOf(s[..|s| - 1], c)
  }

  function TrimTrailingSlashes(p: string): (r: string)
    ensures r <= p
    ensures r == [] || r[|r| - 1] != '/'
    ensures forall k :: |r| <= k < |p| ==> p[k] == '/'
    decreases |p|
  {
    if |p| > 0 && p[|p| - 1] == '/' then TrimTrailingSlashes(p[..|p| - 1]) else p
  }

  /** The last segment of a path without trailing slashes. */
  function LastSegment(p: string): (b: string)
    ensures '/' !in b
  {
    match LastIndexOf(p, '/')
    case None => p
    case Some(i) => p[i + 1..]
  }

  function Extname(p: string): (e: string)
    ensures e == [] || (e[0] == '.' && '.' !in e[1..] && '/' !in e)
  {
    var b := LastSegment(TrimTrailingSlashes(p));
    match LastIndexOf(b, '.')
    case None => ""
    case Some(i) => if i == 0 || b == ".." then "" else b[i..]
  }

  /**
   * A name made of a stem without dots or slashes followed by an extension
   * has exactly that extension: the extension of a page survives renaming.
   */
  lemma ExtnameAfterStem(stem: string, e: string)
    requires |stem| > 0 && '.' !in stem && '/' !in stem
    requires |e| > 0 && e[0] == '.' && '.' !in e[1..] && '/' !in e
    ensures Extname(stem + e) == e
  {
    var p := stem + e;
    assert p[|p| - 1] == e[|e| - 1];
    assert TrimTrailingSlashes(p) == p;
    assert forall k :: 0 <= k < |p| ==> p[k] != '/' by {
      forall k | 0 <= k < |p| ensures p[k] != '/' {
        if k < |stem| { assert p[k] == stem[k]; } else { assert p[k] == e[k - |stem|]; }
      }
    }
    assert LastSegment(p) == p;
    var i := LastIndexOf(p, '.');
    assert p[|stem|] == '.';
    assert i.Some?;
    assert i.value == |stem|;
    assert p[0] == stem[0] != '.';
    assert p[|stem|..] == e;
  }
}
