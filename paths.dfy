/**
 * The file-name rule two front-end stores share: `path.split(/[\\/]/)`'s last piece, falling back
 * to the whole path when that piece is empty (src/stores/tabStore.ts, src/stores/recentReposStore.ts).
 */
module Paths {
  /** Either separator the front end splits paths on. */
  predicate IsPathSep(c: char) {
    c == '/' || c == '\\'
  }

  predicate NoSep(s: string) {
    forall j :: 0 <= j < |s| ==> !IsPathSep(s[j])
  }

  /**
   * The last piece of `path.split(/[\\/]/)`: the longest suffix free of separators, which is
   * preceded by a separator unless it is the whole path.
   */
  function LastSegment(s: string): (r: string)
    ensures |r| <= |s|
    ensures forall j :: 0 <= j < |r| ==> r[j] == s[|s| - |r| + j]
    ensures NoSep(r)
    ensures |r| < |s| ==> IsPathSep(s[|s| - |r| - 1])
    decreases |s|
  {
    if s == [] then []
    else if IsPathSep(s[|s| - 1]) then []
    else LastSegment(s[..|s| - 1]) + [s[|s| - 1]]
  }

  /** `path.split(/[\\/]/).pop() || path`. */
  function BaseName(p: string): (r: string)
    ensures p != [] ==> r != []
  {
    var last := LastSegment(p);
    if last != [] then last else p
  }

  /**
   * The base name is the whole path when it has no separator; otherwise it is the non-empty text
   * after the last separator, unless the path ends in one.
   */
  lemma BaseNameIs(p: string)
    ensures NoSep(p) ==> BaseName(p) == p
    ensures var r := BaseName(p);
            (r != p ==> r == LastSegment(p) && r != [] && IsPathSep(p[|p| - |r| - 1]))
  {
  }

  /** A path ending in a separator has no last piece, so its base name is the whole path. */
  lemma TrailingSeparator(p: string)
    requires p != [] && IsPathSep(p[|p| - 1])
    ensures BaseName(p) == p
  {
  }

  /** Joining a directory and a separator-free name gives back that name. */
  lemma {:induction false} BaseNameOfJoin(dir: string, sep: char, name: string)
    requires IsPathSep(sep) && NoSep(name) && name != []
    ensures BaseName(dir + [sep] + name) == name
  {
    SegmentOfJoin(dir, sep, name);
  }

  lemma SegmentOfJoin(dir: string, sep: char, name: string)
    requires IsPathSep(sep) && NoSep(name)
    ensures LastSegment(dir + [sep] + name) == name
  {
    var s := dir + [sep] + name;
    assert s[|s| - |name| - 1] == sep;
    assert forall j :: 0 <= j < |name| ==> name[j] == s[|s| - |name| + j];
    LongestSuffix(s, name);
  }

  /** The last piece is the longest separator-free suffix: one preceded by a separator is it. */
  lemma {:induction false} LongestSuffix(s: string, name: string)
    requires |name| < |s| && IsPathSep(s[|s| - |name| - 1]) && NoSep(name)
    requires forall j :: 0 <= j < |name| ==> name[j] == s[|s| - |name| + j]
    ensures LastSegment(s) == name
    decreases |name|
  {
    if name != [] {
      var init, last := s[..|s| - 1], name[|name| - 1];
      assert s[|s| - 1] == last && !IsPathSep(last);
      assert init[|init| - (|name| - 1) - 1] == s[|s| - |name| - 1];
      LongestSuffix(init, name[..|name| - 1]);
      assert name[..|name| - 1] + [last] == name;
    }
  }
}
