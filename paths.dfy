/** The parts of .NET's `System.IO.Path` the core relies on, for Windows paths:
    `Path.Combine` and `Path.GetDirectoryName`. */
module Paths {

  /** `Path.DirectorySeparatorChar`, `Path.AltDirectorySeparatorChar` and
      `Path.VolumeSeparatorChar` on Windows. */
  const DirectorySeparator: char := '\\'
  const AltDirectorySeparator: char := '/'
  const VolumeSeparator: char := ':'

  /** A character that separates directories in a path. */
  predicate IsDirectorySeparator(c: char) {
    c == DirectorySeparator || c == AltDirectorySeparator
  }

  /** `s` contains a directory separator. */
  predicate HasDirectorySeparator(s: string) {
    exists k :: 0 <= k < |s| && IsDirectorySeparator(s[k])
  }

  /** Joining two strings without a directory separator gives none. */
  lemma NoSeparatorAppend(a: string, b: string)
    requires !HasDirectorySeparator(a) && !HasDirectorySeparator(b)
    ensures !HasDirectorySeparator(a + b)
  {
    forall k | 0 <= k < |a + b| ensures !IsDirectorySeparator((a + b)[k]) {
      if k < |a| {
        assert (a + b)[k] == a[k];
      } else {
        assert (a + b)[k] == b[k - |a|];
      }
    }
  }

  /** `Path.IsPathRooted`: starts with a separator, or has a drive letter. */
  predicate IsPathRooted(p: string) {
    (|p| >= 1 && IsDirectorySeparator(p[0])) || (|p| >= 2 && p[1] == VolumeSeparator)
  }

  /** `root` ends in a character after which `Path.Combine` adds no separator. */
  predicate EndsWithSeparator(root: string) {
    root != [] && (IsDirectorySeparator(root[|root| - 1]) || root[|root| - 1] == VolumeSeparator)
  }

  /** `Path.Combine(root, path)`: `root` when `path` is empty, `path` itself when it
      is rooted or `root` is empty, otherwise `root` and `path` with one directory
      separator between them unless `root` already ends in one. */
  function Combine(root: string, path: string): (r: string)
    ensures |r| >= |path| && r[|r| - |path|..] == path
    ensures !IsPathRooted(path) ==> |r| >= |root| + |path| && r[..|root|] == root
    ensures |r| <= |root| + 1 + |path|
    ensures path == [] ==> r == root
    ensures path != [] && (IsPathRooted(path) || root == []) ==> r == path
    ensures path != [] && !IsPathRooted(path) && root != [] ==>
      (EndsWithSeparator(root) && r == root + path) ||
      (!EndsWithSeparator(root) && r == root + [DirectorySeparator] + path)
  {
    if path == [] then root
    else if IsPathRooted(path) || root == [] then path
    else if EndsWithSeparator(root) then root + path
    else root + [DirectorySeparator] + path
  }

  /** `Path.GetDirectoryName(p)`: everything before the last directory separator of
      `p`, or the empty string when `p` has none. */
  function DirectoryName(p: string): (r: string)
    ensures |r| <= |p| && r == p[..|r|]
    ensures HasDirectorySeparator(p) ==>
      |r| < |p| && IsDirectorySeparator(p[|r|]) && !HasDirectorySeparator(p[|r| + 1..])
    ensures !HasDirectorySeparator(p) ==> r == []
    decreases |p|
  {
    if p == [] then []
    else if IsDirectorySeparator(p[|p| - 1]) then p[..|p| - 1]
    else
      var r := DirectoryName(p[..|p| - 1]);
      assert HasDirectorySeparator(p) ==> HasDirectorySeparator(p[..|p| - 1]) by {
        if HasDirectorySeparator(p) {
          var k :| 0 <= k < |p| && IsDirectorySeparator(p[k]);
          assert p[..|p| - 1][k] == p[k];
        }
      }
      assert HasDirectorySeparator(p[..|p| - 1]) ==> !HasDirectorySeparator(p[|r| + 1..]) by {
        if HasDirectorySeparator(p[..|p| - 1]) {
          var tail, after := p[..|p| - 1][|r| + 1..], p[|r| + 1..];
          assert after == tail + [p[|p| - 1]];
          forall k | 0 <= k < |after| ensures !IsDirectorySeparator(after[k]) {
            if k < |tail| { assert tail[k] == after[k]; }
          }
        }
      }
      r
  }

  /** `GetDirectoryName` undoes the last step of a `Combine`: for a relative path
      `sub\name` whose last part has no separator, the directory of
      `Combine(dir, sub\name)` is `Combine(dir, sub)`. */
  lemma DirectoryNameOfCombine(dir: string, sub: string, name: string)
    requires sub != [] && !IsPathRooted(sub) && !HasDirectorySeparator(name)
    ensures DirectoryName(Combine(dir, sub + [DirectorySeparator] + name)) == Combine(dir, sub)
  {
    var path := sub + [DirectorySeparator] + name;
    assert path[0] == sub[0] && path[1] != VolumeSeparator;
    var joined := Combine(dir, sub);
    assert Combine(dir, path) == joined + [DirectorySeparator] + name;
    DirectoryNameSkipsName(joined + [DirectorySeparator], name);
    var withSep := joined + [DirectorySeparator];
    assert withSep[..|withSep| - 1] == joined;
  }

  /** A trailing piece without separators does not change the directory name. */
  lemma {:induction false} DirectoryNameSkipsName(prefix: string, name: string)
    requires !HasDirectorySeparator(name)
    ensures DirectoryName(prefix + name) == DirectoryName(prefix)
    decreases |name|
  {
    if name == [] {
      assert prefix + name == prefix;
    } else {
      var front := name[..|name| - 1];
      var p := prefix + name;
      assert !IsDirectorySeparator(name[|name| - 1]);
      assert p[|p| - 1] == name[|name| - 1];
      assert p[..|p| - 1] == prefix + front;
      assert DirectoryName(p) == DirectoryName(prefix + front);
      assert forall k :: 0 <= k < |front| ==> front[k] == name[k];
      DirectoryNameSkipsName(prefix, front);
    }
  }
}
