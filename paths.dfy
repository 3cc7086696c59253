/** File paths as strings, and the parts of them that `pathlib.Path` exposes. */
module Paths {
  type Path = string

  /** `Path(p).name`: the text after the last '/'. */
  function BaseName(p: Path): string {
    if p == [] || p[|p| - 1] == '/' then []
    else BaseName(p[..|p| - 1]) + [p[|p| - 1]]
  }

  /** The base name is the part of the path after its last '/', or all of it. */
  lemma {:induction false} BaseNameMeaning(p: Path)
    ensures '/' !in BaseName(p)
    ensures |BaseName(p)| <= |p| && p[|p| - |BaseName(p)|..] == BaseName(p)
    ensures |BaseName(p)| < |p| ==> p[|p| - |BaseName(p)| - 1] == '/'
  {
    if p != [] && p[|p| - 1] != '/' {
      var q := p[..|p| - 1];
      BaseNameMeaning(q);
      var b, bq := BaseName(p), BaseName(q);
      assert b == bq + [p[|p| - 1]];
      assert p == q + [p[|p| - 1]];
      assert p[|p| - |b|..] == q[|q| - |bq|..] + [p[|p| - 1]];
    }
  }

  /** Python's `s.rfind(c)`: the last position of `c`, or -1. */
  function LastIndexOf(s: string, c: char): (i: int)
    ensures -1 <= i < |s|
    ensures i >= 0 ==> s[i] == c
    ensures forall j :: i < j < |s| ==> s[j] != c
  {
    if s == [] then -1
    else if s[|s| - 1] == c then |s| - 1
    else LastIndexOf(s[..|s| - 1], c)
  }

  /** `PurePath.suffix` of a file name: from its last '.', unless that dot starts or ends the name. */
  function Suffix(name: string): string {
    var i := LastIndexOf(name, '.');
    if 0 < i < |name| - 1 then name[i..] else ""
  }

  /** `PurePath.stem` of a file name: the name without its suffix. */
  function Stem(name: string): string {
    var i := LastIndexOf(name, '.');
    if 0 < i < |name| - 1 then name[..i] else name
  }

  /** `Path(p).stem`. */
  function FileStem(p: Path): string {
    Stem(BaseName(p))
  }

  /** A name splits into its stem and its suffix; a suffix is a dot and at least one
      more character, none a dot, after a non-empty stem. */
  lemma StemAndSuffix(name: string)
    ensures Stem(name) + Suffix(name) == name
    ensures Suffix(name) != "" ==>
      |Suffix(name)| >= 2 && Suffix(name)[0] == '.' && '.' !in Suffix(name)[1..] && Stem(name) != ""
    ensures Suffix(name) == "" ==> Stem(name) == name
  {
    var i := LastIndexOf(name, '.');
    if 0 < i < |name| - 1 {
      assert name[..i] + name[i..] == name;
      assert forall k :: 0 <= k < |name[i..][1..]| ==> name[i..][1..][k] == name[i + 1 + k];
    }
  }

  /** A path without a '/' is its own name. */
  lemma {:induction false} BaseNameOfPlainName(p: Path)
    requires '/' !in p
    ensures BaseName(p) == p
  {
    if p != [] {
      BaseNameOfPlainName(p[..|p| - 1]);
      assert p[..|p| - 1] + [p[|p| - 1]] == p;
    }
  }
}
