/** `_match_txt_file`: which text export belongs to an acquisition of an MCD file. */
module TxtMatching {
  import opened Wrappers
  import opened Strings
  import opened Seqs
  import opened Paths

  predicate AllZeros(s: string) {
    forall k :: 0 <= k < |s| ==> s[k] == '0'
  }

  /** `s` starts with the acquisition id, any one character but a newline, then `txt`. */
  predicate IdTxtAt(s: string, id: string) {
    |s| >= |id| + 4 && s[..|id|] == id && s[|id|] != '\n' && s[|id| + 1..|id| + 4] == "txt"
  }

  /** The regex tail `0*{id}.txt`, tried for every number of leading zeros. */
  predicate ZerosThenId(s: string, id: string)
    decreases |s|
  {
    IdTxtAt(s, id) || (s != [] && s[0] == '0' && ZerosThenId(s[1..], id))
  }

  /** The regex tail `.*_0*{id}.txt`, tried at every `_` reachable without a newline. */
  predicate AnyThenUnderscore(s: string, id: string)
    decreases |s|
  {
    s != [] &&
    ((s[0] == '_' && ZerosThenId(s[1..], id)) || (s[0] != '\n' && AnyThenUnderscore(s[1..], id)))
  }

  /** `re.match(rf"{stem}.*_0*{id}.txt", name)` is not None, the stem read as literal text. */
  predicate NameMatches(name: string, stem: string, id: int) {
    |stem| <= |name| && name[..|stem|] == stem && AnyThenUnderscore(name[|stem|..], IntToDecimal(id))
  }

  /** The same pattern stated by positions in the name: the stem, then up to `u` no newline,
      `_` at `u`, zeros up to `z`, then the decimal id, one character other than a newline and
      `txt`; whatever follows is not looked at. */
  ghost predicate PatternMatches(name: string, stem: string, id: int) {
    var t := IntToDecimal(id);
    |stem| <= |name| && name[..|stem|] == stem &&
    exists u, z :: |stem| <= u < z <= |name| &&
      '\n' !in name[|stem|..u] && name[u] == '_' && AllZeros(name[u + 1..z]) && IdTxtAt(name[z..], t)
  }

  lemma {:induction false} ZerosThenIdWitness(s: string, id: string) returns (k: nat)
    requires ZerosThenId(s, id)
    ensures k <= |s| && AllZeros(s[..k]) && IdTxtAt(s[k..], id)
    decreases |s|
  {
    if IdTxtAt(s, id) {
      k := 0;
    } else {
      var k' := ZerosThenIdWitness(s[1..], id);
      k := k' + 1;
      assert s[..k] == [s[0]] + s[1..][..k'];
      assert s[k..] == s[1..][k'..];
    }
  }

  lemma {:induction false} ZerosThenIdFrom(s: string, id: string, k: nat)
    requires k <= |s| && AllZeros(s[..k]) && IdTxtAt(s[k..], id)
    ensures ZerosThenId(s, id)
    decreases k
  {
    if k > 0 {
      assert s[0] == s[..k][0];
      assert s[1..][..k - 1] == s[..k][1..];
      assert s[1..][k - 1..] == s[k..];
      ZerosThenIdFrom(s[1..], id, k - 1);
    }
  }

  lemma {:induction false} AnyThenUnderscoreWitness(s: string, id: string) returns (u: nat)
    requires AnyThenUnderscore(s, id)
    ensures u < |s| && '\n' !in s[..u] && s[u] == '_' && ZerosThenId(s[u + 1..], id)
    decreases |s|
  {
    if s[0] == '_' && ZerosThenId(s[1..], id) {
      u := 0;
    } else {
      var u' := AnyThenUnderscoreWitness(s[1..], id);
      u := u' + 1;
      assert s[..u] == [s[0]] + s[1..][..u'];
      assert s[u + 1..] == s[1..][u' + 1..];
    }
  }

  lemma {:induction false} AnyThenUnderscoreFrom(s: string, id: string, u: nat)
    requires u < |s| && '\n' !in s[..u] && s[u] == '_' && ZerosThenId(s[u + 1..], id)
    ensures AnyThenUnderscore(s, id)
    decreases u
  {
    if u > 0 {
      assert s[0] == s[..u][0];
      assert s[1..][..u - 1] == s[..u][1..];
      assert s[1..][u - 1 + 1..] == s[u + 1..];
      AnyThenUnderscoreFrom(s[1..], id, u - 1);
    }
  }

  lemma NameMatchesHasPattern(name: string, stem: string, id: int)
    requires NameMatches(name, stem, id)
    ensures PatternMatches(name, stem, id)
  {
    var t := IntToDecimal(id);
    var n := |stem|;
    var s := name[n..];
    var u' := AnyThenUnderscoreWitness(s, t);
    var w := s[u' + 1..];
    var k := ZerosThenIdWitness(w, t);
    var u, z := n + u', n + u' + 1 + k;
    assert name[n..u] == s[..u'];
    assert name[u] == s[u'];
    assert name[u + 1..z] == w[..k];
    assert name[z..] == w[k..];
    assert '\n' !in name[n..u] && name[u] == '_' && AllZeros(name[u + 1..z]) && IdTxtAt(name[z..], t);
  }

  lemma PatternHasNameMatches(name: string, stem: string, id: int, u: nat, z: nat)
    requires |stem| <= |name| && name[..|stem|] == stem
    requires |stem| <= u < z <= |name| && '\n' !in name[|stem|..u] && name[u] == '_'
    requires AllZeros(name[u + 1..z]) && IdTxtAt(name[z..], IntToDecimal(id))
    ensures NameMatches(name, stem, id)
  {
    var t := IntToDecimal(id);
    var n := |stem|;
    var s := name[n..];
    var u', k := u - n, z - u - 1;
    var w := s[u' + 1..];
    assert w == name[u + 1..];
    assert w[..k] == name[u + 1..z];
    assert w[k..] == name[z..];
    ZerosThenIdFrom(w, t, k);
    assert s[..u'] == name[n..u];
    AnyThenUnderscoreFrom(s, t, u');
  }

  /** The matcher accepts exactly the names the pattern describes. */
  lemma NameMatchesIffPattern(name: string, stem: string, id: int)
    ensures NameMatches(name, stem, id) <==> PatternMatches(name, stem, id)
  {
    if NameMatches(name, stem, id) {
      NameMatchesHasPattern(name, stem, id);
    }
    if PatternMatches(name, stem, id) {
      var u, z :| |stem| <= u < z <= |name| && '\n' !in name[|stem|..u] && name[u] == '_' &&
        AllZeros(name[u + 1..z]) && IdTxtAt(name[z..], IntToDecimal(id));
      PatternHasNameMatches(name, stem, id, u, z);
    }
  }

  /** A txt file is a candidate for an acquisition when its base name matches the pattern
      built from the MCD file's stem and the acquisition id. */
  predicate IsCandidate(mcdFile: Path, acquisitionId: int, txtFile: Path) {
    NameMatches(BaseName(txtFile), FileStem(mcdFile), acquisitionId)
  }

  /** `filtered_txt_files`: the candidates, in list order. */
  function Candidates(mcdFile: Path, acquisitionId: int, txtFiles: seq<Path>): seq<Path> {
    FilterBy(txtFiles, (f: Path) => IsCandidate(mcdFile, acquisitionId, f))
  }

  /** The txt file for `acquisitionId` of `mcdFile`, as `_match_txt_file` picks it: the one
      candidate, or nothing with a warning when there is none or there are several. */
  function MatchTxtFile(mcdFile: Path, acquisitionId: int, txtFiles: seq<Path>): Option<Path> {
    var filtered := Candidates(mcdFile, acquisitionId, txtFiles);
    if |filtered| == 1 then Some(filtered[0]) else None
  }

  /** How the txt files are handed over: as `str` paths, or as `pathlib.Path` objects, the
      form `list_txt_files` returns. */
  datatype PathKind = StrPaths | PathObjects

  /** The warning for an ambiguous match builds its message with `", ".join(filtered_txt_files)`,
      which raises `TypeError` when the candidates are `Path` objects. */
  predicate AmbiguousMatchRaises(kind: PathKind, mcdFile: Path, acquisitionId: int, txtFiles: seq<Path>) {
    kind == PathObjects && |Candidates(mcdFile, acquisitionId, txtFiles)| > 1
  }

  /** A file is returned exactly when one candidate matches, and it is that candidate; when
      nothing is returned, no file or at least two files match. */
  lemma MatchTxtFileMeaning(mcdFile: Path, acquisitionId: int, txtFiles: seq<Path>)
    ensures var r := MatchTxtFile(mcdFile, acquisitionId, txtFiles);
      r.Some? ==>
        exists i :: 0 <= i < |txtFiles| && txtFiles[i] == r.value && IsCandidate(mcdFile, acquisitionId, txtFiles[i]) &&
          forall j :: 0 <= j < |txtFiles| && j != i ==> !IsCandidate(mcdFile, acquisitionId, txtFiles[j])
    ensures MatchTxtFile(mcdFile, acquisitionId, txtFiles).None? ==>
      (forall i :: 0 <= i < |txtFiles| ==> !IsCandidate(mcdFile, acquisitionId, txtFiles[i])) ||
      (exists i, j :: 0 <= i < j < |txtFiles| &&
         IsCandidate(mcdFile, acquisitionId, txtFiles[i]) && IsCandidate(mcdFile, acquisitionId, txtFiles[j]))
  {
    var p := (f: Path) => IsCandidate(mcdFile, acquisitionId, f);
    var filtered := FilterBy(txtFiles, p);
    assert filtered == Candidates(mcdFile, acquisitionId, txtFiles);
    if |filtered| == 1 {
      FilterBySingle(txtFiles, p);
    } else if |filtered| == 0 {
      FilterByEmpty(txtFiles, p);
    } else {
      FilterBySeveral(txtFiles, p);
    }
  }

  /** A returned file is one of the given files, and a candidate. */
  lemma MatchTxtFileMember(mcdFile: Path, acquisitionId: int, txtFiles: seq<Path>)
    ensures var r := MatchTxtFile(mcdFile, acquisitionId, txtFiles);
      r.Some? ==> r.value in txtFiles && IsCandidate(mcdFile, acquisitionId, r.value)
  {
    MatchTxtFileMeaning(mcdFile, acquisitionId, txtFiles);
  }

  /** `_match_txt_file` raises exactly for `Path` objects with two candidates or more. */
  lemma AmbiguousMatchRaisesMeaning(kind: PathKind, mcdFile: Path, acquisitionId: int, txtFiles: seq<Path>)
    ensures AmbiguousMatchRaises(kind, mcdFile, acquisitionId, txtFiles) <==>
      kind == PathObjects &&
      exists i, j :: 0 <= i < j < |txtFiles| &&
        IsCandidate(mcdFile, acquisitionId, txtFiles[i]) && IsCandidate(mcdFile, acquisitionId, txtFiles[j])
  {
    var p := (f: Path) => IsCandidate(mcdFile, acquisitionId, f);
    assert FilterBy(txtFiles, p) == Candidates(mcdFile, acquisitionId, txtFiles);
    if |FilterBy(txtFiles, p)| > 1 {
      FilterBySeveral(txtFiles, p);
    }
    if exists i, j :: 0 <= i < j < |txtFiles| && p(txtFiles[i]) && p(txtFiles[j]) {
      var i, j :| 0 <= i < j < |txtFiles| && p(txtFiles[i]) && p(txtFiles[j]);
      FilterByTwo(txtFiles, p, i, j);
    }
  }

  /** Without an `_` the tail `.*_0*{id}.txt` cannot match. */
  lemma {:induction false} NoUnderscoreNoMatch(s: string, id: string)
    requires '_' !in s
    ensures !AnyThenUnderscore(s, id)
    decreases |s|
  {
    if s != [] {
      assert s[0] in s;
      assert forall c :: c in s[1..] ==> c in s;
      NoUnderscoreNoMatch(s[1..], id);
    }
  }
}
