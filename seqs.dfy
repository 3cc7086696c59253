/** List operations the Python code takes from `list` and pandas. */
module Seqs {

  /** No element occurs twice. */
  predicate NoDuplicates<T(==)>(s: seq<T>) {
    forall i, j :: 0 <= i < j < |s| ==> s[i] != s[j]
  }

  /** `list.remove(x)`: drop the first element equal to `x`. */
  function RemoveFirst<T(==)>(s: seq<T>, x: T): (r: seq<T>)
    ensures x in s ==> multiset(r) == multiset(s) - multiset{x}
    ensures x !in s ==> r == s
  {
    if s == [] then []
    else
      assert s == [s[0]] + s[1..];
      if s[0] == x then s[1..] else [s[0]] + RemoveFirst(s[1..], x)
  }

  lemma ConcatAssociative<T>(a: seq<T>, b: seq<T>, c: seq<T>)
    ensures a + (b + c) == (a + b) + c
  {
  }

  /** `a` is `b` with some elements left out, the rest in their order. */
  predicate IsSubsequence<T(==)>(a: seq<T>, b: seq<T>)
    decreases |b|
  {
    if a == [] then true
    else if b == [] then false
    else if a[0] == b[0] then IsSubsequence(a[1..], b[1..])
    else IsSubsequence(a, b[1..])
  }

  lemma {:induction false} SubsequenceReflexive<T>(s: seq<T>)
    ensures IsSubsequence(s, s)
  {
    if s != [] {
      SubsequenceReflexive(s[1..]);
    }
  }

  /** A subsequence of the tail of `b` is a subsequence of `b`. */
  lemma {:induction false} SkipHead<T>(a: seq<T>, b: seq<T>)
    requires b != [] && IsSubsequence(a, b[1..])
    ensures IsSubsequence(a, b)
    decreases |b|, 0
  {
    if a != [] && a[0] == b[0] {
      TailSubsequence(a, b[1..]);
    }
  }

  /** Dropping the head of a subsequence keeps it a subsequence. */
  lemma {:induction false} TailSubsequence<T>(a: seq<T>, b: seq<T>)
    requires a != [] && IsSubsequence(a, b)
    ensures IsSubsequence(a[1..], b)
    decreases |b|, 1
  {
    if a[0] == b[0] {
      SkipHead(a[1..], b);
    } else {
      TailSubsequence(a, b[1..]);
      SkipHead(a[1..], b);
    }
  }

  lemma {:induction false} SubsequenceTransitive<T>(a: seq<T>, b: seq<T>, c: seq<T>)
    requires IsSubsequence(a, b) && IsSubsequence(b, c)
    ensures IsSubsequence(a, c)
    decreases |c|
  {
    if a != [] && c != [] {
      if b[0] == c[0] {
        if a[0] == b[0] {
          SubsequenceTransitive(a[1..], b[1..], c[1..]);
        } else {
          SubsequenceTransitive(a, b[1..], c[1..]);
        }
      } else {
        SubsequenceTransitive(a, b, c[1..]);
        if a[0] == c[0] {
          TailSubsequence(a, c[1..]);
        }
      }
    }
  }

  lemma {:induction false} RemoveFirstIsSubsequence<T>(s: seq<T>, x: T)
    ensures IsSubsequence(RemoveFirst(s, x), s)
  {
    if s != [] {
      if s[0] == x {
        SubsequenceReflexive(s[1..]);
        SkipHead(s[1..], s);
      } else {
        RemoveFirstIsSubsequence(s[1..], x);
      }
    }
  }

  lemma {:induction false} SubsequenceMembers<T>(a: seq<T>, b: seq<T>)
    requires IsSubsequence(a, b)
    ensures multiset(a) <= multiset(b)
    decreases |b|
  {
    if a != [] {
      if a[0] == b[0] {
        SubsequenceMembers(a[1..], b[1..]);
        assert a == [a[0]] + a[1..];
        assert b == [b[0]] + b[1..];
      } else {
        SubsequenceMembers(a, b[1..]);
        assert b == [b[0]] + b[1..];
      }
    }
  }

  /** pandas' `unique()` / `drop_duplicates()`: the first occurrence of each value, in order. */
  function Distinct<T(==)>(s: seq<T>): (r: seq<T>)
    ensures forall i :: 0 <= i < |r| ==> r[i] in s
    ensures forall i :: 0 <= i < |s| ==> s[i] in r
    ensures forall i, j :: 0 <= i < j < |r| ==> r[i] != r[j]
  {
    DistinctAfter(s, {})
  }

  function DistinctAfter<T(==)>(s: seq<T>, seen: set<T>): (r: seq<T>)
    ensures forall i :: 0 <= i < |r| ==> r[i] in s && r[i] !in seen
    ensures forall i :: 0 <= i < |s| && s[i] !in seen ==> s[i] in r
    ensures forall i, j :: 0 <= i < j < |r| ==> r[i] != r[j]
  {
    if s == [] then []
    else if s[0] in seen then DistinctAfter(s[1..], seen)
    else [s[0]] + DistinctAfter(s[1..], seen + {s[0]})
  }

  lemma {:induction false} DistinctAfterIsSubsequence<T>(s: seq<T>, seen: set<T>)
    ensures IsSubsequence(DistinctAfter(s, seen), s)
  {
    if s != [] {
      DistinctAfterIsSubsequence(s[1..], seen + {s[0]});
      DistinctAfterIsSubsequence(s[1..], seen);
      var r := DistinctAfter(s, seen);
      if s[0] !in seen {
        assert r[1..] == DistinctAfter(s[1..], seen + {s[0]});
      } else if r != [] {
        SkipHead(r, s);
      }
    }
  }

  /** The elements of `s` that `p` selects, in order. */
  function FilterBy<T>(s: seq<T>, p: T -> bool): (r: seq<T>)
    ensures |r| <= |s|
  {
    if s == [] then [] else (if p(s[0]) then [s[0]] else []) + FilterBy(s[1..], p)
  }

  lemma {:induction false} FilterByEmpty<T>(s: seq<T>, p: T -> bool)
    requires |FilterBy(s, p)| == 0
    ensures forall i :: 0 <= i < |s| ==> !p(s[i])
  {
    if s != [] {
      FilterByEmpty(s[1..], p);
      assert forall i :: 1 <= i < |s| ==> s[i] == s[1..][i - 1];
    }
  }

  lemma {:induction false} FilterBySingle<T>(s: seq<T>, p: T -> bool)
    requires |FilterBy(s, p)| == 1
    ensures exists i :: 0 <= i < |s| && s[i] == FilterBy(s, p)[0] && p(s[i]) &&
                        forall j :: 0 <= j < |s| && j != i ==> !p(s[j])
  {
    assert forall i :: 1 <= i < |s| ==> s[i] == s[1..][i - 1];
    if p(s[0]) {
      FilterByEmpty(s[1..], p);
      assert forall j :: 0 <= j < |s| && j != 0 ==> !p(s[j]);
    } else {
      FilterBySingle(s[1..], p);
      var i :| 0 <= i < |s[1..]| && s[1..][i] == FilterBy(s[1..], p)[0] && p(s[1..][i]) &&
               forall j :: 0 <= j < |s[1..]| && j != i ==> !p(s[1..][j]);
      assert forall j :: 0 <= j < |s| && j != i + 1 ==> !p(s[j]);
    }
  }

  lemma {:induction false} FilterBySeveral<T>(s: seq<T>, p: T -> bool)
    requires |FilterBy(s, p)| >= 2
    ensures exists i, j :: 0 <= i < j < |s| && p(s[i]) && p(s[j])
  {
    assert forall i :: 1 <= i < |s| ==> s[i] == s[1..][i - 1];
    if p(s[0]) {
      assert |FilterBy(s[1..], p)| >= 1;
      var k := FilterByWitness(s[1..], p);
      assert p(s[0]) && p(s[k + 1]);
    } else {
      FilterBySeveral(s[1..], p);
      var i, j :| 0 <= i < j < |s[1..]| && p(s[1..][i]) && p(s[1..][j]);
      assert p(s[i + 1]) && p(s[j + 1]);
    }
  }

  lemma {:induction false} FilterByWitness<T>(s: seq<T>, p: T -> bool) returns (k: nat)
    requires |FilterBy(s, p)| >= 1
    ensures k < |s| && p(s[k])
  {
    if p(s[0]) {
      k := 0;
    } else {
      k := FilterByWitness(s[1..], p);
      k := k + 1;
    }
  }

  /** Two selected positions give at least two selected elements. */
  lemma {:induction false} FilterByTwo<T>(s: seq<T>, p: T -> bool, i: nat, j: nat)
    requires i < j < |s| && p(s[i]) && p(s[j])
    ensures |FilterBy(s, p)| >= 2
  {
    assert s[1..][j - 1] == s[j];
    if i == 0 {
      FilterByAtLeastOne(s[1..], p, j - 1);
    } else {
      assert s[1..][i - 1] == s[i];
      FilterByTwo(s[1..], p, i - 1, j - 1);
    }
  }

  /** A selected position gives at least one selected element. */
  lemma {:induction false} FilterByAtLeastOne<T>(s: seq<T>, p: T -> bool, i: nat)
    requires i < |s| && p(s[i])
    ensures |FilterBy(s, p)| >= 1
  {
    if i > 0 {
      assert s[1..][i - 1] == s[i];
      FilterByAtLeastOne(s[1..], p, i - 1);
    }
  }
}
