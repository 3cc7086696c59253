/** A stable sort by a total preorder, as Python's `sorted` and pandas' `sort_values` order rows. */
module Sorting {
  import opened Seqs

  ghost predicate IsTotalPreorder<T(!new)>(le: (T, T) -> bool) {
    (forall a, b :: le(a, b) || le(b, a)) &&
    (forall a, b, c :: le(a, b) && le(b, c) ==> le(a, c))
  }

  predicate SortedBy<T>(s: seq<T>, le: (T, T) -> bool) {
    forall i, j :: 0 <= i < j < |s| ==> le(s[i], s[j])
  }

  /** Put `x` before the first element it does not come after. */
  function InsertBy<T>(x: T, s: seq<T>, le: (T, T) -> bool): (r: seq<T>)
    ensures |r| == |s| + 1
    ensures multiset(r) == multiset(s) + multiset{x}
  {
    if s == [] || le(x, s[0]) then [x] + s
    else
      assert s == [s[0]] + s[1..];
      [s[0]] + InsertBy(x, s[1..], le)
  }

  /** Insertion sort; an element that ties with a later one stays before it. */
  function SortBy<T>(s: seq<T>, le: (T, T) -> bool): (r: seq<T>)
    ensures |r| == |s|
    ensures multiset(r) == multiset(s)
  {
    if s == [] then []
    else
      assert s == [s[0]] + s[1..];
      InsertBy(s[0], SortBy(s[1..], le), le)
  }

  lemma {:induction false} InsertBySorted<T(!new)>(x: T, s: seq<T>, le: (T, T) -> bool)
    requires IsTotalPreorder(le) && SortedBy(s, le)
    ensures SortedBy(InsertBy(x, s, le), le)
  {
    if s != [] && !le(x, s[0]) {
      InsertBySorted(x, s[1..], le);
      var r := InsertBy(x, s, le);
      var t := InsertBy(x, s[1..], le);
      assert r == [s[0]] + t;
      forall j | 0 < j < |r| ensures le(s[0], r[j]) {
        assert r[j] in multiset(t);
        assert r[j] in multiset(s[1..]) + multiset{x};
        if r[j] != x {
          var k :| 0 <= k < |s[1..]| && s[1..][k] == r[j];
          assert s[k + 1] == r[j];
        }
      }
    }
  }

  lemma {:induction false} SortBySorted<T(!new)>(s: seq<T>, le: (T, T) -> bool)
    requires IsTotalPreorder(le)
    ensures SortedBy(SortBy(s, le), le)
  {
    if s != [] {
      SortBySorted(s[1..], le);
      InsertBySorted(s[0], SortBy(s[1..], le), le);
    }
  }

  /** Stability: the elements tying with any `y` keep their original relative order. */
  lemma {:induction false} SortByStable<T(!new)>(s: seq<T>, le: (T, T) -> bool, y: T)
    requires IsTotalPreorder(le)
    ensures FilterBy(SortBy(s, le), x => le(x, y) && le(y, x)) == FilterBy(s, x => le(x, y) && le(y, x))
  {
    if s != [] {
      SortByStable(s[1..], le, y);
      InsertByStable(s[0], SortBy(s[1..], le), le, y);
    }
  }

  lemma {:induction false} InsertByStable<T(!new)>(x: T, s: seq<T>, le: (T, T) -> bool, y: T)
    requires IsTotalPreorder(le)
    ensures FilterBy(InsertBy(x, s, le), z => le(z, y) && le(y, z))
         == FilterBy([x], z => le(z, y) && le(y, z)) + FilterBy(s, z => le(z, y) && le(y, z))
  {
    var p := z => le(z, y) && le(y, z);
    if s == [] || le(x, s[0]) {
      assert InsertBy(x, s, le) == [x] + s;
      assert ([x] + s)[1..] == s;
    } else {
      InsertByStable(x, s[1..], le, y);
      var t := InsertBy(x, s[1..], le);
      assert InsertBy(x, s, le) == [s[0]] + t;
      assert ([s[0]] + t)[1..] == t;
      // s[0] comes strictly before x, so the two cannot both tie with y
      assert !(p(x) && p(s[0]));
    }
  }
}
