/** pandas data frames as the panel code builds and changes them: labelled columns, rows of
    cells, and the in-place operations `_clean_panel` and the IMC panel merge apply. */
module Panels {
  import opened Wrappers
  import opened Seqs
  import opened Sorting

  /** A panel cell: pandas' missing value, a string, a boolean, or an unsigned integer. */
  datatype Cell = Null | Text(text: string) | Flag(flag: bool) | Count(count: nat)

  /** A row: the cell under each column label. */
  type Row = map<string, Cell>

  /** A data frame: its column labels in order and its rows in order. */
  datatype Panel = Panel(columns: seq<string>, rows: seq<Row>)

  /** Why building a panel raises. */
  datatype PanelError =
    | MissingColumn(column: string)
    | MissingValues(column: string)
    | KeyError(key: string)
    | Unreadable(file: string)
    | NothingToConcatenate

  function Labels(s: seq<string>): set<string> {
    set c | c in s
  }

  /** The column labels are distinct and every row has a cell under exactly those labels. */
  predicate WellFormed(p: Panel) {
    NoDuplicates(p.columns) && forall k :: 0 <= k < |p.rows| ==> p.rows[k].Keys == Labels(p.columns)
  }

  /** The cell of a row under a label; missing when the row has none. */
  function At(r: Row, c: string): Cell {
    if c in r then r[c] else Null
  }

  /** `df[c]`: a column's cells in row order. */
  function Column(rows: seq<Row>, c: string): seq<Cell> {
    seq(|rows|, k requires 0 <= k < |rows| => At(rows[k], c))
  }

  /** Every row with its cell under `c` set to the matching entry of `cells`. */
  function WithColumn(rows: seq<Row>, c: string, cells: seq<Cell>): seq<Row>
    requires |cells| == |rows|
  {
    seq(|rows|, k requires 0 <= k < |rows| => rows[k][c := cells[k]])
  }

  function Constant(n: nat, v: Cell): seq<Cell> {
    seq(n, _ => v)
  }

  lemma WithColumnWellFormed(p: Panel, c: string, cells: seq<Cell>)
    requires WellFormed(p) && c in p.columns && |cells| == |p.rows|
    ensures WellFormed(Panel(p.columns, WithColumn(p.rows, c, cells)))
  {
  }

  lemma AddColumnWellFormed(p: Panel, c: string, cells: seq<Cell>)
    requires WellFormed(p) && c !in p.columns && |cells| == |p.rows|
    ensures WellFormed(Panel(p.columns + [c], WithColumn(p.rows, c, cells)))
  {
    assert Labels(p.columns + [c]) == Labels(p.columns) + {c};
  }

  /** The labels of `s` that are not in `d`, in order: what `drop(columns=…)` keeps. */
  function Without(s: seq<string>, d: set<string>): seq<string> {
    if s == [] then [] else (if s[0] in d then [] else [s[0]]) + Without(s[1..], d)
  }

  lemma {:induction false} WithoutMembers(s: seq<string>, d: set<string>)
    ensures forall x :: x in Without(s, d) <==> x in s && x !in d
  {
    if s != [] {
      WithoutMembers(s[1..], d);
      assert s == [s[0]] + s[1..];
    }
  }

  lemma {:induction false} WithoutNoDuplicates(s: seq<string>, d: set<string>)
    requires NoDuplicates(s)
    ensures NoDuplicates(Without(s, d))
  {
    if s != [] {
      WithoutNoDuplicates(s[1..], d);
      WithoutMembers(s[1..], d);
      var w := Without(s[1..], d);
      if s[0] !in d {
        assert s[0] !in s[1..] by {
          forall j | 0 <= j < |s[1..]|
            ensures s[1..][j] != s[0]
          {
            assert s[1..][j] == s[j + 1];
          }
        }
        assert Without(s, d) == [s[0]] + w;
      } else {
        assert Without(s, d) == w;
      }
    }
  }

  lemma {:induction false} WithoutConcat(a: seq<string>, b: seq<string>, d: set<string>)
    ensures Without(a + b, d) == Without(a, d) + Without(b, d)
  {
    if a != [] {
      WithoutConcat(a[1..], b, d);
      assert (a + b)[1..] == a[1..] + b;
    } else {
      assert a + b == b;
    }
  }

  /** Nothing to drop leaves the labels as they are. */
  lemma {:induction false} WithoutNone(s: seq<string>, d: set<string>)
    requires forall x :: x in s ==> x !in d
    ensures Without(s, d) == s
  {
    if s != [] {
      WithoutNone(s[1..], d);
      assert s == [s[0]] + s[1..];
    }
  }

  /** Dropping `x` after dropping `d` is dropping `d` and `x` together. */
  lemma {:induction false} WithoutAgain(s: seq<string>, d: set<string>, x: string)
    ensures Without(Without(s, d), {x}) == Without(s, d + {x})
  {
    if s != [] {
      WithoutAgain(s[1..], d, x);
      var w := Without(s[1..], d);
      if s[0] in d {
        assert Without(s, d) == w;
      } else {
        assert Without(s, d) == [s[0]] + w;
        assert ([s[0]] + w)[1..] == w;
      }
    }
  }

  /** Dropping a label that is not there changes nothing. */
  lemma {:induction false} WithoutAbsent(s: seq<string>, d: set<string>, x: string)
    requires x !in s
    ensures Without(s, d + {x}) == Without(s, d)
  {
    if s != [] {
      assert s[0] != x;
      assert x !in s[1..];
      WithoutAbsent(s[1..], d, x);
    }
  }

  /** The labels of `order` that occur in `cols`, in the order of `order`. */
  function Present(order: seq<string>, cols: seq<string>): seq<string> {
    if order == [] then []
    else
      var last := order[|order| - 1];
      Present(order[..|order| - 1], cols) + (if last in cols then [last] else [])
  }

  lemma {:induction false} PresentMembers(order: seq<string>, cols: seq<string>)
    ensures forall x :: x in Present(order, cols) ==> x in order && x in cols
  {
    if order != [] {
      var init := order[..|order| - 1];
      PresentMembers(init, cols);
      assert forall x :: x in init ==> x in order;
    }
  }

  /** When every label of `order` occurs, they all come out. */
  lemma {:induction false} PresentAll(order: seq<string>, cols: seq<string>)
    requires forall x :: x in order ==> x in cols
    ensures Present(order, cols) == order
  {
    if order != [] {
      var init := order[..|order| - 1];
      assert forall x :: x in init ==> x in order;
      PresentAll(init, cols);
      assert order == init + [order[|order| - 1]];
    }
  }

  /** The number of selected rows. */
  function CountTrue(mask: seq<bool>): nat {
    if mask == [] then 0
    else CountTrue(mask[..|mask| - 1]) + (if mask[|mask| - 1] then 1 else 0)
  }

  /** `df.loc[mask, c] = range(1, mask.sum() + 1)` on an empty column: the selected rows get
      1, 2, … in row order, the others stay missing. */
  function Ranks(mask: seq<bool>): seq<Cell> {
    seq(|mask|, k requires 0 <= k < |mask| => if mask[k] then Count(CountTrue(mask[..k]) + 1) else Null)
  }

  lemma {:induction false} CountTrueStep(mask: seq<bool>, k: nat)
    requires k < |mask|
    ensures CountTrue(mask[..k + 1]) == CountTrue(mask[..k]) + (if mask[k] then 1 else 0)
  {
    assert mask[..k + 1][..k] == mask[..k];
  }

  lemma {:induction false} CountTrueGrows(mask: seq<bool>, j: nat, k: nat)
    requires j <= k <= |mask|
    ensures CountTrue(mask[..j]) <= CountTrue(mask[..k])
    decreases k - j
  {
    if j < k {
      CountTrueGrows(mask, j + 1, k);
      CountTrueStep(mask, j);
    }
  }

  /** Some row up to `k` is the `n`-th selected one. */
  lemma {:induction false} RankWitness(mask: seq<bool>, k: nat, n: nat) returns (i: nat)
    requires k <= |mask| && 1 <= n <= CountTrue(mask[..k])
    ensures i < k && mask[i] && CountTrue(mask[..i]) + 1 == n
  {
    assert k > 0;
    CountTrueStep(mask, k - 1);
    if mask[k - 1] && CountTrue(mask[..k - 1]) + 1 == n {
      i := k - 1;
    } else {
      i := RankWitness(mask, k - 1, n);
    }
  }

  /** The selected rows are numbered exactly 1 … (how many there are), increasing in row
      order; the other rows are missing. */
  lemma RanksMeaning(mask: seq<bool>)
    ensures |Ranks(mask)| == |mask|
    ensures forall k :: 0 <= k < |mask| ==> (Ranks(mask)[k].Count? <==> mask[k]) && (Ranks(mask)[k].Null? <==> !mask[k])
    ensures forall k :: 0 <= k < |mask| && mask[k] ==> 1 <= Ranks(mask)[k].count <= CountTrue(mask)
    ensures forall j, k :: 0 <= j < k < |mask| && mask[j] && mask[k] ==> Ranks(mask)[j].count < Ranks(mask)[k].count
    ensures forall n :: 1 <= n <= CountTrue(mask) ==> Count(n) in Ranks(mask)
  {
    RanksBounded(mask);
    RanksIncreasing(mask);
    forall n | 1 <= n <= CountTrue(mask)
      ensures Count(n) in Ranks(mask)
    {
      var k := RankOf(mask, n);
    }
  }

  lemma RanksBounded(mask: seq<bool>)
    ensures forall k :: 0 <= k < |mask| && mask[k] ==> 1 <= Ranks(mask)[k].count <= CountTrue(mask)
  {
    forall k | 0 <= k < |mask| && mask[k]
      ensures 1 <= Ranks(mask)[k].count <= CountTrue(mask)
    {
      CountTrueStep(mask, k);
      CountTrueGrows(mask, k + 1, |mask|);
      assert mask[..|mask|] == mask;
    }
  }

  lemma RanksIncreasing(mask: seq<bool>)
    ensures forall j, k :: 0 <= j < k < |mask| && mask[j] && mask[k] ==> Ranks(mask)[j].count < Ranks(mask)[k].count
  {
    forall j, k | 0 <= j < k < |mask| && mask[j] && mask[k]
      ensures Ranks(mask)[j].count < Ranks(mask)[k].count
    {
      CountTrueStep(mask, j);
      CountTrueGrows(mask, j + 1, k);
    }
  }

  /** The row numbered `n`. */
  lemma RankOf(mask: seq<bool>, n: nat) returns (k: nat)
    requires 1 <= n <= CountTrue(mask)
    ensures k < |mask| && Ranks(mask)[k] == Count(n)
  {
    assert mask[..|mask|] == mask;
    k := RankWitness(mask, |mask|, n);
  }

  /** A data frame the code changes in place. */
  class Frame {
    var columns: seq<string>
    var rows: seq<Row>

    function Value(): Panel
      reads this
    {
      Panel(columns, rows)
    }

    predicate Valid()
      reads this
    {
      WellFormed(Value())
    }

    constructor (p: Panel)
      requires WellFormed(p)
      ensures Valid() && Value() == p
    {
      columns := p.columns;
      rows := p.rows;
    }

    /** `df[c]`. */
    function ColumnCells(c: string): seq<Cell>
      reads this
    {
      Column(rows, c)
    }

    /** `df.sort_values(…, inplace=True)`, rows ordered by `le`. */
    method SortRows(le: (Row, Row) -> bool)
      requires Valid()
      modifies this
      ensures Valid() && columns == old(columns) && rows == SortBy(old(rows), le)
    {
      var sorted := SortBy(rows, le);
      forall k | 0 <= k < |sorted|
        ensures sorted[k].Keys == Labels(columns)
      {
        assert sorted[k] in multiset(rows);
        var j :| 0 <= j < |rows| && rows[j] == sorted[k];
      }
      rows := sorted;
    }

    /** `df[c] = cells` for a label not yet present: the column is added last. */
    method AddColumn(c: string, cells: seq<Cell>)
      requires Valid() && c !in columns && |cells| == |rows|
      modifies this
      ensures Valid() && columns == old(columns) + [c] && rows == WithColumn(old(rows), c, cells)
    {
      AddColumnWellFormed(Value(), c, cells);
      columns, rows := columns + [c], WithColumn(rows, c, cells);
    }

    /** `df[c] = cells` for a label already present: the column keeps its place. */
    method SetColumn(c: string, cells: seq<Cell>)
      requires Valid() && c in columns && |cells| == |rows|
      modifies this
      ensures Valid() && columns == old(columns) && rows == WithColumn(old(rows), c, cells)
    {
      WithColumnWellFormed(Value(), c, cells);
      rows := WithColumn(rows, c, cells);
    }

    /** `df.loc[mask, c] = v`: the selected rows get `v` under `c`, the others keep theirs. */
    method SetCells(mask: seq<bool>, c: string, v: Cell)
      requires Valid() && c in columns && |mask| == |rows|
      modifies this
      ensures Valid() && columns == old(columns)
      ensures |rows| == |old(rows)|
      ensures forall k :: 0 <= k < |rows| ==> rows[k] == if mask[k] then old(rows)[k][c := v] else old(rows)[k]
    {
      var rs := rows;
      assert forall k :: 0 <= k < |rs| ==> c in rs[k];
      var cells := seq(|rs|, k requires 0 <= k < |rs| => if mask[k] then v else rs[k][c]);
      WithColumnWellFormed(Value(), c, cells);
      forall k | 0 <= k < |rs| && !mask[k]
        ensures rs[k][c := cells[k]] == rs[k]
      {
      }
      rows := WithColumn(rs, c, cells);
    }

    /** `df.drop(columns=[c], inplace=True)`. */
    method DropColumn(c: string)
      requires Valid()
      modifies this
      ensures Valid() && columns == Without(old(columns), {c})
      ensures |rows| == |old(rows)| && forall k :: 0 <= k < |rows| ==> rows[k] == old(rows)[k] - {c}
    {
      WithoutMembers(columns, {c});
      WithoutNoDuplicates(columns, {c});
      var rs := rows;
      var cols := Without(columns, {c});
      assert Labels(cols) == Labels(columns) - {c};
      columns, rows := cols, seq(|rs|, k requires 0 <= k < |rs| => rs[k] - {c});
    }

    /** `df.insert(i, c, cells)`: a new column at position `i`. */
    method InsertColumn(i: nat, c: string, cells: seq<Cell>)
      requires Valid() && c !in columns && i <= |columns| && |cells| == |rows|
      modifies this
      ensures Valid() && columns == old(columns)[..i] + [c] + old(columns)[i..]
      ensures rows == WithColumn(old(rows), c, cells)
    {
      var cols := columns[..i] + [c] + columns[i..];
      assert columns == columns[..i] + columns[i..];
      assert Labels(cols) == Labels(columns) + {c};
      forall a, b | 0 <= a < b < |cols|
        ensures cols[a] != cols[b]
      {
        if a < i && b > i {
          assert cols[b] == columns[b - 1];
        } else if a > i {
          assert cols[a] == columns[a - 1] && cols[b] == columns[b - 1];
        }
      }
      columns, rows := cols, WithColumn(rows, c, cells);
    }
  }
}
