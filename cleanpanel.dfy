/** `_clean_panel`: order the channels by their mass number, number duplicated names, fill in
    the default `keep`, `ilastik` and `deepcell` columns, and put the standard columns first. */
module CleanPanels {
  import opened Wrappers
  import opened Strings
  import opened Seqs
  import opened Sorting
  import opened Panels

  /** The columns `_clean_panel` moves to the front, in this order. */
  const FrontColumns: seq<string> := ["channel", "name", "keep", "ilastik", "deepcell"]

  /** `pd.to_numeric(channel.str.replace("[^0-9]", "", regex=True))`: the number that the
      channel's digits spell, or nothing (NaN) when it has no digit or is missing. */
  function ChannelKey(r: Row): Option<nat> {
    match At(r, "channel")
    case Text(s) => (var d := DigitsOf(s); if d == [] then None else Some(DecimalValue(d)))
    case _ => None
  }

  /** Ascending, missing keys last, as `sort_values` places NaN. */
  predicate KeyLe(a: Option<nat>, b: Option<nat>) {
    b.None? || (a.Some? && a.value <= b.value)
  }

  function ChannelOrder(): (Row, Row) -> bool {
    (a: Row, b: Row) => KeyLe(ChannelKey(a), ChannelKey(b))
  }

  lemma ChannelOrderIsTotalPreorder()
    ensures IsTotalPreorder(ChannelOrder())
  {
  }

  /** Which rows carry the name `x`. */
  function Matching(names: seq<Cell>, x: Cell): seq<bool> {
    seq(|names|, j requires 0 <= j < |names| => names[j] == x)
  }

  /** The name of row `k` after `.loc[duplicated(keep=False), "name"] += " " + str(cumcount + 1)`:
      a text shared with other rows gets its occurrence number appended; a missing name stays
      missing, since missing plus a suffix is missing. */
  function SuffixedName(names: seq<Cell>, k: nat): Cell
    requires k < |names|
  {
    var same := Matching(names, names[k]);
    if names[k].Text? && CountTrue(same) > 1 then
      Text(names[k].text + " " + NatToDecimal(CountTrue(same[..k]) + 1))
    else names[k]
  }

  function SuffixedNames(names: seq<Cell>): seq<Cell> {
    seq(|names|, k requires 0 <= k < |names| => SuffixedName(names, k))
  }

  /** A name held by one row only, or not a text, is kept; the rows sharing a text are
      numbered `" 1"`, `" 2"`, … in row order, by the ranks of the rows holding that text. */
  lemma SuffixedNamesMeaning(names: seq<Cell>)
    ensures |SuffixedNames(names)| == |names|
    ensures forall k :: 0 <= k < |names| ==>
      var same := Matching(names, names[k]);
      same[k] && CountTrue(same) >= 1 &&
      (!names[k].Text? || CountTrue(same) == 1 ==> SuffixedNames(names)[k] == names[k]) &&
      (names[k].Text? && CountTrue(same) > 1 ==>
         Ranks(same)[k].Count? &&
         SuffixedNames(names)[k] == Text(names[k].text + " " + NatToDecimal(Ranks(same)[k].count)))
  {
    forall k | 0 <= k < |names|
      ensures CountTrue(Matching(names, names[k])) >= 1
    {
      var same := Matching(names, names[k]);
      CountTrueStep(same, k);
      CountTrueGrows(same, k + 1, |same|);
      assert same[..|same|] == same;
    }
  }

  /** Rows that shared a text name end up with different names. */
  lemma SuffixedNamesDisambiguate(names: seq<Cell>, j: nat, k: nat)
    requires j < k < |names| && names[j] == names[k] && names[j].Text?
    ensures SuffixedNames(names)[j] != SuffixedNames(names)[k]
  {
    var same := Matching(names, names[k]);
    SuffixedNamesMeaning(names);
    RanksMeaning(same);
    assert Matching(names, names[j]) == same;
    var a, b := Ranks(same)[j].count, Ranks(same)[k].count;
    var t := names[k].text + " ";
    if NatToDecimal(a) == NatToDecimal(b) {
      DecimalRoundTrip(a);
      DecimalRoundTrip(b);
    }
    assert (t + NatToDecimal(a))[|t|..] == NatToDecimal(a);
    assert (t + NatToDecimal(b))[|t|..] == NatToDecimal(b);
  }

  /** `panel["keep"]` as the mask `.loc` selects by. */
  function KeepMask(rows: seq<Row>): seq<bool> {
    seq(|rows|, k requires 0 <= k < |rows| => At(rows[k], "keep") == Flag(true))
  }

  /** `panel[c] = …` when `c` is absent: a last column with the given cells. */
  function WithDefault(p: Panel, c: string, cells: seq<Cell>): Panel
    requires |cells| == |p.rows|
  {
    if c in p.columns then p else Panel(p.columns + [c], WithColumn(p.rows, c, cells))
  }

  /** The rows sorted by channel key, ties and missing keys in their given order. */
  function SortedRows(p: Panel): seq<Row> {
    SortBy(p.rows, ChannelOrder())
  }

  /** After the sort and the name suffixes. */
  function NamedPanel(p: Panel): Panel {
    var sorted := SortedRows(p);
    Panel(p.columns, WithColumn(sorted, "name", SuffixedNames(Column(sorted, "name"))))
  }

  /** After the three default columns. */
  function Defaulted(p: Panel): Panel {
    var kept := WithDefault(p, "keep", Constant(|p.rows|, Flag(true)));
    var ids := WithDefault(kept, "ilastik", Ranks(KeepMask(kept.rows)));
    WithDefault(ids, "deepcell", Constant(|ids.rows|, Null))
  }

  /** The standard columns that are present, in their order, then the others in theirs. */
  function FrontFirst(cols: seq<string>): seq<string> {
    Present(FrontColumns, cols) + Without(cols, Labels(FrontColumns))
  }

  /** The panel `_clean_panel(p)` returns. */
  function CleanedPanel(p: Panel): Panel {
    var full := Defaulted(NamedPanel(p));
    Panel(FrontFirst(full.columns), full.rows)
  }

  /** Where `panel.loc[panel["keep"], …]` works: the keep column, when it is used as a mask,
      holds flags, or missing values, which the boolean mask reads as not kept. */
  predicate KeepMaskUsable(p: Panel) {
    "keep" in p.columns && "ilastik" !in p.columns ==>
      forall k :: 0 <= k < |p.rows| ==> At(p.rows[k], "keep").Flag? || At(p.rows[k], "keep").Null?
  }

  /** One turn of the column loop: with the columns so far being the moved ones then the rest,
      moving `FrontColumns[i]` to `next` keeps that shape one label further. */
  lemma MoveColumnStep(cols: seq<string>, i: nat, current: seq<string>)
    requires i < |FrontColumns|
    requires current == Present(FrontColumns[..i], cols) + Without(cols, Labels(FrontColumns[..i]))
    ensures var c := FrontColumns[i];
      var done := Present(FrontColumns[..i], cols);
      (c in current <==> c in cols) && c !in done &&
      Present(FrontColumns[..i + 1], cols) == done + (if c in cols then [c] else []) &&
      Labels(FrontColumns[..i + 1]) == Labels(FrontColumns[..i]) + {c} &&
      Without(current, {c}) == done + Without(cols, Labels(FrontColumns[..i + 1]))
  {
    var c := FrontColumns[i];
    var d := Labels(FrontColumns[..i]);
    var done := Present(FrontColumns[..i], cols);
    var rest := Without(cols, d);
    assert c !in FrontColumns[..i];
    assert FrontColumns[..i + 1][..i] == FrontColumns[..i];
    assert Labels(FrontColumns[..i + 1]) == d + {c};
    PresentMembers(FrontColumns[..i], cols);
    WithoutMembers(cols, d);
    WithoutConcat(done, rest, {c});
    WithoutNone(done, {c});
    WithoutAgain(cols, d, c);
  }

  /** The sort, the name suffixes and the default columns, on the frame. */
  method SortAndFill(f: Frame)
    requires f.Valid() && "name" in f.columns
    modifies f
    ensures f.Valid() && f.Value() == Defaulted(NamedPanel(old(f.Value())))
  {
    f.SortRows(ChannelOrder());
    f.SetColumn("name", SuffixedNames(f.ColumnCells("name")));
    if "keep" !in f.columns {
      f.AddColumn("keep", Constant(|f.rows|, Flag(true)));
    }
    if "ilastik" !in f.columns {
      f.AddColumn("ilastik", Ranks(KeepMask(f.rows)));
    }
    if "deepcell" !in f.columns {
      f.AddColumn("deepcell", Constant(|f.rows|, Null));
    }
  }

  /** `column_data = panel[column]`, `panel.drop(columns=[column], inplace=True)`,
      `panel.insert(next, column, column_data)`: one column moved to position `next`. */
  method MoveColumn(f: Frame, column: string, next: nat)
    requires f.Valid() && column in f.columns && next <= |Without(f.columns, {column})|
    modifies f
    ensures f.Valid() && f.rows == old(f.rows)
    ensures f.columns == Without(old(f.columns), {column})[..next] + [column] + Without(old(f.columns), {column})[next..]
  {
    ghost var rows := f.rows;
    var data := f.ColumnCells(column);
    f.DropColumn(column);
    WithoutMembers(old(f.columns), {column});
    f.InsertColumn(next, column, data);
    forall k | 0 <= k < |rows|
      ensures f.rows[k] == rows[k]
    {
      assert column in rows[k];
    }
  }

  /** Columns `cols` with the first `i` standard labels handled: those present moved to the
      front in order, the rest after them as they were. */
  ghost predicate MovedUpTo(columns: seq<string>, cols: seq<string>, i: nat)
    requires i <= |FrontColumns|
  {
    columns == Present(FrontColumns[..i], cols) + Without(cols, Labels(FrontColumns[..i]))
  }

  /** One turn of the loop when the label is present: it goes to position `next`. */
  lemma MoveFrontPresent(cols: seq<string>, i: nat, current: seq<string>, next: nat)
    requires i < |FrontColumns| && MovedUpTo(current, cols, i) && FrontColumns[i] in current
    requires next == |Present(FrontColumns[..i], cols)|
    ensures var c := FrontColumns[i];
      var moved := Without(current, {c});
      next <= |moved| && MovedUpTo(moved[..next] + [c] + moved[next..], cols, i + 1) &&
      next + 1 == |Present(FrontColumns[..i + 1], cols)|
  {
    var c := FrontColumns[i];
    var done := Present(FrontColumns[..i], cols);
    var rest := Without(cols, Labels(FrontColumns[..i + 1]));
    var moved := Without(current, {c});
    assert moved == done + rest && Present(FrontColumns[..i + 1], cols) == done + [c] by {
      MoveColumnStep(cols, i, current);
    }
    assert moved[..next] == done && moved[next..] == rest;
  }

  /** One turn of the loop when the label is absent: nothing moves. */
  lemma MoveFrontAbsent(cols: seq<string>, i: nat, current: seq<string>, next: nat)
    requires i < |FrontColumns| && MovedUpTo(current, cols, i) && FrontColumns[i] !in current
    requires next == |Present(FrontColumns[..i], cols)|
    ensures MovedUpTo(current, cols, i + 1) && next == |Present(FrontColumns[..i + 1], cols)|
  {
    var c := FrontColumns[i];
    assert c !in cols && Present(FrontColumns[..i + 1], cols) == Present(FrontColumns[..i], cols) &&
      Labels(FrontColumns[..i + 1]) == Labels(FrontColumns[..i]) + {c} by {
      MoveColumnStep(cols, i, current);
    }
    WithoutAbsent(cols, Labels(FrontColumns[..i]), c);
  }

  /** One turn of the loop over the standard labels. */
  method MoveFrontColumn(f: Frame, ghost cols: seq<string>, i: nat, next: nat) returns (next': nat)
    requires f.Valid() && i < |FrontColumns| && MovedUpTo(f.columns, cols, i)
    requires next == |Present(FrontColumns[..i], cols)|
    modifies f
    ensures f.Valid() && f.rows == old(f.rows) && MovedUpTo(f.columns, cols, i + 1)
    ensures next' == |Present(FrontColumns[..i + 1], cols)|
  {
    var column := FrontColumns[i];
    if column in f.columns {
      MoveFrontPresent(cols, i, f.columns, next);
      MoveColumn(f, column, next);
      next' := next + 1;
    } else {
      MoveFrontAbsent(cols, i, f.columns, next);
      next' := next;
    }
  }

  /** The loop that drops each standard column present and inserts it again at
      `next_column_index`. */
  method MoveFrontColumns(f: Frame)
    requires f.Valid()
    modifies f
    ensures f.Valid() && f.rows == old(f.rows) && f.columns == FrontFirst(old(f.columns))
  {
    ghost var cols := f.columns;
    WithoutNone(cols, {});
    assert FrontColumns[..0] == [] && Labels([]) == {};
    var next := 0;
    for i := 0 to |FrontColumns|
      invariant f.Valid() && f.rows == old(f.rows) && MovedUpTo(f.columns, cols, i)
      invariant next == |Present(FrontColumns[..i], cols)|
    {
      next := MoveFrontColumn(f, cols, i, next);
    }
    assert FrontColumns[..|FrontColumns|] == FrontColumns;
  }

  /** `_clean_panel` on the frame it is given. */
  method CleanPanel(f: Frame)
    requires f.Valid() && "channel" in f.columns && "name" in f.columns && KeepMaskUsable(f.Value())
    modifies f
    ensures f.Valid() && f.Value() == CleanedPanel(old(f.Value()))
  {
    SortAndFill(f);
    MoveFrontColumns(f);
  }

  /** What the default columns add: `keep` true, `ilastik` numbering the kept rows, an empty
      `deepcell`, each only where absent; every other cell as it was. */
  lemma DefaultedCells(p: Panel)
    ensures |Defaulted(p).rows| == |p.rows|
    ensures forall k, c :: 0 <= k < |p.rows| && (c in p.columns || c !in ["keep", "ilastik", "deepcell"]) ==>
      At(Defaulted(p).rows[k], c) == At(p.rows[k], c)
    ensures "keep" !in p.columns ==> forall k :: 0 <= k < |p.rows| ==> At(Defaulted(p).rows[k], "keep") == Flag(true)
    ensures "ilastik" !in p.columns ==> forall k :: 0 <= k < |p.rows| ==>
      At(Defaulted(p).rows[k], "ilastik") == Ranks(KeepMask(Defaulted(p).rows))[k]
    ensures "deepcell" !in p.columns ==> forall k :: 0 <= k < |p.rows| ==> At(Defaulted(p).rows[k], "deepcell") == Null
  {
    var kept := WithDefault(p, "keep", Constant(|p.rows|, Flag(true)));
    var ids := WithDefault(kept, "ilastik", Ranks(KeepMask(kept.rows)));
    assert KeepMask(Defaulted(p).rows) == KeepMask(kept.rows);
  }

  /** One default column: its label is added, the others kept. */
  lemma WithDefaultColumns(p: Panel, c: string, cells: seq<Cell>)
    requires c in FrontColumns && |cells| == |p.rows|
    ensures c in WithDefault(p, c, cells).columns
    ensures forall x :: x in p.columns ==> x in WithDefault(p, c, cells).columns
    ensures Without(WithDefault(p, c, cells).columns, Labels(FrontColumns)) == Without(p.columns, Labels(FrontColumns))
    ensures Labels(WithDefault(p, c, cells).columns) == Labels(p.columns) + {c}
    ensures WellFormed(p) ==> WellFormed(WithDefault(p, c, cells))
  {
    if c !in p.columns {
      WithoutConcat(p.columns, [c], Labels(FrontColumns));
      assert Labels(p.columns + [c]) == Labels(p.columns) + {c};
      if WellFormed(p) {
        AddColumnWellFormed(p, c, cells);
      }
    }
  }

  /** The labels the default columns end with. */
  lemma DefaultedColumns(p: Panel)
    ensures forall x :: x in FrontColumns[2..] ==> x in Defaulted(p).columns
    ensures forall x :: x in p.columns ==> x in Defaulted(p).columns
    ensures Without(Defaulted(p).columns, Labels(FrontColumns)) == Without(p.columns, Labels(FrontColumns))
    ensures Labels(Defaulted(p).columns) == Labels(p.columns) + {"keep", "ilastik", "deepcell"}
    ensures WellFormed(p) ==> WellFormed(Defaulted(p))
  {
    var kept := WithDefault(p, "keep", Constant(|p.rows|, Flag(true)));
    var ids := WithDefault(kept, "ilastik", Ranks(KeepMask(kept.rows)));
    WithDefaultColumns(p, "keep", Constant(|p.rows|, Flag(true)));
    WithDefaultColumns(kept, "ilastik", Ranks(KeepMask(kept.rows)));
    WithDefaultColumns(ids, "deepcell", Constant(|ids.rows|, Null));
  }

  /** The sorted rows with their names suffixed, nothing else changed. */
  lemma NamedCells(p: Panel)
    ensures NamedPanel(p).columns == p.columns && |NamedPanel(p).rows| == |p.rows|
    ensures forall k, c :: 0 <= k < |p.rows| && c != "name" ==> At(NamedPanel(p).rows[k], c) == At(SortedRows(p)[k], c)
    ensures forall k :: 0 <= k < |p.rows| ==>
      At(NamedPanel(p).rows[k], "name") == SuffixedNames(Column(SortedRows(p), "name"))[k]
  {
  }

  /** Every step after the sort only writes `name`, `keep`, `ilastik` and `deepcell`, and the
      last three only where they were absent. */
  lemma CleanedRowsFromSorted(p: Panel)
    ensures |CleanedPanel(p).rows| == |p.rows|
    ensures CleanedPanel(p).rows == Defaulted(NamedPanel(p)).rows
    ensures forall k, c :: 0 <= k < |p.rows| && c != "name" && (c in p.columns || c !in ["keep", "ilastik", "deepcell"]) ==>
      At(CleanedPanel(p).rows[k], c) == At(SortedRows(p)[k], c)
    ensures forall k :: 0 <= k < |p.rows| ==>
      At(CleanedPanel(p).rows[k], "name") == SuffixedNames(Column(SortedRows(p), "name"))[k]
  {
    NamedCells(p);
    DefaultedCells(NamedPanel(p));
  }

  /** The rows come out in the order of their channel keys, missing keys last. */
  lemma CleanedPanelSorted(p: Panel)
    ensures forall i, j :: 0 <= i < j < |CleanedPanel(p).rows| ==>
      KeyLe(ChannelKey(CleanedPanel(p).rows[i]), ChannelKey(CleanedPanel(p).rows[j]))
  {
    ChannelOrderIsTotalPreorder();
    SortBySorted(p.rows, ChannelOrder());
    CleanedRowsFromSorted(p);
    var q := CleanedPanel(p);
    var s := SortedRows(p);
    forall i, j | 0 <= i < j < |q.rows|
      ensures KeyLe(ChannelKey(q.rows[i]), ChannelKey(q.rows[j]))
    {
      assert At(q.rows[i], "channel") == At(s[i], "channel");
      assert At(q.rows[j], "channel") == At(s[j], "channel");
      assert ChannelOrder()(s[i], s[j]);
    }
  }

  /** The rows are the given ones rearranged, each with only its name and the added standard
      columns changed. */
  lemma CleanedPanelRows(p: Panel)
    ensures |CleanedPanel(p).rows| == |p.rows|
    ensures multiset(SortedRows(p)) == multiset(p.rows)
    ensures forall k, c :: 0 <= k < |p.rows| && c in p.columns && c != "name" ==>
      At(CleanedPanel(p).rows[k], c) == At(SortedRows(p)[k], c)
  {
    CleanedRowsFromSorted(p);
  }

  /** A name no other row shares is kept; rows sharing a name get distinct names carrying
      their occurrence numbers 1, 2, … in the sorted order. */
  lemma CleanedPanelNames(p: Panel)
    ensures forall k :: 0 <= k < |p.rows| ==>
      var names := Column(SortedRows(p), "name");
      var same := Matching(names, names[k]);
      ((!names[k].Text? || CountTrue(same) == 1) ==> At(CleanedPanel(p).rows[k], "name") == names[k]) &&
      (names[k].Text? && CountTrue(same) > 1 ==>
         Ranks(same)[k].Count? && 1 <= Ranks(same)[k].count <= CountTrue(same) &&
         At(CleanedPanel(p).rows[k], "name") == Text(names[k].text + " " + NatToDecimal(Ranks(same)[k].count)))
    ensures forall j, k ::
      (0 <= j < k < |p.rows| && At(SortedRows(p)[j], "name") == At(SortedRows(p)[k], "name") &&
       At(SortedRows(p)[j], "name").Text?) ==>
      At(CleanedPanel(p).rows[j], "name") != At(CleanedPanel(p).rows[k], "name")
  {
    CleanedRowsFromSorted(p);
    var names := Column(SortedRows(p), "name");
    SuffixedNamesMeaning(names);
    forall k | 0 <= k < |p.rows|
      ensures names[k].Text? && CountTrue(Matching(names, names[k])) > 1 ==>
        1 <= Ranks(Matching(names, names[k]))[k].count <= CountTrue(Matching(names, names[k]))
    {
      RanksMeaning(Matching(names, names[k]));
    }
    forall j, k | 0 <= j < k < |p.rows| && names[j] == names[k] && names[j].Text?
      ensures At(CleanedPanel(p).rows[j], "name") != At(CleanedPanel(p).rows[k], "name")
    {
      SuffixedNamesDisambiguate(names, j, k);
    }
  }

  lemma {:induction false} CountTrueAll(mask: seq<bool>)
    requires forall k :: 0 <= k < |mask| ==> mask[k]
    ensures CountTrue(mask) == |mask|
  {
    if mask != [] {
      CountTrueAll(mask[..|mask| - 1]);
    }
  }

  /** The defaults: `keep` true everywhere, `ilastik` numbering the kept rows 1, 2, … (every row
      when `keep` was absent too), and an empty `deepcell`, each only where it was absent. */
  lemma CleanedPanelDefaults(p: Panel)
    ensures "keep" !in p.columns ==> forall k :: 0 <= k < |p.rows| ==> At(CleanedPanel(p).rows[k], "keep") == Flag(true)
    ensures "ilastik" !in p.columns ==> forall k :: 0 <= k < |p.rows| ==>
      At(CleanedPanel(p).rows[k], "ilastik") == Ranks(KeepMask(CleanedPanel(p).rows))[k]
    ensures "keep" !in p.columns && "ilastik" !in p.columns ==>
      forall k :: 0 <= k < |p.rows| ==> At(CleanedPanel(p).rows[k], "ilastik") == Count(k + 1)
    ensures "deepcell" !in p.columns ==> forall k :: 0 <= k < |p.rows| ==> At(CleanedPanel(p).rows[k], "deepcell") == Null
  {
    NamedCells(p);
    DefaultedCells(NamedPanel(p));
    CleanedRowsFromSorted(p);
    var rows := CleanedPanel(p).rows;
    if "keep" !in p.columns && "ilastik" !in p.columns {
      forall k | 0 <= k < |p.rows|
        ensures At(rows[k], "ilastik") == Count(k + 1)
      {
        CountTrueAll(KeepMask(rows)[..k]);
      }
    }
  }

  /** The standard columns come first, in their order, then the others as they were. */
  lemma CleanedPanelColumns(p: Panel)
    requires "channel" in p.columns && "name" in p.columns
    ensures CleanedPanel(p).columns == FrontColumns + Without(p.columns, Labels(FrontColumns))
  {
    NamedCells(p);
    DefaultedColumns(NamedPanel(p));
    var full := Defaulted(NamedPanel(p));
    assert forall x :: x in FrontColumns ==> x in full.columns;
    PresentAll(FrontColumns, full.columns);
  }

  lemma NamedPanelWellFormed(p: Panel)
    requires WellFormed(p) && "name" in p.columns
    ensures WellFormed(NamedPanel(p))
  {
    var sorted := SortedRows(p);
    forall k | 0 <= k < |sorted|
      ensures sorted[k].Keys == Labels(p.columns)
    {
      assert sorted[k] in multiset(p.rows);
      var j :| 0 <= j < |p.rows| && p.rows[j] == sorted[k];
    }
  }

  /** Moving the standard labels to the front when all are there only reorders the labels. */
  lemma FrontFirstReorders(cols: seq<string>)
    requires NoDuplicates(cols) && forall x :: x in FrontColumns ==> x in cols
    ensures NoDuplicates(FrontFirst(cols)) && Labels(FrontFirst(cols)) == Labels(cols)
  {
    PresentAll(FrontColumns, cols);
    var rest := Without(cols, Labels(FrontColumns));
    WithoutMembers(cols, Labels(FrontColumns));
    WithoutNoDuplicates(cols, Labels(FrontColumns));
    var front := FrontFirst(cols);
    assert front == FrontColumns + rest;
    forall a, b | 0 <= a < b < |front|
      ensures front[a] != front[b]
    {
      if b >= |FrontColumns| {
        assert front[b] == rest[b - |FrontColumns|] && front[b] in rest;
        if a >= |FrontColumns| {
          assert front[a] == rest[a - |FrontColumns|];
        } else {
          assert front[a] == FrontColumns[a] && front[a] in Labels(FrontColumns);
        }
      }
    }
  }

  /** A well-formed panel stays well formed: distinct labels, a cell for each in every row. */
  lemma CleanedPanelWellFormed(p: Panel)
    requires WellFormed(p) && "channel" in p.columns && "name" in p.columns
    ensures WellFormed(CleanedPanel(p))
  {
    NamedPanelWellFormed(p);
    NamedCells(p);
    DefaultedColumns(NamedPanel(p));
    var full := Defaulted(NamedPanel(p));
    assert forall x :: x in FrontColumns ==> x in full.columns;
    FrontFirstReorders(full.columns);
  }
}
