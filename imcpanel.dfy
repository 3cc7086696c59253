/** `create_panel_from_imc_panel` from the parsed table on: check the required columns and
    values, rename the columns, merge the rows of each channel, keep one row per channel,
    clean, and number the ilastik channels. */
module ImcPanels {
  import opened Wrappers
  import opened Strings
  import opened Seqs
  import opened Sorting
  import opened Panels
  import opened CleanPanels

  /** The labels the caller gives for the channel, name, keep and ilastik columns. */
  datatype ImcColumns = ImcColumns(channel: string, name: string, keep: string, ilastik: string)

  /** The four labels differ. `rename_columns` and the `dtype` mapping are dict literals, so a
      label given for two roles would be a single key serving one role only. */
  predicate Distinguished(cols: ImcColumns) {
    cols.channel != cols.name && cols.channel != cols.keep && cols.channel != cols.ilastik &&
    cols.name != cols.keep && cols.name != cols.ilastik && cols.keep != cols.ilastik
  }

  predicate HasMissing(t: Panel, c: string) {
    exists k :: 0 <= k < |t.rows| && At(t.rows[k], c).Null?
  }

  /** The checks on the parsed table, in the order the code makes them. */
  function ImcPanelCheck(t: Panel, cols: ImcColumns): Option<PanelError> {
    if cols.channel !in t.columns then Some(MissingColumn(cols.channel))
    else if cols.name !in t.columns then Some(MissingColumn(cols.name))
    else if HasMissing(t, cols.channel) then Some(MissingValues(cols.channel))
    else if cols.keep in t.columns && HasMissing(t, cols.keep) then Some(MissingValues(cols.keep))
    else if cols.ilastik in t.columns && HasMissing(t, cols.ilastik) then Some(MissingValues(cols.ilastik))
    else None
  }

  /** `rename_columns`; a key written twice keeps its last value, as in a Python dict. */
  function RenameMap(cols: ImcColumns): map<string, string> {
    map[cols.channel := "channel"][cols.name := "name"][cols.keep := "keep"][cols.ilastik := "ilastik"]
  }

  /** `drop_columns`: each standard label that already labels a column other than its source. */
  function DropLabels(t: Panel, cols: ImcColumns): set<string> {
    var m := RenameMap(cols);
    set s | s in m.Keys && m[s] in t.columns && m[s] != s :: m[s]
  }

  /** The label a column has after `rename`. */
  function NewLabel(cols: ImcColumns, c: string): string {
    var m := RenameMap(cols);
    if c in m then m[c] else c
  }

  /** The label a column had before `rename`. */
  function SourceLabel(cols: ImcColumns, l: string): string {
    if l == "channel" then cols.channel
    else if l == "name" then cols.name
    else if l == "keep" then cols.keep
    else if l == "ilastik" then cols.ilastik
    else l
  }

  /** `imc_panel.drop(columns=drop_columns).rename(columns=rename_columns)`. */
  function Renamed(t: Panel, cols: ImcColumns): Panel {
    var kept := Without(t.columns, DropLabels(t, cols));
    var labels := seq(|kept|, i requires 0 <= i < |kept| => NewLabel(cols, kept[i]));
    Panel(labels, seq(|t.rows|, k requires 0 <= k < |t.rows| =>
      map l | l in labels :: At(t.rows[k], SourceLabel(cols, l))))
  }

  /** The rows of one channel: a group of `groupby("channel")`. */
  function Group(rows: seq<Row>, key: Cell): seq<Row> {
    if rows == [] then []
    else (if At(rows[0], "channel") == key then [rows[0]] else []) + Group(rows[1..], key)
  }

  /** `g["name"].dropna()`. */
  function NamesOf(g: seq<Row>): seq<string> {
    if g == [] then []
    else (if At(g[0], "name").Text? then [At(g[0], "name").text] else []) + NamesOf(g[1..])
  }

  /** `" / ".join(g["name"].dropna().unique())`. */
  function MergedName(g: seq<Row>): Cell {
    Text(Join(Distinct(NamesOf(g)), " / "))
  }

  /** `g[c].any()`. */
  function AnyTrue(g: seq<Row>, c: string): Cell {
    Flag(exists i :: 0 <= i < |g| && At(g[i], c) == Flag(true))
  }

  /** What the loop body writes into a row of the group `key`. */
  function Merge(p: Panel, key: Cell, r: Row): Row {
    var g := Group(p.rows, key);
    var named := r["name" := MergedName(g)];
    var kept := if "keep" in p.columns then named["keep" := AnyTrue(g, "keep")] else named;
    if "ilastik" in p.columns then kept["ilastik" := AnyTrue(g, "ilastik")] else kept
  }

  /** The panel after the loop over the channel groups. */
  function MergedGroups(p: Panel): Panel {
    Panel(p.columns, seq(|p.rows|, k requires 0 <= k < |p.rows| => Merge(p, At(p.rows[k], "channel"), p.rows[k])))
  }

  function TextOf(c: Cell): string {
    if c.Text? then c.text else ""
  }

  /** Group keys in ascending string order, as `groupby` sorts them. */
  function ChannelTextOrder(): (Cell, Cell) -> bool {
    (a: Cell, b: Cell) => LexLe(TextOf(a), TextOf(b))
  }

  /** The channels in the order `groupby` visits them. */
  function GroupKeys(channels: seq<Cell>): seq<Cell> {
    SortBy(Distinct(channels), ChannelTextOrder())
  }

  /** `first`: the first cell that is not missing, or missing if there is none. */
  function FirstNonNull(cells: seq<Cell>): Cell {
    if cells == [] then Null
    else if !cells[0].Null? then cells[0]
    else FirstNonNull(cells[1..])
  }

  /** `panel.groupby(panel["channel"].values).aggregate("first")`: one row per channel, in
      the order of the group keys, each cell the first non-missing one of its group. */
  function Aggregated(p: Panel): Panel {
    var keys := GroupKeys(Column(p.rows, "channel"));
    Panel(p.columns, seq(|keys|, i requires 0 <= i < |keys| =>
      map c | c in p.columns :: FirstNonNull(Column(Group(p.rows, keys[i]), c))))
  }

  /** `panel["ilastik"].fillna(False).astype(bool)` for one cell. */
  function Truthy(c: Cell): bool {
    match c
    case Null => false
    case Flag(b) => b
    case Count(n) => n != 0
    case Text(s) => s != ""
  }

  function IlastikMask(rows: seq<Row>): seq<bool> {
    seq(|rows|, k requires 0 <= k < |rows| => Truthy(At(rows[k], "ilastik")))
  }

  /** The emptied `ilastik` column, then 1, 2, … on the rows whose old value was true. */
  function Renumbered(p: Panel): Panel {
    Panel(p.columns, WithColumn(p.rows, "ilastik", Ranks(IlastikMask(p.rows))))
  }

  /** What `create_panel_from_imc_panel` returns or raises for the parsed table `t`. */
  function ImcPanel(t: Panel, cols: ImcColumns): Result<Panel, PanelError> {
    match ImcPanelCheck(t, cols)
    case Some(e) => Err(e)
    case None =>
      var renamed := Renamed(t, cols);
      if "channel" !in renamed.columns then Err(KeyError("channel"))
      else if "name" !in renamed.columns then Err(KeyError("name"))
      else Ok(Renumbered(CleanedPanel(Aggregated(MergedGroups(renamed)))))
  }

  lemma ChannelTextOrderIsTotalPreorder()
    ensures IsTotalPreorder(ChannelTextOrder())
  {
    forall a: Cell, b: Cell
      ensures LexLe(TextOf(a), TextOf(b)) || LexLe(TextOf(b), TextOf(a))
    {
      LexLeTotal(TextOf(a), TextOf(b));
    }
    forall a: Cell, b: Cell, c: Cell | LexLe(TextOf(a), TextOf(b)) && LexLe(TextOf(b), TextOf(c))
      ensures LexLe(TextOf(a), TextOf(c))
    {
      LexLeTransitive(TextOf(a), TextOf(b), TextOf(c));
    }
  }

  /** The renamed labels are distinct, and each row has a cell under each. */
  lemma RenamedWellFormed(t: Panel, cols: ImcColumns)
    requires NoDuplicates(t.columns)
    ensures WellFormed(Renamed(t, cols))
  {
    var d := DropLabels(t, cols);
    var kept := Without(t.columns, d);
    var u := Renamed(t, cols);
    WithoutMembers(t.columns, d);
    WithoutNoDuplicates(t.columns, d);
    var m := RenameMap(cols);
    forall i, j | 0 <= i < j < |kept|
      ensures NewLabel(cols, kept[i]) != NewLabel(cols, kept[j])
    {
      var a, b := kept[i], kept[j];
      assert a in kept && b in kept;
      assert a != b;
      if a in m && b !in m {
        assert m[a] in t.columns ==> m[a] in d || m[a] == a;
      } else if b in m && a !in m {
        assert m[b] in t.columns ==> m[b] in d || m[b] == b;
      }
    }
    assert Labels(u.columns) == set l | l in u.columns;
  }

  /** The rows of the channels in `done` hold their group's values; the others are as before. */
  ghost predicate MergedUpTo(rows: seq<Row>, p: Panel, done: set<Cell>) {
    |rows| == |p.rows| &&
    forall k :: 0 <= k < |p.rows| ==>
      rows[k] == if At(p.rows[k], "channel") in done then Merge(p, At(p.rows[k], "channel"), p.rows[k]) else p.rows[k]
  }

  /** One turn of the group loop: the rows of `key` get the group's name and flags. */
  method MergeGroup(f: Frame, p: Panel, key: Cell)
    requires f.Valid() && f.columns == p.columns && "name" in p.columns && |f.rows| == |p.rows|
    modifies f
    ensures f.Valid() && f.columns == p.columns && |f.rows| == |p.rows|
    ensures forall k :: 0 <= k < |p.rows| ==>
      f.rows[k] == if At(p.rows[k], "channel") == key then Merge(p, key, old(f.rows)[k]) else old(f.rows)[k]
  {
    var g := Group(p.rows, key);
    var mask := seq(|p.rows|, k requires 0 <= k < |p.rows| => At(p.rows[k], "channel") == key);
    ghost var before := f.rows;
    var name := MergedName(g);
    f.SetCells(mask, "name", name);
    ghost var named := f.rows;
    if "keep" in f.columns {
      f.SetCells(mask, "keep", AnyTrue(g, "keep"));
    }
    ghost var kept := f.rows;
    assert forall k :: 0 <= k < |p.rows| ==> kept[k] == if mask[k] then
      (if "keep" in p.columns then before[k]["name" := name]["keep" := AnyTrue(g, "keep")] else before[k]["name" := name])
      else before[k];
    if "ilastik" in f.columns {
      f.SetCells(mask, "ilastik", AnyTrue(g, "ilastik"));
    }
  }

  /** The invariant of the group loop after one more channel. */
  lemma MergedUpToStep(before: seq<Row>, after: seq<Row>, p: Panel, done: set<Cell>, key: Cell)
    requires MergedUpTo(before, p, done) && |after| == |p.rows|
    requires forall k :: 0 <= k < |p.rows| ==>
      after[k] == if At(p.rows[k], "channel") == key then Merge(p, key, before[k]) else before[k]
    ensures MergedUpTo(after, p, done + {key})
  {
    forall k | 0 <= k < |p.rows| && At(p.rows[k], "channel") == key
      ensures Merge(p, key, before[k]) == Merge(p, key, p.rows[k])
    {
      MergeTwice(p, key, p.rows[k]);
    }
  }

  /** Writing a group's values twice is writing them once. */
  lemma MergeTwice(p: Panel, key: Cell, r: Row)
    ensures Merge(p, key, Merge(p, key, r)) == Merge(p, key, r)
  {
  }

  lemma GroupKeysMembers(channels: seq<Cell>)
    ensures forall x :: x in GroupKeys(channels) <==> x in channels
  {
    var d := Distinct(channels);
    assert forall x :: x in GroupKeys(channels) <==> x in multiset(d);
  }

  function KeySet(keys: seq<Cell>): set<Cell> {
    set x | x in keys
  }

  lemma KeySetStep(keys: seq<Cell>, i: nat)
    requires i < |keys|
    ensures KeySet(keys[..i + 1]) == KeySet(keys[..i]) + {keys[i]}
  {
    assert keys[..i + 1] == keys[..i] + [keys[i]];
  }

  /** `for _, g in panel.groupby("channel")` with the `.loc` assignments of its body. */
  method MergeGroups(f: Frame)
    requires f.Valid() && "name" in f.columns
    modifies f
    ensures f.Valid() && f.Value() == MergedGroups(old(f.Value()))
  {
    var p := f.Value();
    var keys := GroupKeys(Column(p.rows, "channel"));
    assert KeySet(keys[..0]) == {};
    for i := 0 to |keys|
      invariant f.Valid() && f.columns == p.columns && MergedUpTo(f.rows, p, KeySet(keys[..i]))
    {
      ghost var before := f.rows;
      MergeGroup(f, p, keys[i]);
      MergedUpToStep(before, f.rows, p, KeySet(keys[..i]), keys[i]);
      KeySetStep(keys, i);
    }
    AllMerged(p, keys, f.rows);
  }

  lemma AllMerged(p: Panel, keys: seq<Cell>, rows: seq<Row>)
    requires keys == GroupKeys(Column(p.rows, "channel")) && MergedUpTo(rows, p, KeySet(keys[..|keys|]))
    ensures rows == MergedGroups(p).rows
  {
    GroupKeysMembers(Column(p.rows, "channel"));
    assert keys[..|keys|] == keys;
    forall k | 0 <= k < |p.rows|
      ensures At(p.rows[k], "channel") in KeySet(keys)
    {
      assert Column(p.rows, "channel")[k] == At(p.rows[k], "channel");
    }
  }

  /** The aggregated panel has the merged panel's labels and a cell under each in every row. */
  lemma AggregatedWellFormed(p: Panel)
    requires NoDuplicates(p.columns)
    ensures WellFormed(Aggregated(p))
  {
  }

  /** After the merge every row's `keep` is a flag, so `_clean_panel` can select by it. */
  lemma MergedKeepUsable(u: Panel)
    requires "channel" in u.columns
    ensures KeepMaskUsable(Aggregated(MergedGroups(u)))
  {
    var a := Aggregated(MergedGroups(u));
    if "keep" in u.columns {
      forall i | 0 <= i < |a.rows|
        ensures At(a.rows[i], "keep").Flag?
      {
        AggregatedCellsAt(u, i);
      }
    }
  }

  /** A group holds exactly the rows of its channel. */
  lemma {:induction false} GroupMembers(rows: seq<Row>, key: Cell)
    ensures forall r :: r in Group(rows, key) <==> r in rows && At(r, "channel") == key
  {
    if rows != [] {
      GroupMembers(rows[1..], key);
      assert rows == [rows[0]] + rows[1..];
    }
  }

  lemma {:induction false} GroupHas(rows: seq<Row>, key: Cell, k: nat)
    requires k < |rows| && At(rows[k], "channel") == key
    ensures Group(rows, key) != []
  {
    GroupMembers(rows, key);
    assert rows[k] in Group(rows, key);
  }

  /** A group holds only rows of its channel, and is not empty for a channel that occurs. */
  lemma {:induction false} GroupOf(rows: seq<Row>, key: Cell)
    ensures forall i :: 0 <= i < |Group(rows, key)| ==> Group(rows, key)[i] in rows && At(Group(rows, key)[i], "channel") == key
    ensures key in Column(rows, "channel") ==> Group(rows, key) != []
  {
    GroupMembers(rows, key);
    if key in Column(rows, "channel") {
      var k :| 0 <= k < |rows| && Column(rows, "channel")[k] == key;
      GroupHas(rows, key, k);
    }
  }

  /** Rows that agree on the channel and on `l` give groups that agree on `l`. */
  lemma {:induction false} GroupColumnAgrees(a: seq<Row>, b: seq<Row>, key: Cell, l: string)
    requires |a| == |b|
    requires forall k :: 0 <= k < |a| ==> At(a[k], "channel") == At(b[k], "channel") && At(a[k], l) == At(b[k], l)
    ensures Column(Group(a, key), l) == Column(Group(b, key), l)
  {
    if a != [] {
      GroupColumnAgrees(a[1..], b[1..], key, l);
      var ha := if At(a[0], "channel") == key then [a[0]] else [];
      var hb := if At(b[0], "channel") == key then [b[0]] else [];
      assert Column(ha + Group(a[1..], key), l) == Column(ha, l) + Column(Group(a[1..], key), l);
      assert Column(hb + Group(b[1..], key), l) == Column(hb, l) + Column(Group(b[1..], key), l);
    }
  }

  /** `first` of cells that are all `v` is `v`. */
  lemma {:induction false} FirstNonNullUniform(cells: seq<Cell>, v: Cell)
    requires cells != [] && forall i :: 0 <= i < |cells| ==> cells[i] == v
    ensures FirstNonNull(cells) == v
  {
    if cells[0].Null? && |cells| > 1 {
      FirstNonNullUniform(cells[1..], v);
    }
  }

  /** A group's first value under a label on which all rows of the channel agree. */
  lemma FirstOfUniform(rows: seq<Row>, key: Cell, l: string, v: Cell)
    requires key in Column(rows, "channel")
    requires forall k :: 0 <= k < |rows| && At(rows[k], "channel") == key ==> At(rows[k], l) == v
    ensures FirstNonNull(Column(Group(rows, key), l)) == v
  {
    GroupOf(rows, key);
    var g := Group(rows, key);
    forall i | 0 <= i < |g|
      ensures Column(g, l)[i] == v
    {
      assert g[i] in rows;
    }
    FirstNonNullUniform(Column(g, l), v);
  }

  /** The merge keeps the columns, the number of rows and the channel of every row. */
  lemma MergedShape(u: Panel)
    ensures var m := MergedGroups(u);
      m.columns == u.columns && |m.rows| == |u.rows| &&
      Column(m.rows, "channel") == Column(u.rows, "channel")
  {
    MergedKeeps(u, "channel");
  }

  /** The `i`th aggregated row belongs to the `i`th group key, a channel of `u`. */
  lemma AggregatedChannel(u: Panel, i: nat)
    requires "channel" in u.columns && i < |Aggregated(MergedGroups(u)).rows|
    ensures var key := GroupKeys(Column(MergedGroups(u).rows, "channel"))[i];
      key in Column(u.rows, "channel") && key in Column(MergedGroups(u).rows, "channel") &&
      At(Aggregated(MergedGroups(u)).rows[i], "channel") == key
  {
    var m := MergedGroups(u);
    var keys := GroupKeys(Column(m.rows, "channel"));
    var key := keys[i];
    MergedShape(u);
    GroupKeysMembers(Column(m.rows, "channel"));
    assert key in Column(m.rows, "channel");
    var j :| 0 <= j < |m.rows| && Column(m.rows, "channel")[j] == key;
    assert Column(u.rows, "channel")[j] == key;
    FirstOfUniform(m.rows, key, "channel", key);
  }

  /** The rows of one channel after the merge carry the group's name and flags. */
  lemma MergedWrites(u: Panel, key: Cell)
    ensures var m := MergedGroups(u);
      var g := Group(u.rows, key);
      forall k :: 0 <= k < |m.rows| && At(m.rows[k], "channel") == key ==>
        At(m.rows[k], "name") == MergedName(g) &&
        ("keep" in u.columns ==> At(m.rows[k], "keep") == AnyTrue(g, "keep")) &&
        ("ilastik" in u.columns ==> At(m.rows[k], "ilastik") == AnyTrue(g, "ilastik"))
  {
  }

  /** The merge leaves the channel and every label it does not write alone. */
  lemma MergedKeeps(u: Panel, l: string)
    requires l != "name" && l != "keep" && l != "ilastik"
    ensures var m := MergedGroups(u);
      |m.rows| == |u.rows| &&
      forall k :: 0 <= k < |m.rows| ==> At(m.rows[k], "channel") == At(u.rows[k], "channel") && At(m.rows[k], l) == At(u.rows[k], l)
  {
  }

  /** The `i`th aggregated row's cell under `l`, when all rows of its channel agree on it. */
  lemma AggregatedUniformAt(u: Panel, i: nat, l: string, v: Cell)
    requires "channel" in u.columns && i < |Aggregated(MergedGroups(u)).rows|
    requires var m := MergedGroups(u);
      var key := GroupKeys(Column(m.rows, "channel"))[i];
      forall k :: 0 <= k < |m.rows| && At(m.rows[k], "channel") == key ==> At(m.rows[k], l) == v
    ensures l in u.columns ==> At(Aggregated(MergedGroups(u)).rows[i], l) == v
  {
    var m := MergedGroups(u);
    var key := GroupKeys(Column(m.rows, "channel"))[i];
    assert key in Column(m.rows, "channel") by {
      AggregatedChannel(u, i);
    }
    FirstOfUniform(m.rows, key, l, v);
  }

  /** The `i`th aggregated row: the merged name and flags of its channel. */
  lemma AggregatedMergedAt(u: Panel, i: nat)
    requires "channel" in u.columns && i < |Aggregated(MergedGroups(u)).rows|
    ensures var r := Aggregated(MergedGroups(u)).rows[i];
      var g := Group(u.rows, GroupKeys(Column(MergedGroups(u).rows, "channel"))[i]);
      ("name" in u.columns ==> At(r, "name") == MergedName(g)) &&
      ("keep" in u.columns ==> At(r, "keep") == AnyTrue(g, "keep")) &&
      ("ilastik" in u.columns ==> At(r, "ilastik") == AnyTrue(g, "ilastik"))
  {
    var m := MergedGroups(u);
    var key := GroupKeys(Column(m.rows, "channel"))[i];
    var g := Group(u.rows, key);
    MergedWrites(u, key);
    AggregatedUniformAt(u, i, "name", MergedName(g));
    if "keep" in u.columns {
      AggregatedUniformAt(u, i, "keep", AnyTrue(g, "keep"));
    }
    if "ilastik" in u.columns {
      AggregatedUniformAt(u, i, "ilastik", AnyTrue(g, "ilastik"));
    }
  }

  /** The `i`th aggregated row under a label the merge does not write: the first non-missing
      value of its channel's rows. */
  lemma AggregatedFirstAt(u: Panel, i: nat, l: string)
    requires "channel" in u.columns && i < |Aggregated(MergedGroups(u)).rows|
    requires l in u.columns && l != "name" && l != "keep" && l != "ilastik"
    ensures var key := GroupKeys(Column(MergedGroups(u).rows, "channel"))[i];
      At(Aggregated(MergedGroups(u)).rows[i], l) == FirstNonNull(Column(Group(u.rows, key), l))
  {
    var m := MergedGroups(u);
    var key := GroupKeys(Column(m.rows, "channel"))[i];
    MergedKeeps(u, l);
    GroupColumnAgrees(m.rows, u.rows, key, l);
  }

  /** The `i`th aggregated row: the merged name and flags of its channel, and the first
      non-missing value of the channel's rows under every other label. */
  lemma AggregatedCellsAt(u: Panel, i: nat)
    requires "channel" in u.columns && i < |Aggregated(MergedGroups(u)).rows|
    ensures var r := Aggregated(MergedGroups(u)).rows[i];
      var g := Group(u.rows, At(r, "channel"));
      ("name" in u.columns ==> At(r, "name") == MergedName(g)) &&
      ("keep" in u.columns ==> At(r, "keep") == AnyTrue(g, "keep")) &&
      ("ilastik" in u.columns ==> At(r, "ilastik") == AnyTrue(g, "ilastik")) &&
      forall l :: l in u.columns && l != "name" && l != "keep" && l != "ilastik" ==>
        At(r, l) == FirstNonNull(Column(g, l))
  {
    AggregatedChannel(u, i);
    AggregatedMergedAt(u, i);
    forall l | l in u.columns && l != "name" && l != "keep" && l != "ilastik"
      ensures At(Aggregated(MergedGroups(u)).rows[i], l) ==
        FirstNonNull(Column(Group(u.rows, GroupKeys(Column(MergedGroups(u).rows, "channel"))[i]), l))
    {
      AggregatedFirstAt(u, i, l);
    }
  }

  /** `create_panel_from_imc_panel` on the parsed table `t`. */
  method CreatePanelFromImcPanel(t: Panel, cols: ImcColumns) returns (r: Result<Panel, PanelError>)
    requires WellFormed(t)
    ensures r == ImcPanel(t, cols)
  {
    var check := ImcPanelCheck(t, cols);
    if check.Some? {
      return Err(check.value);
    }
    var renamed := Renamed(t, cols);
    if "channel" !in renamed.columns {
      return Err(KeyError("channel"));
    }
    if "name" !in renamed.columns {
      return Err(KeyError("name"));
    }
    RenamedWellFormed(t, cols);
    var f := new Frame(renamed);
    MergeGroups(f);
    AggregatedWellFormed(f.Value());
    MergedKeepUsable(renamed);
    var g := new Frame(Aggregated(f.Value()));
    CleanPanel(g);
    CleanedPanelColumns(Aggregated(f.Value()));
    g.SetColumn("ilastik", Ranks(IlastikMask(g.rows)));
    return Ok(g.Value());
  }
}
