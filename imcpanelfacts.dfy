/** What `create_panel_from_imc_panel` guarantees: which tables it rejects and why, one row per
    channel, the merged names and flags of each channel, and ilastik numbers 1, 2, …. */
module ImcPanelFacts {
  import opened Wrappers
  import opened Strings
  import opened Seqs
  import opened Sorting
  import opened Panels
  import opened CleanPanels
  import opened ImcPanels

  const Targets: set<string> := {"channel", "name", "keep", "ilastik"}

  /** The table passes the checks: the channel and name columns exist, and the channel, keep
      and ilastik columns (those that exist) have no missing value. */
  predicate Accepted(t: Panel, cols: ImcColumns) {
    cols.channel in t.columns && cols.name in t.columns &&
    (forall k :: 0 <= k < |t.rows| ==> At(t.rows[k], cols.channel) != Null) &&
    (cols.keep in t.columns ==> forall k :: 0 <= k < |t.rows| ==> At(t.rows[k], cols.keep) != Null) &&
    (cols.ilastik in t.columns ==> forall k :: 0 <= k < |t.rows| ==> At(t.rows[k], cols.ilastik) != Null)
  }

  /** A table is rejected with a missing column or missing values exactly when it fails the
      checks, and the missing channel column is reported before the missing name column. */
  lemma ImcPanelValidation(t: Panel, cols: ImcColumns)
    ensures ImcPanelCheck(t, cols).None? <==> Accepted(t, cols)
    ensures !Accepted(t, cols) <==>
      ImcPanel(t, cols).Err? && (ImcPanel(t, cols).error.MissingColumn? || ImcPanel(t, cols).error.MissingValues?)
    ensures cols.channel !in t.columns ==> ImcPanel(t, cols) == Err(MissingColumn(cols.channel))
    ensures cols.channel in t.columns && cols.name !in t.columns ==> ImcPanel(t, cols) == Err(MissingColumn(cols.name))
  {
    if !Accepted(t, cols) {
      if cols.channel in t.columns && cols.name in t.columns {
        if exists k :: 0 <= k < |t.rows| && At(t.rows[k], cols.channel) == Null {
          assert HasMissing(t, cols.channel);
        } else if cols.keep in t.columns && exists k :: 0 <= k < |t.rows| && At(t.rows[k], cols.keep) == Null {
          assert HasMissing(t, cols.keep);
        } else {
          assert HasMissing(t, cols.ilastik);
        }
      }
    }
  }

  lemma RenameMapFacts(cols: ImcColumns)
    requires Distinguished(cols)
    ensures RenameMap(cols).Keys == {cols.channel, cols.name, cols.keep, cols.ilastik}
    ensures forall l :: l in Targets ==> SourceLabel(cols, l) in RenameMap(cols) && RenameMap(cols)[SourceLabel(cols, l)] == l
    ensures forall s :: s in RenameMap(cols) ==> RenameMap(cols)[s] in Targets && SourceLabel(cols, RenameMap(cols)[s]) == s
  {
  }

  /** A standard label survives `drop` and `rename` exactly when the column given for it exists
      and is not itself labelled with another standard label. */
  lemma RenamedTarget(t: Panel, cols: ImcColumns, l: string)
    requires Distinguished(cols) && l in Targets
    ensures l in Renamed(t, cols).columns <==>
      SourceLabel(cols, l) in t.columns && SourceLabel(cols, l) !in Targets - {l}
  {
    var m := RenameMap(cols);
    var d := DropLabels(t, cols);
    var kept := Without(t.columns, d);
    var u := Renamed(t, cols);
    RenameMapFacts(cols);
    WithoutMembers(t.columns, d);
    var s := SourceLabel(cols, l);
    if s in t.columns && s !in Targets - {l} {
      assert s !in d;
      assert s in kept;
      var i :| 0 <= i < |kept| && kept[i] == s;
      assert u.columns[i] == l;
    }
    if l in u.columns {
      var i :| 0 <= i < |u.columns| && u.columns[i] == l;
      var c := kept[i];
      assert c in kept;
      assert c !in d;
      assert c in m ==> c == s;
      assert c !in m ==> c == l && m[s] == l;
    }
  }

  /** Any other label survives exactly when the table has it and it is not given for a role. */
  lemma RenamedOther(t: Panel, cols: ImcColumns, l: string)
    requires Distinguished(cols) && l !in Targets && l !in RenameMap(cols)
    ensures l in Renamed(t, cols).columns <==> l in t.columns
  {
    var d := DropLabels(t, cols);
    var kept := Without(t.columns, d);
    var u := Renamed(t, cols);
    RenameMapFacts(cols);
    WithoutMembers(t.columns, d);
    if l in t.columns {
      assert l !in d;
      assert l in kept;
      var i :| 0 <= i < |kept| && kept[i] == l;
      assert u.columns[i] == l;
    }
    if l in u.columns {
      var i :| 0 <= i < |u.columns| && u.columns[i] == l;
      assert kept[i] in kept;
    }
  }

  /** After renaming, a row's cell under a label is the original row's cell under that
      label's source column. */
  lemma RenamedCells(t: Panel, cols: ImcColumns)
    ensures |Renamed(t, cols).rows| == |t.rows|
    ensures forall k, l :: 0 <= k < |t.rows| && l in Renamed(t, cols).columns ==>
      At(Renamed(t, cols).rows[k], l) == At(t.rows[k], SourceLabel(cols, l))
  {
  }

  /** An accepted table fails on renaming with `KeyError("channel")` exactly when its channel
      column is labelled "name", "keep" or "ilastik", and otherwise with `KeyError("name")`
      exactly when its name column is labelled "channel", "keep" or "ilastik"; when neither
      happens a panel comes out. */
  lemma ImcPanelKeyErrors(t: Panel, cols: ImcColumns)
    requires Distinguished(cols) && Accepted(t, cols)
    ensures ImcPanel(t, cols) == Err(KeyError("channel")) <==> cols.channel in {"name", "keep", "ilastik"}
    ensures cols.channel !in {"name", "keep", "ilastik"} ==>
      (ImcPanel(t, cols) == Err(KeyError("name")) <==> cols.name in {"channel", "keep", "ilastik"})
    ensures ImcPanel(t, cols).Ok? <==>
      cols.channel !in {"name", "keep", "ilastik"} && cols.name !in {"channel", "keep", "ilastik"}
  {
    ImcPanelValidation(t, cols);
    RenamedTarget(t, cols, "channel");
    RenamedTarget(t, cols, "name");
  }

  lemma {:induction false} NoDuplicatesCount<T>(s: seq<T>, x: T)
    requires NoDuplicates(s)
    ensures multiset(s)[x] <= 1
  {
    if s != [] {
      assert s == [s[0]] + s[1..];
      assert NoDuplicates(s[1..]) by {
        assert forall i :: 0 <= i < |s[1..]| ==> s[1..][i] == s[i + 1];
      }
      NoDuplicatesCount(s[1..], x);
      assert s[0] !in s[1..];
    }
  }

  lemma TwoOccurrences<T>(s: seq<T>, i: nat, j: nat)
    requires i < j < |s|
    ensures s[i] == s[j] ==> multiset(s)[s[i]] >= 2
  {
    assert s == s[..i] + [s[i]] + s[i + 1..j] + [s[j]] + s[j + 1..];
  }

  /** Reordering keeps a sequence free of repetitions. */
  lemma PermutationNoDuplicates<T>(a: seq<T>, b: seq<T>)
    requires multiset(a) == multiset(b) && NoDuplicates(a)
    ensures NoDuplicates(b)
  {
    forall i, j | 0 <= i < j < |b|
      ensures b[i] != b[j]
    {
      NoDuplicatesCount(a, b[i]);
      TwoOccurrences(b, i, j);
    }
  }

  /** The returned panel is the cleaned aggregate of the merged, renamed table with its ilastik
      column renumbered. */
  lemma OkPanel(t: Panel, cols: ImcColumns)
    requires ImcPanel(t, cols).Ok?
    ensures var u := Renamed(t, cols);
      "channel" in u.columns && "name" in u.columns &&
      ImcPanel(t, cols).value == Renumbered(CleanedPanel(Aggregated(MergedGroups(u))))
  {
  }

  /** A row after sorting the aggregate: it is one of the aggregated rows. */
  lemma SortedRowCells(u: Panel, j: nat)
    requires "channel" in u.columns && j < |Aggregated(MergedGroups(u)).rows|
    ensures var r := SortedRows(Aggregated(MergedGroups(u)))[j];
      var g := Group(u.rows, At(r, "channel"));
      At(r, "channel") in Column(u.rows, "channel") &&
      ("name" in u.columns ==> At(r, "name") == MergedName(g)) &&
      ("keep" in u.columns ==> At(r, "keep") == AnyTrue(g, "keep")) &&
      ("ilastik" in u.columns ==> At(r, "ilastik") == AnyTrue(g, "ilastik")) &&
      forall l :: l in u.columns && l != "name" && l != "keep" && l != "ilastik" ==>
        At(r, l) == FirstNonNull(Column(g, l))
  {
    var a := Aggregated(MergedGroups(u));
    var r := SortedRows(a)[j];
    assert r in multiset(a.rows);
    var i :| 0 <= i < |a.rows| && a.rows[i] == r;
    AggregatedChannel(u, i);
    AggregatedCellsAt(u, i);
  }

  /** The rows of the result are those of the sorted aggregate, apart from names and ilastik
      numbers. */
  lemma ResultRows(u: Panel)
    requires "channel" in u.columns && "name" in u.columns
    ensures var a := Aggregated(MergedGroups(u));
      var q := Renumbered(CleanedPanel(a));
      |q.rows| == |a.rows| &&
      forall k, l :: 0 <= k < |q.rows| && l in u.columns && l != "name" && l != "ilastik" ==>
        At(q.rows[k], l) == At(SortedRows(a)[k], l)
  {
    var a := Aggregated(MergedGroups(u));
    CleanedPanelRows(a);
  }

  /** Reordering keeps elements with distinct keys distinct, and keeps the same elements. */
  lemma PermutedKeys<T, K>(a: seq<T>, b: seq<T>, key: T -> K)
    requires multiset(a) == multiset(b)
    requires forall i, j :: 0 <= i < j < |a| ==> key(a[i]) != key(a[j])
    ensures forall i, j :: 0 <= i < j < |b| ==> key(b[i]) != key(b[j])
    ensures forall x :: x in a <==> x in b
  {
    assert NoDuplicates(a);
    forall i, j | 0 <= i < j < |b|
      ensures key(b[i]) != key(b[j])
    {
      assert b[i] in multiset(a) && b[j] in multiset(a);
      var i1 :| 0 <= i1 < |a| && a[i1] == b[i];
      var j1 :| 0 <= j1 < |a| && a[j1] == b[j];
      NoDuplicatesCount(a, b[i]);
      TwoOccurrences(b, i, j);
    }
    assert forall x :: x in a <==> x in multiset(a);
    assert forall x :: x in b <==> x in multiset(b);
  }

  /** The group keys are the channels, each once. */
  lemma GroupKeysDistinct(channels: seq<Cell>)
    ensures NoDuplicates(GroupKeys(channels))
    ensures forall x :: x in GroupKeys(channels) <==> x in channels
  {
    PermutationNoDuplicates(Distinct(channels), GroupKeys(channels));
    GroupKeysMembers(channels);
  }

  /** The aggregate has one row per channel of `u`, each channel once. */
  lemma AggregatedKeys(u: Panel)
    requires "channel" in u.columns
    ensures var chans := Column(Aggregated(MergedGroups(u)).rows, "channel");
      NoDuplicates(chans) && forall x :: x in chans <==> x in Column(u.rows, "channel")
  {
    var m := MergedGroups(u);
    var rows := Aggregated(m).rows;
    var keys := GroupKeys(Column(m.rows, "channel"));
    forall i | 0 <= i < |rows|
      ensures Column(rows, "channel")[i] == keys[i]
    {
      AggregatedChannel(u, i);
    }
    assert Column(rows, "channel") == keys;
    GroupKeysDistinct(Column(m.rows, "channel"));
    assert Column(m.rows, "channel") == Column(u.rows, "channel") by {
      MergedShape(u);
    }
  }

  /** Every row of `a` being a row of `b`, every cell of `a`'s column is one of `b`'s. */
  lemma ColumnIncluded(a: seq<Row>, b: seq<Row>, c: string)
    requires forall r :: r in a ==> r in b
    ensures forall x :: x in Column(a, c) ==> x in Column(b, c)
  {
    forall x | x in Column(a, c)
      ensures x in Column(b, c)
    {
      var k :| 0 <= k < |a| && Column(a, c)[k] == x;
      assert a[k] in b;
      var i :| 0 <= i < |b| && b[i] == a[k];
      assert Column(b, c)[i] == x;
    }
  }

  /** Reordering rows whose cells under `c` differ keeps those cells different. */
  lemma PermutedColumnDistinct(a: seq<Row>, b: seq<Row>, c: string)
    requires multiset(a) == multiset(b) && NoDuplicates(Column(a, c))
    ensures NoDuplicates(Column(b, c))
  {
    var key := (r: Row) => At(r, c);
    assert forall i, j :: 0 <= i < j < |a| ==> key(a[i]) != key(a[j]) by {
      assert forall i :: 0 <= i < |a| ==> Column(a, c)[i] == key(a[i]);
    }
    PermutedKeys(a, b, key);
    assert forall i :: 0 <= i < |b| ==> Column(b, c)[i] == key(b[i]);
  }

  /** Sorting rows keeps their channels, and keeps them distinct when they were. */
  lemma SortedChannels(p: Panel)
    requires NoDuplicates(Column(p.rows, "channel"))
    ensures var chans := Column(SortedRows(p), "channel");
      NoDuplicates(chans) && forall x :: x in chans <==> x in Column(p.rows, "channel")
  {
    var sorted := SortedRows(p);
    PermutedColumnDistinct(p.rows, sorted, "channel");
    assert forall r :: r in sorted <==> r in p.rows by {
      assert forall r :: r in sorted <==> r in multiset(sorted);
      assert forall r :: r in p.rows <==> r in multiset(p.rows);
    }
    ColumnIncluded(p.rows, sorted, "channel");
    ColumnIncluded(sorted, p.rows, "channel");
  }

  /** The result built from the renamed table `u` has one row per channel of `u`. */
  lemma ResultChannels(u: Panel)
    requires "channel" in u.columns && "name" in u.columns
    ensures var q := Renumbered(CleanedPanel(Aggregated(MergedGroups(u))));
      q.columns == FrontColumns + Without(u.columns, Labels(FrontColumns)) &&
      NoDuplicates(Column(q.rows, "channel")) &&
      forall x :: x in Column(q.rows, "channel") <==> x in Column(u.rows, "channel")
  {
    var a := Aggregated(MergedGroups(u));
    var q := Renumbered(CleanedPanel(a));
    assert q.columns == FrontColumns + Without(u.columns, Labels(FrontColumns)) by {
      CleanedPanelColumns(a);
    }
    assert Column(q.rows, "channel") == Column(SortedRows(a), "channel") by {
      ResultRows(u);
    }
    AggregatedKeys(u);
    SortedChannels(a);
  }

  /** One row per channel: the result's channels are those of the table's channel column,
      each once, and its columns are the standard five followed by the others in their order. */
  lemma ImcPanelChannels(t: Panel, cols: ImcColumns)
    requires ImcPanel(t, cols).Ok?
    ensures var q := ImcPanel(t, cols).value;
      q.columns == FrontColumns + Without(Renamed(t, cols).columns, Labels(FrontColumns)) &&
      NoDuplicates(Column(q.rows, "channel")) &&
      forall x :: x in Column(q.rows, "channel") <==> x in Column(t.rows, cols.channel)
  {
    OkPanel(t, cols);
    var u := Renamed(t, cols);
    ResultChannels(u);
    RenamedCells(t, cols);
    assert Column(u.rows, "channel") == Column(t.rows, cols.channel);
  }

  /** The panel `create_panel_from_imc_panel` builds from the renamed table `u`. */
  function Built(u: Panel): Panel {
    Renumbered(CleanedPanel(Aggregated(MergedGroups(u))))
  }

  /** Each result row, before `_clean_panel` suffixes repeated names, is named by joining the
      distinct names of its channel's rows. */
  function GroupNames(u: Panel, rows: seq<Row>): seq<Cell> {
    seq(|rows|, j requires 0 <= j < |rows| => MergedName(Group(u.rows, At(rows[j], "channel"))))
  }

  /** The rows that get an ilastik number: those whose channel has a row marked for ilastik,
      or, when the table has no ilastik column, those kept. */
  function IlastikWanted(u: Panel, rows: seq<Row>): seq<bool> {
    seq(|rows|, k requires 0 <= k < |rows| =>
      if "ilastik" in u.columns then AnyTrue(Group(u.rows, At(rows[k], "channel")), "ilastik") == Flag(true)
      else At(rows[k], "keep") == Flag(true))
  }

  /** The names of the sorted aggregated rows are the merged names of their channels. */
  lemma SortedNames(u: Panel)
    requires "channel" in u.columns && "name" in u.columns
    ensures Column(SortedRows(Aggregated(MergedGroups(u))), "name") == GroupNames(u, Built(u).rows)
  {
    var sorted := SortedRows(Aggregated(MergedGroups(u)));
    ResultRows(u);
    forall j | 0 <= j < |sorted|
      ensures Column(sorted, "name")[j] == GroupNames(u, Built(u).rows)[j]
    {
      SortedRowCells(u, j);
    }
  }

  /** A result row's cells other than the name and the ilastik number. */
  lemma BuiltRowCells(u: Panel, k: nat)
    requires "channel" in u.columns && "name" in u.columns && k < |Built(u).rows|
    ensures var r := Built(u).rows[k];
      var g := Group(u.rows, At(r, "channel"));
      At(r, "channel") in Column(u.rows, "channel") &&
      ("keep" in u.columns ==> At(r, "keep") == AnyTrue(g, "keep")) &&
      ("keep" !in u.columns ==> At(r, "keep") == Flag(true)) &&
      forall l :: l in u.columns && l != "name" && l != "keep" && l != "ilastik" ==>
        At(r, l) == FirstNonNull(Column(g, l))
  {
    var a := Aggregated(MergedGroups(u));
    ResultRows(u);
    SortedRowCells(u, k);
    CleanedPanelDefaults(a);
  }

  lemma BuiltNames(u: Panel)
    requires "channel" in u.columns && "name" in u.columns
    ensures var q := Built(u);
      var names := GroupNames(u, q.rows);
      (forall k :: 0 <= k < |q.rows| ==>
        var same := Matching(names, names[k]);
        (CountTrue(same) == 1 ==> At(q.rows[k], "name") == names[k]) &&
        (CountTrue(same) > 1 ==>
           Ranks(same)[k].Count? && 1 <= Ranks(same)[k].count <= CountTrue(same) &&
           At(q.rows[k], "name") == Text(names[k].text + " " + NatToDecimal(Ranks(same)[k].count)))) &&
      forall j, k :: 0 <= j < k < |q.rows| && names[j] == names[k] ==> At(q.rows[j], "name") != At(q.rows[k], "name")
  {
    var a := Aggregated(MergedGroups(u));
    ResultRows(u);
    CleanedPanelRows(a);
    SortedNames(u);
    CleanedPanelNames(a);
  }

  /** A rank is there exactly where the mask is true, and is never 0. */
  lemma TruthyRank(mask: seq<bool>, k: nat)
    requires k < |mask|
    ensures Truthy(Ranks(mask)[k]) == mask[k]
  {
    RanksMeaning(mask);
  }

  /** A result row is the cleaned row with its ilastik number written in. */
  lemma BuiltRow(u: Panel, k: nat)
    requires k < |CleanedPanel(Aggregated(MergedGroups(u))).rows|
    ensures var c := CleanedPanel(Aggregated(MergedGroups(u)));
      |Built(u).rows| == |c.rows| &&
      Built(u).rows[k] == c.rows[k]["ilastik" := Ranks(IlastikMask(c.rows))[k]]
  {
    RanksMeaning(IlastikMask(CleanedPanel(Aggregated(MergedGroups(u))).rows));
  }

  lemma IlastikWantedGiven(u: Panel, k: nat)
    requires "channel" in u.columns && "name" in u.columns && "ilastik" in u.columns
    requires k < |CleanedPanel(Aggregated(MergedGroups(u))).rows|
    ensures var c := CleanedPanel(Aggregated(MergedGroups(u)));
      IlastikMask(c.rows)[k] == IlastikWanted(u, Built(u).rows)[k]
  {
    var a := Aggregated(MergedGroups(u));
    var c := CleanedPanel(a);
    var s := SortedRows(a)[k];
    CleanedPanelRows(a);
    BuiltRow(u, k);
    SortedRowCells(u, k);
    var v := AnyTrue(Group(u.rows, At(s, "channel")), "ilastik");
    assert At(c.rows[k], "ilastik") == v;
    assert At(Built(u).rows[k], "channel") == At(s, "channel");
    assert IlastikMask(c.rows)[k] == Truthy(v);
  }

  lemma IlastikWantedDefault(u: Panel, k: nat)
    requires "ilastik" !in u.columns
    requires k < |CleanedPanel(Aggregated(MergedGroups(u))).rows|
    ensures var c := CleanedPanel(Aggregated(MergedGroups(u)));
      IlastikMask(c.rows)[k] == IlastikWanted(u, Built(u).rows)[k]
  {
    var a := Aggregated(MergedGroups(u));
    var c := CleanedPanel(a);
    CleanedPanelRows(a);
    CleanedPanelDefaults(a);
    BuiltRow(u, k);
    assert At(c.rows[k], "ilastik") == Ranks(KeepMask(c.rows))[k];
    TruthyRank(KeepMask(c.rows), k);
    assert At(Built(u).rows[k], "keep") == At(c.rows[k], "keep");
  }

  lemma BuiltIlastik(u: Panel)
    requires "channel" in u.columns && "name" in u.columns
    ensures Column(Built(u).rows, "ilastik") == Ranks(IlastikWanted(u, Built(u).rows))
  {
    var a := Aggregated(MergedGroups(u));
    var c := CleanedPanel(a);
    var q := Built(u);
    CleanedPanelRows(a);
    forall k | 0 <= k < |c.rows|
      ensures IlastikMask(c.rows)[k] == IlastikWanted(u, q.rows)[k]
    {
      if "ilastik" in u.columns {
        IlastikWantedGiven(u, k);
      } else {
        IlastikWantedDefault(u, k);
      }
    }
    assert IlastikMask(c.rows) == IlastikWanted(u, q.rows);
    RanksMeaning(IlastikMask(c.rows));
  }

  /** Each row of the result carries its channel's merged values: `keep` is true when some
      row of the channel is kept (or always, without a keep column), every other column holds
      the channel's first non-missing value, and the name joins the channel's distinct names,
      with the occurrence number appended when another channel ends up with the same name. */
  lemma ImcPanelRows(t: Panel, cols: ImcColumns)
    requires ImcPanel(t, cols).Ok?
    ensures var q := ImcPanel(t, cols).value;
      var u := Renamed(t, cols);
      var names := GroupNames(u, q.rows);
      forall k :: 0 <= k < |q.rows| ==>
        var r := q.rows[k];
        var g := Group(u.rows, At(r, "channel"));
        var same := Matching(names, names[k]);
        ("keep" in u.columns ==> At(r, "keep") == AnyTrue(g, "keep")) &&
        ("keep" !in u.columns ==> At(r, "keep") == Flag(true)) &&
        (forall l :: l in u.columns && l != "name" && l != "keep" && l != "ilastik" ==>
           At(r, l) == FirstNonNull(Column(g, l))) &&
        (CountTrue(same) == 1 ==> At(r, "name") == names[k]) &&
        (CountTrue(same) > 1 ==>
           Ranks(same)[k].Count? && 1 <= Ranks(same)[k].count <= CountTrue(same) &&
           At(r, "name") == Text(names[k].text + " " + NatToDecimal(Ranks(same)[k].count)))
    ensures var q := ImcPanel(t, cols).value;
      var names := GroupNames(Renamed(t, cols), q.rows);
      forall j, k :: 0 <= j < k < |q.rows| && names[j] == names[k] ==> At(q.rows[j], "name") != At(q.rows[k], "name")
  {
    OkPanel(t, cols);
    var u := Renamed(t, cols);
    forall k | 0 <= k < |Built(u).rows|
      ensures var r := Built(u).rows[k];
        var g := Group(u.rows, At(r, "channel"));
        ("keep" in u.columns ==> At(r, "keep") == AnyTrue(g, "keep")) &&
        ("keep" !in u.columns ==> At(r, "keep") == Flag(true)) &&
        forall l :: l in u.columns && l != "name" && l != "keep" && l != "ilastik" ==>
          At(r, l) == FirstNonNull(Column(g, l))
    {
      BuiltRowCells(u, k);
    }
    BuiltNames(u);
  }

  /** The ilastik column numbers 1, 2, … the rows whose channel has a row marked for ilastik
      (without an ilastik column: the kept rows), in row order, and is missing elsewhere. */
  lemma ImcPanelIlastik(t: Panel, cols: ImcColumns)
    requires ImcPanel(t, cols).Ok?
    ensures var q := ImcPanel(t, cols).value;
      Column(q.rows, "ilastik") == Ranks(IlastikWanted(Renamed(t, cols), q.rows))
  {
    OkPanel(t, cols);
    BuiltIlastik(Renamed(t, cols));
  }
}
