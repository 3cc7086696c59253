/** `create_panel_from_mcd_files` and `create_panel_from_txt_files`: one two-column table per
    acquisition (MCD) or per txt export, concatenated, exact duplicate rows dropped, cleaned. */
module FilePanels {
  import opened Wrappers
  import opened Seqs
  import opened Panels
  import opened CleanPanels
  import opened Paths
  import opened Readers

  /** The two columns of every table read from a file. */
  const ChannelColumns: seq<string> := ["channel", "name"]

  /** Entry `i` of a string series, or pandas' missing value past its end. */
  function Entry(xs: seq<string>, i: nat): Cell {
    if i < |xs| then Text(xs[i]) else Null
  }

  function Max(a: nat, b: nat): nat {
    if a < b then b else a
  }

  /** `pd.DataFrame(data={"channel": names, "name": labels})`: the two series aligned on
      their positions, the shorter one padded with missing values. */
  function ChannelTable(names: seq<string>, labels: seq<string>): (rows: seq<Row>)
    ensures |rows| == Max(|names|, |labels|)
    ensures forall i :: 0 <= i < |rows| ==> rows[i].Keys == Labels(ChannelColumns)
    ensures forall i :: 0 <= i < |names| ==> At(rows[i], "channel") == Text(names[i])
    ensures forall i :: 0 <= i < |labels| ==> At(rows[i], "name") == Text(labels[i])
  {
    seq(Max(|names|, |labels|), i requires 0 <= i => map["channel" := Entry(names, i), "name" := Entry(labels, i)])
  }

  /** The table of one acquisition. */
  function AcquisitionTable(a: Acquisition): seq<Row> {
    ChannelTable(a.channelNames, a.channelLabels)
  }

  /** The tables of the acquisitions of one MCD file, slide after slide. */
  function AcquisitionTables(acqs: seq<StoredAcquisition>): seq<seq<Row>> {
    seq(|acqs|, k requires 0 <= k < |acqs| => AcquisitionTable(acqs[k].acquisition))
  }

  /** The `panels` list after the loop over `files`: the first file that cannot be opened
      raises out of the whole call. */
  function McdTables(files: seq<Path>, open: Path -> McdOutcome): Result<seq<seq<Row>>, PanelError> {
    if files == [] then Ok([])
    else
      var last := files[|files| - 1];
      match McdTables(files[..|files| - 1], open)
      case Err(e) => Err(e)
      case Ok(tables) =>
        match open(last)
        case McdUnreadable => Err(Unreadable(last))
        case McdOpened(acqs) => Ok(tables + AcquisitionTables(acqs))
  }

  /** The `panels` list for txt exports: one table per file. */
  function TxtTables(files: seq<Path>, open: Path -> TxtOutcome): Result<seq<seq<Row>>, PanelError> {
    if files == [] then Ok([])
    else
      var last := files[|files| - 1];
      match TxtTables(files[..|files| - 1], open)
      case Err(e) => Err(e)
      case Ok(tables) =>
        match open(last)
        case TxtUnreadable(_) => Err(Unreadable(last))
        case TxtOpened(names, labels, _) => Ok(tables + [ChannelTable(names, labels)])
  }

  /** `pd.concat(panels, ignore_index=True)` on the rows: the tables one after another. */
  function Concatenated(tables: seq<seq<Row>>): seq<Row> {
    if tables == [] then [] else Concatenated(tables[..|tables| - 1]) + tables[|tables| - 1]
  }

  /** Concatenate (which raises on an empty list), drop exact duplicates, clean. */
  function PanelFromTables(tables: seq<seq<Row>>): Result<Panel, PanelError> {
    if tables == [] then Err(NothingToConcatenate)
    else Ok(CleanedPanel(Panel(ChannelColumns, Distinct(Concatenated(tables)))))
  }

  function McdFilesPanel(files: seq<Path>, open: Path -> McdOutcome): Result<Panel, PanelError> {
    match McdTables(files, open)
    case Err(e) => Err(e)
    case Ok(tables) => PanelFromTables(tables)
  }

  function TxtFilesPanel(files: seq<Path>, open: Path -> TxtOutcome): Result<Panel, PanelError> {
    match TxtTables(files, open)
    case Err(e) => Err(e)
    case Ok(tables) => PanelFromTables(tables)
  }

  /** Every row of every table has a cell under exactly the two columns. */
  predicate TablesShaped(tables: seq<seq<Row>>) {
    forall t, k :: 0 <= t < |tables| && 0 <= k < |tables[t]| ==> tables[t][k].Keys == Labels(ChannelColumns)
  }

  lemma {:induction false} ConcatenatedShaped(tables: seq<seq<Row>>)
    requires TablesShaped(tables)
    ensures forall k :: 0 <= k < |Concatenated(tables)| ==> Concatenated(tables)[k].Keys == Labels(ChannelColumns)
  {
    if tables != [] {
      var init := tables[..|tables| - 1];
      assert TablesShaped(init) by {
        forall t, k | 0 <= t < |init| && 0 <= k < |init[t]|
          ensures init[t][k].Keys == Labels(ChannelColumns)
        {
          assert init[t] == tables[t];
        }
      }
      ConcatenatedShaped(init);
    }
  }

  /** The panel `create_panel_from_*_files` hands to `_clean_panel`. */
  function Deduplicated(tables: seq<seq<Row>>): Panel {
    Panel(ChannelColumns, Distinct(Concatenated(tables)))
  }

  lemma DeduplicatedWellFormed(tables: seq<seq<Row>>)
    requires TablesShaped(tables)
    ensures WellFormed(Deduplicated(tables)) && KeepMaskUsable(Deduplicated(tables))
  {
    ConcatenatedShaped(tables);
    var rows := Distinct(Concatenated(tables));
    forall k | 0 <= k < |rows|
      ensures rows[k].Keys == Labels(ChannelColumns)
    {
      var j :| 0 <= j < |Concatenated(tables)| && Concatenated(tables)[j] == rows[k];
    }
  }

  lemma AcquisitionTablesShaped(acqs: seq<StoredAcquisition>)
    ensures TablesShaped(AcquisitionTables(acqs))
  {
  }

  lemma {:induction false} McdTablesShaped(files: seq<Path>, open: Path -> McdOutcome)
    requires McdTables(files, open).Ok?
    ensures TablesShaped(McdTables(files, open).value)
  {
    if files != [] {
      McdTablesShaped(files[..|files| - 1], open);
      match open(files[|files| - 1])
      case McdUnreadable =>
      case McdOpened(acqs) =>
        AcquisitionTablesShaped(acqs);
    }
  }

  lemma {:induction false} TxtTablesShaped(files: seq<Path>, open: Path -> TxtOutcome)
    requires TxtTables(files, open).Ok?
    ensures TablesShaped(TxtTables(files, open).value)
  {
    if files != [] {
      TxtTablesShaped(files[..|files| - 1], open);
    }
  }

  /** The body of `for acquisition in slide.acquisitions`: append each acquisition's table. */
  method AppendAcquisitionTables(panels0: seq<seq<Row>>, acqs: seq<StoredAcquisition>) returns (panels: seq<seq<Row>>)
    ensures panels == panels0 + AcquisitionTables(acqs)
  {
    panels := panels0;
    for i := 0 to |acqs|
      invariant panels == panels0 + AcquisitionTables(acqs[..i])
    {
      assert AcquisitionTables(acqs[..i + 1]) == AcquisitionTables(acqs[..i]) + [AcquisitionTable(acqs[i].acquisition)];
      panels := panels + [AcquisitionTable(acqs[i].acquisition)];
    }
    assert acqs[..|acqs|] == acqs;
  }

  /** Concatenate, drop duplicates and clean, on a frame. */
  method ConcatAndClean(panels: seq<seq<Row>>) returns (r: Result<Panel, PanelError>)
    requires TablesShaped(panels)
    ensures r == PanelFromTables(panels)
  {
    if panels == [] {
      return Err(NothingToConcatenate);
    }
    DeduplicatedWellFormed(panels);
    var f := new Frame(Deduplicated(panels));
    CleanPanel(f);
    return Ok(f.Value());
  }

  /** `create_panel_from_mcd_files`, with opening a file given as `open`. */
  method CreatePanelFromMcdFiles(files: seq<Path>, open: Path -> McdOutcome) returns (r: Result<Panel, PanelError>)
    ensures r == McdFilesPanel(files, open)
  {
    var panels: seq<seq<Row>> := [];
    for i := 0 to |files|
      invariant McdTables(files[..i], open) == Ok(panels)
    {
      assert files[..i + 1][..i] == files[..i];
      match open(files[i]) {
        case McdUnreadable =>
          McdErrorPersists(files, open, i + 1);
          return Err(Unreadable(files[i]));
        case McdOpened(acqs) =>
          panels := AppendAcquisitionTables(panels, acqs);
      }
    }
    assert files[..|files|] == files;
    McdTablesShaped(files, open);
    r := ConcatAndClean(panels);
  }

  /** `create_panel_from_txt_files`, with opening a file given as `open`. */
  method CreatePanelFromTxtFiles(files: seq<Path>, open: Path -> TxtOutcome) returns (r: Result<Panel, PanelError>)
    ensures r == TxtFilesPanel(files, open)
  {
    var panels: seq<seq<Row>> := [];
    for i := 0 to |files|
      invariant TxtTables(files[..i], open) == Ok(panels)
    {
      assert files[..i + 1][..i] == files[..i];
      match open(files[i]) {
        case TxtUnreadable(_) =>
          TxtErrorPersists(files, open, i + 1);
          return Err(Unreadable(files[i]));
        case TxtOpened(names, labels, _) =>
          panels := panels + [ChannelTable(names, labels)];
      }
    }
    assert files[..|files|] == files;
    TxtTablesShaped(files, open);
    r := ConcatAndClean(panels);
  }

  /** Once the files up to `i` raise, so do all of them: later files are never opened. */
  lemma {:induction false} McdErrorPersists(files: seq<Path>, open: Path -> McdOutcome, i: nat)
    requires i <= |files| && McdTables(files[..i], open).Err?
    ensures McdTables(files, open) == McdTables(files[..i], open)
    decreases |files| - i
  {
    if i < |files| {
      assert files[..i + 1][..i] == files[..i];
      McdErrorPersists(files, open, i + 1);
    } else {
      assert files[..i] == files;
    }
  }

  lemma {:induction false} TxtErrorPersists(files: seq<Path>, open: Path -> TxtOutcome, i: nat)
    requires i <= |files| && TxtTables(files[..i], open).Err?
    ensures TxtTables(files, open) == TxtTables(files[..i], open)
    decreases |files| - i
  {
    if i < |files| {
      assert files[..i + 1][..i] == files[..i];
      TxtErrorPersists(files, open, i + 1);
    } else {
      assert files[..i] == files;
    }
  }

  // Which channels the panel lists.

  /** The distinct cells of a table's channel column. */
  function TableChannels(rows: seq<Row>): set<Cell> {
    set x | x in Column(rows, "channel")
  }

  /** The channels of one channel header: its names, and a missing channel when there are
      more labels than names. */
  function HeaderChannels(names: seq<string>, labels: seq<string>): set<Cell> {
    (set n | n in names :: Text(n)) + (if |names| < |labels| then {Null} else {})
  }

  function AcquisitionChannels(acqs: seq<StoredAcquisition>): set<Cell> {
    if acqs == [] then {}
    else
      var a := acqs[|acqs| - 1].acquisition;
      AcquisitionChannels(acqs[..|acqs| - 1]) + HeaderChannels(a.channelNames, a.channelLabels)
  }

  /** The channels named in the headers of every MCD file that opens. */
  function McdChannels(files: seq<Path>, open: Path -> McdOutcome): set<Cell> {
    if files == [] then {}
    else
      McdChannels(files[..|files| - 1], open) +
      match open(files[|files| - 1])
      case McdUnreadable => {}
      case McdOpened(acqs) => AcquisitionChannels(acqs)
  }

  /** The channels named in the headers of every txt export that opens. */
  function TxtChannels(files: seq<Path>, open: Path -> TxtOutcome): set<Cell> {
    if files == [] then {}
    else
      TxtChannels(files[..|files| - 1], open) +
      match open(files[|files| - 1])
      case TxtUnreadable(_) => {}
      case TxtOpened(names, labels, _) => HeaderChannels(names, labels)
  }

  function TablesChannels(tables: seq<seq<Row>>): set<Cell> {
    if tables == [] then {} else TablesChannels(tables[..|tables| - 1]) + TableChannels(tables[|tables| - 1])
  }

  lemma ChannelTableChannels(names: seq<string>, labels: seq<string>)
    ensures TableChannels(ChannelTable(names, labels)) == HeaderChannels(names, labels)
  {
    var rows := ChannelTable(names, labels);
    forall x | x in TableChannels(rows)
      ensures x in HeaderChannels(names, labels)
    {
      var k :| 0 <= k < |rows| && Column(rows, "channel")[k] == x;
      if k < |names| {
        assert Text(names[k]) in (set n | n in names :: Text(n));
      }
    }
    forall x | x in HeaderChannels(names, labels)
      ensures x in TableChannels(rows)
    {
      if x in (set n | n in names :: Text(n)) {
        var n :| n in names && x == Text(n);
        var k :| 0 <= k < |names| && names[k] == n;
        assert Column(rows, "channel")[k] == x;
      } else {
        assert Column(rows, "channel")[|names|] == x;
      }
    }
  }

  lemma {:induction false} TablesChannelsAppend(a: seq<seq<Row>>, b: seq<seq<Row>>)
    ensures TablesChannels(a + b) == TablesChannels(a) + TablesChannels(b)
    decreases |b|
  {
    if b != [] {
      assert (a + b)[..|a + b| - 1] == a + b[..|b| - 1];
      TablesChannelsAppend(a, b[..|b| - 1]);
    } else {
      assert a + b == a;
    }
  }

  lemma {:induction false} ConcatenatedChannels(tables: seq<seq<Row>>)
    ensures TableChannels(Concatenated(tables)) == TablesChannels(tables)
  {
    if tables != [] {
      var init := tables[..|tables| - 1];
      var last := tables[|tables| - 1];
      ConcatenatedChannels(init);
      assert Column(Concatenated(init) + last, "channel") == Column(Concatenated(init), "channel") + Column(last, "channel");
    }
  }

  lemma {:induction false} AcquisitionTablesChannels(acqs: seq<StoredAcquisition>)
    ensures TablesChannels(AcquisitionTables(acqs)) == AcquisitionChannels(acqs)
  {
    if acqs != [] {
      var init := acqs[..|acqs| - 1];
      var a := acqs[|acqs| - 1].acquisition;
      assert AcquisitionTables(acqs)[..|acqs| - 1] == AcquisitionTables(init);
      AcquisitionTablesChannels(init);
      ChannelTableChannels(a.channelNames, a.channelLabels);
    }
  }

  lemma {:induction false} McdTablesChannels(files: seq<Path>, open: Path -> McdOutcome)
    requires McdTables(files, open).Ok?
    ensures TablesChannels(McdTables(files, open).value) == McdChannels(files, open)
  {
    if files != [] {
      var init := files[..|files| - 1];
      McdTablesChannels(init, open);
      match open(files[|files| - 1])
      case McdUnreadable =>
      case McdOpened(acqs) =>
        TablesChannelsAppend(McdTables(init, open).value, AcquisitionTables(acqs));
        AcquisitionTablesChannels(acqs);
    }
  }

  lemma {:induction false} TxtTablesChannels(files: seq<Path>, open: Path -> TxtOutcome)
    requires TxtTables(files, open).Ok?
    ensures TablesChannels(TxtTables(files, open).value) == TxtChannels(files, open)
  {
    if files != [] {
      var init := files[..|files| - 1];
      TxtTablesChannels(init, open);
      match open(files[|files| - 1])
      case TxtUnreadable(_) =>
      case TxtOpened(names, labels, _) =>
        var t := TxtTables(init, open).value;
        assert (t + [ChannelTable(names, labels)])[..|t|] == t;
        ChannelTableChannels(names, labels);
    }
  }

  /** Rows that are the same as a set show the same channels. */
  lemma SameRowsSameChannels(a: seq<Row>, b: seq<Row>)
    requires forall r :: r in a <==> r in b
    ensures TableChannels(a) == TableChannels(b)
  {
    forall x | x in TableChannels(a)
      ensures x in TableChannels(b)
    {
      var k :| 0 <= k < |a| && Column(a, "channel")[k] == x;
      assert a[k] in a;
      var j :| 0 <= j < |b| && b[j] == a[k];
      assert Column(b, "channel")[j] == x;
    }
    forall x | x in TableChannels(b)
      ensures x in TableChannels(a)
    {
      var k :| 0 <= k < |b| && Column(b, "channel")[k] == x;
      assert b[k] in b;
      var j :| 0 <= j < |a| && a[j] == b[k];
      assert Column(a, "channel")[j] == x;
    }
  }

  /** Cleaning keeps the channels of the rows. */
  lemma CleanedChannels(p: Panel)
    requires "channel" in p.columns
    ensures TableChannels(CleanedPanel(p).rows) == TableChannels(p.rows)
  {
    CleanedPanelRows(p);
    var sorted := SortedRows(p);
    assert Column(CleanedPanel(p).rows, "channel") == Column(sorted, "channel");
    forall r
      ensures r in sorted <==> r in p.rows
    {
      assert r in sorted <==> r in multiset(sorted);
    }
    SameRowsSameChannels(sorted, p.rows);
  }

  /** Nothing but the standard columns: the two read ones and the three defaults. */
  lemma DeduplicatedColumns(tables: seq<seq<Row>>)
    ensures CleanedPanel(Deduplicated(tables)).columns == FrontColumns
  {
    CleanedPanelColumns(Deduplicated(tables));
    var front := Labels(FrontColumns);
    assert "channel" in front && "name" in front;
    assert ChannelColumns[1..] == ["name"] && ["name"][1..] == [];
    assert Without(["name"], front) == Without([], front) == [];
    assert Without(ChannelColumns, front) == Without(["name"], front);
  }

  lemma DeduplicatedChannels(tables: seq<seq<Row>>)
    ensures TableChannels(CleanedPanel(Deduplicated(tables)).rows) == TablesChannels(tables)
  {
    var d := Deduplicated(tables);
    CleanedChannels(d);
    SameRowsSameChannels(d.rows, Concatenated(tables));
    ConcatenatedChannels(tables);
  }

  /** The panel built from the tables: the standard columns, one row per distinct row of
      the tables, exactly their channels, ordered by channel number, every channel kept,
      numbered 1, 2, … for ilastik, and no deepcell assignment. */
  lemma PanelFromTablesMeaning(tables: seq<seq<Row>>)
    requires tables != []
    ensures var p := PanelFromTables(tables).value;
      p.columns == FrontColumns &&
      |p.rows| == |Distinct(Concatenated(tables))| &&
      TableChannels(p.rows) == TablesChannels(tables) &&
      (forall k :: 0 <= k < |p.rows| ==>
        At(p.rows[k], "keep") == Flag(true) && At(p.rows[k], "ilastik") == Count(k + 1) &&
        At(p.rows[k], "deepcell") == Null) &&
      forall i, j :: 0 <= i < j < |p.rows| ==> KeyLe(ChannelKey(p.rows[i]), ChannelKey(p.rows[j]))
  {
    var d := Deduplicated(tables);
    assert PanelFromTables(tables).value == CleanedPanel(d);
    DeduplicatedColumns(tables);
    DeduplicatedChannels(tables);
    CleanedPanelRows(d);
    CleanedPanelDefaults(d);
    CleanedPanelSorted(d);
  }

  // When the calls raise.

  lemma {:induction false} McdTablesOk(files: seq<Path>, open: Path -> McdOutcome)
    ensures McdTables(files, open).Ok? <==> forall i :: 0 <= i < |files| ==> open(files[i]).McdOpened?
    ensures McdTables(files, open) == Ok([]) <==> forall i :: 0 <= i < |files| ==> open(files[i]) == McdOpened([])
    ensures McdTables(files, open).Err? ==> McdTables(files, open).error.Unreadable?
  {
    if files != [] {
      var init := files[..|files| - 1];
      McdTablesOk(init, open);
      assert forall i :: 0 <= i < |init| ==> init[i] == files[i];
      if McdTables(init, open).Ok? {
        var t := McdTables(init, open).value;
        match open(files[|files| - 1])
        case McdUnreadable =>
        case McdOpened(acqs) =>
          assert |t + AcquisitionTables(acqs)| == |t| + |acqs|;
          assert t + AcquisitionTables(acqs) == [] <==> t == [] && acqs == [];
      }
    }
  }

  lemma {:induction false} TxtTablesOk(files: seq<Path>, open: Path -> TxtOutcome)
    ensures TxtTables(files, open).Ok? <==> forall i :: 0 <= i < |files| ==> open(files[i]).TxtOpened?
    ensures TxtTables(files, open).Ok? ==> |TxtTables(files, open).value| == |files|
    ensures TxtTables(files, open).Err? ==> TxtTables(files, open).error.Unreadable?
  {
    if files != [] {
      var init := files[..|files| - 1];
      TxtTablesOk(init, open);
      assert forall i :: 0 <= i < |init| ==> init[i] == files[i];
    }
  }

  /** The first MCD file that cannot be opened is the error, whatever comes after it. */
  lemma McdFirstUnreadable(files: seq<Path>, open: Path -> McdOutcome, i: nat)
    requires i < |files| && open(files[i]).McdUnreadable?
    requires forall j :: 0 <= j < i ==> open(files[j]).McdOpened?
    ensures McdFilesPanel(files, open) == Err(Unreadable(files[i]))
  {
    var before := files[..i];
    assert forall j :: 0 <= j < |before| ==> open(before[j]).McdOpened?;
    McdTablesOk(before, open);
    assert files[..i + 1][..i] == before;
    McdErrorPersists(files, open, i + 1);
  }

  lemma TxtFirstUnreadable(files: seq<Path>, open: Path -> TxtOutcome, i: nat)
    requires i < |files| && open(files[i]).TxtUnreadable?
    requires forall j :: 0 <= j < i ==> open(files[j]).TxtOpened?
    ensures TxtFilesPanel(files, open) == Err(Unreadable(files[i]))
  {
    var before := files[..i];
    assert forall j :: 0 <= j < |before| ==> open(before[j]).TxtOpened?;
    TxtTablesOk(before, open);
    assert files[..i + 1][..i] == before;
    TxtErrorPersists(files, open, i + 1);
  }

  /** `create_panel_from_mcd_files` raises the "no objects to concatenate" error exactly when
      every file opens and none holds an acquisition; it returns a panel exactly when every
      file opens and some holds one, and that panel lists the channels of all their headers. */
  lemma McdFilesPanelMeaning(files: seq<Path>, open: Path -> McdOutcome)
    ensures McdFilesPanel(files, open) == Err(NothingToConcatenate) <==>
      forall i :: 0 <= i < |files| ==> open(files[i]) == McdOpened([])
    ensures McdFilesPanel(files, open).Ok? <==>
      (forall i :: 0 <= i < |files| ==> open(files[i]).McdOpened?) &&
      exists i :: 0 <= i < |files| && open(files[i]) != McdOpened([])
    ensures McdFilesPanel(files, open).Ok? ==>
      var p := McdFilesPanel(files, open).value;
      p.columns == FrontColumns && TableChannels(p.rows) == McdChannels(files, open)
  {
    McdTablesOk(files, open);
    var t := McdTables(files, open);
    if t.Ok? && t.value != [] {
      assert !forall i :: 0 <= i < |files| ==> open(files[i]) == McdOpened([]);
      var i :| 0 <= i < |files| && open(files[i]) != McdOpened([]);
      McdTablesChannels(files, open);
      PanelFromTablesMeaning(t.value);
    }
  }

  /** `create_panel_from_txt_files`: no file is the "no objects" error, any file that does
      not open is an error, and otherwise the panel lists the channels of every header. */
  lemma TxtFilesPanelMeaning(files: seq<Path>, open: Path -> TxtOutcome)
    ensures TxtFilesPanel(files, open) == Err(NothingToConcatenate) <==> files == []
    ensures TxtFilesPanel(files, open).Ok? <==>
      files != [] && forall i :: 0 <= i < |files| ==> open(files[i]).TxtOpened?
    ensures TxtFilesPanel(files, open).Ok? ==>
      var p := TxtFilesPanel(files, open).value;
      p.columns == FrontColumns && TableChannels(p.rows) == TxtChannels(files, open)
  {
    TxtTablesOk(files, open);
    var t := TxtTables(files, open);
    if t.Ok? && t.value != [] {
      TxtTablesChannels(files, open);
      PanelFromTablesMeaning(t.value);
    }
  }
}
