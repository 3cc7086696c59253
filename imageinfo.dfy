/** `create_image_info`: the metadata record of one extracted image, a Python dict whose keys
    keep the order in which they were first set. */
module ImageInfo {
  import opened Wrappers
  import opened Seqs
  import opened Paths
  import opened Readers

  /** The values the record holds. */
  datatype Value = Str(s: string) | Int(i: int) | Real(r: real) | Bool(b: bool) | NoneValue

  /** Indexing `acquisition.roi_points_um` past its end raises `IndexError`. */
  datatype InfoError = RoiIndexError(index: nat)

  /** The record's keys. */
  datatype Field =
    | ImageName | WidthPx | HeightPx | NumChannels | SourceFile | RecoveryFile | Recovered
    | AcquisitionId | AcquisitionDescription | AcquisitionStartXUm | AcquisitionStartYUm
    | AcquisitionEndXUm | AcquisitionEndYUm | AcquisitionWidthUm | AcquisitionHeightUm

  /** The key as the code spells it, which becomes the column header of the image table. */
  function FieldName(f: Field): string {
    match f
    case ImageName => "image"
    case WidthPx => "width_px"
    case HeightPx => "height_px"
    case NumChannels => "num_channels"
    case SourceFile => "source_file"
    case RecoveryFile => "recovery_file"
    case Recovered => "recovered"
    case AcquisitionId => "acquisition_id"
    case AcquisitionDescription => "acquisition_description"
    case AcquisitionStartXUm => "acquisition_start_x_um"
    case AcquisitionStartYUm => "acquisition_start_y_um"
    case AcquisitionEndXUm => "acquisition_end_x_um"
    case AcquisitionEndYUm => "acquisition_end_y_um"
    case AcquisitionWidthUm => "acquisition_width_um"
    case AcquisitionHeightUm => "acquisition_height_um"
  }

  /** A dict: its entries in insertion order. */
  type Record = seq<(Field, Value)>

  function Keys(d: Record): seq<Field> {
    seq(|d|, i requires 0 <= i < |d| => d[i].0)
  }

  /** `d.get(k)`. */
  function Get(d: Record, k: Field): Option<Value> {
    if d == [] then None else if d[0].0 == k then Some(d[0].1) else Get(d[1..], k)
  }

  /** `d[k] = v`: an existing key keeps its place, a new one goes last. */
  function Put(d: Record, k: Field, v: Value): (r: Record)
    ensures k in Keys(d) ==> Keys(r) == Keys(d)
    ensures k !in Keys(d) ==> r == d + [(k, v)]
    ensures Get(r, k) == Some(v)
    ensures forall j :: j != k ==> Get(r, j) == Get(d, j)
  {
    if d == [] then [(k, v)]
    else if d[0].0 == k then
      assert Keys(d)[0] == k;
      [(k, v)] + d[1..]
    else
      var rest := Put(d[1..], k, v);
      assert Keys(d) == [d[0].0] + Keys(d[1..]);
      assert Keys([d[0]] + rest) == [d[0].0] + Keys(rest);
      assert d == [d[0]] + d[1..];
      [d[0]] + rest
  }

  /** `d.update(entries)`, and with `d` empty the dict display `{k: v, …}`: the entries set
      one after another. */
  function Update(d: Record, entries: Record): Record
    decreases |entries|
  {
    if entries == [] then d else Update(Put(d, entries[0].0, entries[0].1), entries[1..])
  }

  /** Setting fresh, distinct keys appends the entries in order. */
  lemma {:induction false} UpdateFresh(d: Record, entries: Record)
    requires NoDuplicates(Keys(entries))
    requires forall k :: k in Keys(entries) ==> k !in Keys(d)
    ensures Update(d, entries) == d + entries
    decreases |entries|
  {
    if entries != [] {
      var (k, v) := entries[0];
      var rest := entries[1..];
      assert Keys(entries)[0] == k;
      assert Keys(rest) == Keys(entries)[1..];
      assert k !in Keys(rest) by {
        forall i | 0 <= i < |Keys(rest)|
          ensures Keys(rest)[i] != k
        {
          assert Keys(rest)[i] == Keys(entries)[i + 1];
        }
      }
      var d' := d + [(k, v)];
      assert Keys(d') == Keys(d) + [k];
      forall j | j in Keys(rest)
        ensures j !in Keys(d')
      {
        var i :| 0 <= i < |Keys(rest)| && Keys(rest)[i] == j;
        assert Keys(entries)[i + 1] == j;
      }
      UpdateFresh(d', rest);
      assert d' + rest == d + entries;
    }
  }

  /** Looking up the key of an entry finds it, when keys are not repeated. */
  lemma {:induction false} GetAt(d: Record, i: nat)
    requires NoDuplicates(Keys(d)) && i < |d|
    ensures Get(d, d[i].0) == Some(d[i].1)
  {
    if i > 0 {
      assert Keys(d)[0] != Keys(d)[i];
      assert Keys(d[1..]) == Keys(d)[1..];
      GetAt(d[1..], i - 1);
    }
  }

  lemma GetEntry(d: Record, i: nat, k: Field, v: Value)
    requires NoDuplicates(Keys(d)) && i < |d| && d[i] == (k, v)
    ensures Get(d, k) == Some(v)
  {
    GetAt(d, i);
  }

  /** A key that was never set is not found. */
  lemma {:induction false} GetAbsent(d: Record, k: Field)
    requires k !in Keys(d)
    ensures Get(d, k) == None
  {
    if d != [] {
      assert Keys(d)[0] == d[0].0;
      assert Keys(d[1..]) == Keys(d)[1..];
      GetAbsent(d[1..], k);
    }
  }

  /** `Path(p).name`, or `None` without a path. */
  function NameOrNone(p: Option<Path>): Value {
    if p.Some? then Str(BaseName(p.value)) else NoneValue
  }

  /** The keys every record has, in order. */
  const ImageKeys: seq<Field> :=
    [ImageName, WidthPx, HeightPx, NumChannels, SourceFile, RecoveryFile, Recovered]

  /** The keys added for an image read from an acquisition, in order. */
  const AcquisitionKeys: seq<Field> :=
    [AcquisitionId, AcquisitionDescription, AcquisitionStartXUm, AcquisitionStartYUm,
     AcquisitionEndXUm, AcquisitionEndYUm, AcquisitionWidthUm, AcquisitionHeightUm]

  /** The image entries: names of the files and the shape `(channels, height, width)`. */
  function ImageEntries(mcdTxtFile: Path, img: Image, recoveryFile: Option<Path>, recovered: bool,
                        imgFile: Path): Record
  {
    [(ImageName, Str(BaseName(imgFile))),
     (WidthPx, Int(img.width)),
     (HeightPx, Int(img.height)),
     (NumChannels, Int(|img.planes|)),
     (SourceFile, Str(BaseName(mcdTxtFile))),
     (RecoveryFile, NameOrNone(recoveryFile)),
     (Recovered, Bool(recovered))]
  }

  /** The acquisition entries: its start is the first region corner, its end the third. */
  function AcquisitionEntries(a: Acquisition): Record
    requires |a.roiPointsUm| >= 3
  {
    [(AcquisitionId, Int(a.id)),
     (AcquisitionDescription, Str(a.description)),
     (AcquisitionStartXUm, Real(a.roiPointsUm[0].x)),
     (AcquisitionStartYUm, Real(a.roiPointsUm[0].y)),
     (AcquisitionEndXUm, Real(a.roiPointsUm[2].x)),
     (AcquisitionEndYUm, Real(a.roiPointsUm[2].y)),
     (AcquisitionWidthUm, Real(a.widthUm)),
     (AcquisitionHeightUm, Real(a.heightUm))]
  }

  /** `create_image_info`; the corners are read first corner first, so too few of them fail
      at index 0 or at index 2. */
  function CreateImageInfo(mcdTxtFile: Path, acquisition: Option<Acquisition>, img: Image,
                           recoveryFile: Option<Path>, recovered: bool, imgFile: Path): (r: Result<Record, InfoError>)
    ensures r.Err? <==> acquisition.Some? && |acquisition.value.roiPointsUm| < 3
    ensures r.Err? ==> r.error == RoiIndexError(if |acquisition.value.roiPointsUm| == 0 then 0 else 2)
  {
    var row := Update([], ImageEntries(mcdTxtFile, img, recoveryFile, recovered, imgFile));
    if acquisition.None? then Ok(row)
    else if |acquisition.value.roiPointsUm| == 0 then Err(RoiIndexError(0))
    else if |acquisition.value.roiPointsUm| < 3 then Err(RoiIndexError(2))
    else Ok(Update(row, AcquisitionEntries(acquisition.value)))
  }

  /** The position of a key among all the keys. */
  function Ordinal(f: Field): nat {
    match f
    case ImageName => 0
    case WidthPx => 1
    case HeightPx => 2
    case NumChannels => 3
    case SourceFile => 4
    case RecoveryFile => 5
    case Recovered => 6
    case AcquisitionId => 7
    case AcquisitionDescription => 8
    case AcquisitionStartXUm => 9
    case AcquisitionStartYUm => 10
    case AcquisitionEndXUm => 11
    case AcquisitionEndYUm => 12
    case AcquisitionWidthUm => 13
    case AcquisitionHeightUm => 14
  }

  /** Listed by position, the keys are all different. */
  lemma AllKeysDistinct()
    ensures NoDuplicates(ImageKeys + AcquisitionKeys) && NoDuplicates(ImageKeys)
  {
    var all := ImageKeys + AcquisitionKeys;
    assert forall i :: 0 <= i < |all| ==> Ordinal(all[i]) == i;
    assert forall i :: 0 <= i < |ImageKeys| ==> Ordinal(ImageKeys[i]) == i;
  }

  lemma ImageRow(mcdTxtFile: Path, img: Image, recoveryFile: Option<Path>, recovered: bool, imgFile: Path)
    ensures var entries := ImageEntries(mcdTxtFile, img, recoveryFile, recovered, imgFile);
      Update([], entries) == entries && Keys(entries) == ImageKeys
  {
    var entries := ImageEntries(mcdTxtFile, img, recoveryFile, recovered, imgFile);
    assert Keys(entries) == ImageKeys;
    UpdateFresh([], entries);
    assert [] + entries == entries;
  }

  lemma AcquisitionRow(row: Record, a: Acquisition)
    requires |a.roiPointsUm| >= 3 && Keys(row) == ImageKeys
    ensures Update(row, AcquisitionEntries(a)) == row + AcquisitionEntries(a)
    ensures Keys(row + AcquisitionEntries(a)) == ImageKeys + AcquisitionKeys
  {
    var more := AcquisitionEntries(a);
    assert Keys(more) == AcquisitionKeys;
    UpdateFresh(row, more);
  }

  /** The record is the image entries followed, exactly when an acquisition is given, by the
      acquisition entries: no key is set twice, so every one is new and goes last. */
  lemma ImageInfoRecord(mcdTxtFile: Path, acquisition: Option<Acquisition>, img: Image,
                        recoveryFile: Option<Path>, recovered: bool, imgFile: Path)
    requires CreateImageInfo(mcdTxtFile, acquisition, img, recoveryFile, recovered, imgFile).Ok?
    ensures var d := CreateImageInfo(mcdTxtFile, acquisition, img, recoveryFile, recovered, imgFile).value;
      var entries := ImageEntries(mcdTxtFile, img, recoveryFile, recovered, imgFile);
      d == entries + (if acquisition.Some? then AcquisitionEntries(acquisition.value) else []) &&
      Keys(d) == ImageKeys + (if acquisition.Some? then AcquisitionKeys else []) &&
      NoDuplicates(Keys(d))
  {
    var entries := ImageEntries(mcdTxtFile, img, recoveryFile, recovered, imgFile);
    ImageRow(mcdTxtFile, img, recoveryFile, recovered, imgFile);
    AllKeysDistinct();
    if acquisition.Some? {
      AcquisitionRow(entries, acquisition.value);
    } else {
      assert entries + [] == entries;
    }
  }

  /** Shape and file names: the width is the last dimension, the height the middle one, the
      channel count the first; the files appear by base name, the recovery file as `None`
      when there is none. */
  lemma ImageInfoImage(mcdTxtFile: Path, acquisition: Option<Acquisition>, img: Image,
                       recoveryFile: Option<Path>, recovered: bool, imgFile: Path)
    requires CreateImageInfo(mcdTxtFile, acquisition, img, recoveryFile, recovered, imgFile).Ok?
    ensures var d := CreateImageInfo(mcdTxtFile, acquisition, img, recoveryFile, recovered, imgFile).value;
      Get(d, ImageName) == Some(Str(BaseName(imgFile))) &&
      Get(d, WidthPx) == Some(Int(img.width)) &&
      Get(d, HeightPx) == Some(Int(img.height)) &&
      Get(d, NumChannels) == Some(Int(|img.planes|)) &&
      Get(d, SourceFile) == Some(Str(BaseName(mcdTxtFile))) &&
      Get(d, RecoveryFile) == Some(if recoveryFile.Some? then Str(BaseName(recoveryFile.value)) else NoneValue) &&
      Get(d, Recovered) == Some(Bool(recovered))
  {
    var d := CreateImageInfo(mcdTxtFile, acquisition, img, recoveryFile, recovered, imgFile).value;
    ImageInfoRecord(mcdTxtFile, acquisition, img, recoveryFile, recovered, imgFile);
    GetEntry(d, 0, ImageName, Str(BaseName(imgFile)));
    GetEntry(d, 1, WidthPx, Int(img.width));
    GetEntry(d, 2, HeightPx, Int(img.height));
    GetEntry(d, 3, NumChannels, Int(|img.planes|));
    GetEntry(d, 4, SourceFile, Str(BaseName(mcdTxtFile)));
    GetEntry(d, 5, RecoveryFile, NameOrNone(recoveryFile));
    GetEntry(d, 6, Recovered, Bool(recovered));
  }

  /** Looking up the acquisition keys of a record that ends with the acquisition entries. */
  lemma AcquisitionGets(d: Record, a: Acquisition)
    requires |a.roiPointsUm| >= 3 && |d| == 15 && NoDuplicates(Keys(d))
    requires d[7..] == AcquisitionEntries(a)
    ensures Get(d, AcquisitionId) == Some(Int(a.id))
    ensures Get(d, AcquisitionDescription) == Some(Str(a.description))
    ensures Get(d, AcquisitionStartXUm) == Some(Real(a.roiPointsUm[0].x))
    ensures Get(d, AcquisitionStartYUm) == Some(Real(a.roiPointsUm[0].y))
    ensures Get(d, AcquisitionEndXUm) == Some(Real(a.roiPointsUm[2].x))
    ensures Get(d, AcquisitionEndYUm) == Some(Real(a.roiPointsUm[2].y))
    ensures Get(d, AcquisitionWidthUm) == Some(Real(a.widthUm))
    ensures Get(d, AcquisitionHeightUm) == Some(Real(a.heightUm))
  {
    var e := AcquisitionEntries(a);
    assert forall i :: 0 <= i < 8 ==> d[7 + i] == e[i];
    GetEntry(d, 7, AcquisitionId, Int(a.id));
    GetEntry(d, 8, AcquisitionDescription, Str(a.description));
    GetEntry(d, 9, AcquisitionStartXUm, Real(a.roiPointsUm[0].x));
    GetEntry(d, 10, AcquisitionStartYUm, Real(a.roiPointsUm[0].y));
    GetEntry(d, 11, AcquisitionEndXUm, Real(a.roiPointsUm[2].x));
    GetEntry(d, 12, AcquisitionEndYUm, Real(a.roiPointsUm[2].y));
    GetEntry(d, 13, AcquisitionWidthUm, Real(a.widthUm));
    GetEntry(d, 14, AcquisitionHeightUm, Real(a.heightUm));
  }

  /** The acquisition fields: its id and description, the first and third region corners as
      start and end, its size; none of them without an acquisition. */
  lemma ImageInfoAcquisition(mcdTxtFile: Path, acquisition: Option<Acquisition>, img: Image,
                             recoveryFile: Option<Path>, recovered: bool, imgFile: Path)
    requires CreateImageInfo(mcdTxtFile, acquisition, img, recoveryFile, recovered, imgFile).Ok?
    ensures var d := CreateImageInfo(mcdTxtFile, acquisition, img, recoveryFile, recovered, imgFile).value;
      acquisition.None? ==> forall k :: k in AcquisitionKeys ==> Get(d, k) == None
    ensures var d := CreateImageInfo(mcdTxtFile, acquisition, img, recoveryFile, recovered, imgFile).value;
      acquisition.Some? ==>
        var a := acquisition.value;
        Get(d, AcquisitionId) == Some(Int(a.id)) &&
        Get(d, AcquisitionDescription) == Some(Str(a.description)) &&
        Get(d, AcquisitionStartXUm) == Some(Real(a.roiPointsUm[0].x)) &&
        Get(d, AcquisitionStartYUm) == Some(Real(a.roiPointsUm[0].y)) &&
        Get(d, AcquisitionEndXUm) == Some(Real(a.roiPointsUm[2].x)) &&
        Get(d, AcquisitionEndYUm) == Some(Real(a.roiPointsUm[2].y)) &&
        Get(d, AcquisitionWidthUm) == Some(Real(a.widthUm)) &&
        Get(d, AcquisitionHeightUm) == Some(Real(a.heightUm))
  {
    var d := CreateImageInfo(mcdTxtFile, acquisition, img, recoveryFile, recovered, imgFile).value;
    ImageInfoRecord(mcdTxtFile, acquisition, img, recoveryFile, recovered, imgFile);
    if acquisition.None? {
      forall k | k in AcquisitionKeys
        ensures Get(d, k) == None
      {
        GetAbsent(d, k);
      }
    } else {
      var entries := ImageEntries(mcdTxtFile, img, recoveryFile, recovered, imgFile);
      assert d[|entries|..] == AcquisitionEntries(acquisition.value);
      AcquisitionGets(d, acquisition.value);
    }
  }
}
