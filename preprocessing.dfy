/** `try_preprocess_images_from_disk`: which images are produced from a set of MCD files and
    txt exports, and which txt export stands in for a failed MCD read. */
module Preprocessing {
  import opened Wrappers
  import opened Strings
  import opened Seqs
  import opened Sorting
  import opened Paths
  import opened Channels
  import opened TxtMatching
  import opened Readers

  /** One generated tuple `(source, acquisition, img, recovery_file, recovered)`; the image is
      the channel selection, before hot-pixel filtering and type conversion. */
  datatype Yielded = Yielded(
    source: Path,
    acquisition: Option<Acquisition>,
    image: Image,
    recovery: Option<Path>,
    recovered: bool)

  /** What one acquisition of an MCD file comes to: a tuple, nothing (`continue`), or an
      exception that ends the work on the whole MCD file (the bare `except:`). */
  datatype AcquisitionOutcome = Yield(record: Yielded) | Skip | Abort

  /** The worklist state between steps: what was generated, and the txt files still unmatched. */
  datatype Phase = Phase(records: seq<Yielded>, unmatched: seq<Path>)

  /** The key order of `sorted(mcd_files, key=stem, reverse=True)`. */
  function StemDescending(): (Path, Path) -> bool {
    (a: Path, b: Path) => LexLe(FileStem(b), FileStem(a))
  }

  lemma StemDescendingIsTotalPreorder()
    ensures IsTotalPreorder(StemDescending())
  {
    forall a: Path, b: Path ensures StemDescending()(a, b) || StemDescending()(b, a) {
      LexLeTotal(FileStem(a), FileStem(b));
    }
    forall a: Path, b: Path, c: Path | StemDescending()(a, b) && StemDescending()(b, c)
      ensures StemDescending()(a, c)
    {
      LexLeTransitive(FileStem(c), FileStem(b), FileStem(a));
    }
  }

  /** `_get_channel_indices` when channel names are requested; nothing to look up otherwise. */
  function LookupChannels(channels: seq<string>, channelNames: Option<seq<string>>): Option<Lookup> {
    if channelNames.Some? then Some(ChannelIndices(channels, channelNames.value)) else None
  }

  /** Lines 283-295 for an image already obtained: select the channels and generate the tuple. */
  function Emit(mcd: Path, acq: Acquisition, img: Image, ind: Option<seq<nat>>,
                matched: Option<Path>, recovered: bool): AcquisitionOutcome
  {
    if ind.None? then Yield(Yielded(mcd, Some(acq), img, matched, recovered))
    else match SelectChannels(img, ind.value)
      case None => Abort
      case Some(sel) => Yield(Yielded(mcd, Some(acq), sel, matched, recovered))
  }

  /** Lines 238-295 for one acquisition whose txt match was `matched`. */
  function ProcessAcquisition(mcd: Path, stored: StoredAcquisition, matched: Option<Path>,
                              channelNames: Option<seq<string>>, readTxt: Path -> TxtOutcome): AcquisitionOutcome
  {
    var acq := stored.acquisition;
    var lookup := LookupChannels(acq.channelNames, channelNames);
    if lookup.Some? && lookup.value.Missing? then Skip
    else
      var ind := if lookup.Some? then Some(lookup.value.indices) else None;
      match stored.read
      case ImageOk(img) => Emit(mcd, acq, img, ind, matched, false)
      case ImageFailed(OtherError) => Abort
      case ImageFailed(IOError) =>
        if matched.None? then Skip
        else match readTxt(matched.value)
          case TxtUnreadable(IOError) => Skip
          case TxtUnreadable(OtherError) => Abort
          case TxtOpened(txtChannels, _, txtRead) =>
            match txtRead
            case ImageFailed(IOError) => Skip
            case ImageFailed(OtherError) => Abort
            case ImageOk(img) =>
              var txtLookup := LookupChannels(txtChannels, channelNames);
              if txtLookup.None? then Emit(mcd, acq, img, None, matched, true)
              else if txtLookup.value.Missing? then Skip
              else Emit(mcd, acq, img, Some(txtLookup.value.indices), matched, true)
  }

  /** The worklist after matching: a matched txt file is removed before anything is read. */
  function AfterMatch(unmatched: seq<Path>, matched: Option<Path>): seq<Path> {
    if matched.Some? then RemoveFirst(unmatched, matched.value) else unmatched
  }

  /** The tuple an outcome contributes, if any. */
  function Yields(o: AcquisitionOutcome): seq<Yielded> {
    if o.Yield? then [o.record] else []
  }

  /** The acquisitions of one opened MCD file, from the first to an exception (in matching or
      in reading) or the end. */
  function AcquisitionsPhase(mcd: Path, acqs: seq<StoredAcquisition>, unmatched: seq<Path>,
                             kind: PathKind, channelNames: Option<seq<string>>, readTxt: Path -> TxtOutcome): Phase
  {
    if acqs == [] then Phase([], unmatched)
    else if AmbiguousMatchRaises(kind, mcd, acqs[0].acquisition.id, unmatched) then Phase([], unmatched)
    else
      var matched := MatchTxtFile(mcd, acqs[0].acquisition.id, unmatched);
      var rest := AfterMatch(unmatched, matched);
      var o := ProcessAcquisition(mcd, acqs[0], matched, channelNames, readTxt);
      if o.Abort? then Phase([], rest)
      else
        var tail := AcquisitionsPhase(mcd, acqs[1..], rest, kind, channelNames, readTxt);
        Phase(Yields(o) + tail.records, tail.unmatched)
  }

  /** One MCD file: nothing if it cannot be opened, else its acquisitions. */
  function McdFilePhase(mcd: Path, unmatched: seq<Path>, kind: PathKind, channelNames: Option<seq<string>>,
                        readMcd: Path -> McdOutcome, readTxt: Path -> TxtOutcome): Phase
  {
    match readMcd(mcd)
    case McdUnreadable => Phase([], unmatched)
    case McdOpened(acqs) => AcquisitionsPhase(mcd, acqs, unmatched, kind, channelNames, readTxt)
  }

  /** The MCD files in the order given, threading the worklist through. */
  function McdFilesPhase(mcds: seq<Path>, unmatched: seq<Path>, kind: PathKind, channelNames: Option<seq<string>>,
                         readMcd: Path -> McdOutcome, readTxt: Path -> TxtOutcome): Phase
  {
    if mcds == [] then Phase([], unmatched)
    else
      var first := McdFilePhase(mcds[0], unmatched, kind, channelNames, readMcd, readTxt);
      var tail := McdFilesPhase(mcds[1..], first.unmatched, kind, channelNames, readMcd, readTxt);
      Phase(first.records + tail.records, tail.unmatched)
  }

  /** Lines 300-319 for one leftover txt file: a tuple without acquisition or recovery file, or
      nothing when the file raises or lacks a requested channel. */
  function ProcessLeftover(txt: Path, channelNames: Option<seq<string>>,
                           readTxt: Path -> TxtOutcome): Option<Yielded>
  {
    match readTxt(txt)
    case TxtUnreadable(_) => None
    case TxtOpened(channels, _, read) =>
      var lookup := LookupChannels(channels, channelNames);
      if lookup.Some? && lookup.value.Missing? then None
      else match read
        case ImageFailed(_) => None
        case ImageOk(img) =>
          if lookup.None? then Some(Yielded(txt, None, img, None, false))
          else match SelectChannels(img, lookup.value.indices)
            case None => None
            case Some(sel) => Some(Yielded(txt, None, sel, None, false))
  }

  /** The leftover txt files, front to back. */
  function LeftoversPhase(unmatched: seq<Path>, channelNames: Option<seq<string>>,
                          readTxt: Path -> TxtOutcome): seq<Yielded>
  {
    if unmatched == [] then []
    else
      var head := ProcessLeftover(unmatched[0], channelNames, readTxt);
      (if head.Some? then [head.value] else []) + LeftoversPhase(unmatched[1..], channelNames, readTxt)
  }

  /** Everything `try_preprocess_images_from_disk` generates, in order. */
  function PreprocessedImages(mcdFiles: seq<Path>, txtFiles: seq<Path>, kind: PathKind, channelNames: Option<seq<string>>,
                              readMcd: Path -> McdOutcome, readTxt: Path -> TxtOutcome): seq<Yielded>
  {
    var mcd := McdFilesPhase(SortBy(mcdFiles, StemDescending()), txtFiles, kind, channelNames, readMcd, readTxt);
    mcd.records + LeftoversPhase(mcd.unmatched, channelNames, readTxt)
  }

  /** Lines 238-295 with the variables `channel_ind`, `img` and `recovered` of the source. */
  method ReadAcquisition(mcd: Path, stored: StoredAcquisition, matched: Option<Path>,
                         channelNames: Option<seq<string>>, readTxt: Path -> TxtOutcome)
    returns (outcome: AcquisitionOutcome)
    ensures outcome == ProcessAcquisition(mcd, stored, matched, channelNames, readTxt)
  {
    var acq := stored.acquisition;
    var channelInd: Option<seq<nat>> := None;
    if channelNames.Some? {
      var lookup := GetChannelIndices(acq.channelNames, channelNames.value);
      if lookup.Missing? {
        return Skip;
      }
      channelInd := Some(lookup.indices);
    }
    var img: Option<Image> := None;
    var recovered := false;
    match stored.read {
      case ImageOk(i) =>
        img := Some(i);
      case ImageFailed(kind) =>
        if kind == OtherError {
          return Abort;
        }
        if matched.Some? {
          match readTxt(matched.value) {
            case TxtUnreadable(txtKind) =>
              if txtKind == OtherError {
                return Abort;
              }
            case TxtOpened(txtChannels, _, txtRead) =>
              match txtRead {
                case ImageFailed(readKind) =>
                  if readKind == OtherError {
                    return Abort;
                  }
                case ImageOk(i) =>
                  img := Some(i);
                  if channelNames.Some? {
                    var lookup := GetChannelIndices(txtChannels, channelNames.value);
                    if lookup.Missing? {
                      return Skip;
                    }
                    channelInd := Some(lookup.indices);
                  }
                  recovered := true;
              }
          }
        }
    }
    if img.None? {
      return Skip;
    }
    var image := img.value;
    if channelInd.Some? {
      var sel := SelectChannels(image, channelInd.value);
      if sel.None? {
        return Abort;
      }
      image := sel.value;
    }
    outcome := Yield(Yielded(mcd, Some(acq), image, matched, recovered));
  }

  /** Lines 233-237 and then the acquisition itself: find the txt match (an ambiguous match of
      `Path` objects raises and ends the MCD file), take it off the
      worklist, read. */
  method MatchAndReadAcquisition(mcd: Path, stored: StoredAcquisition, unmatched0: seq<Path>,
                                 kind: PathKind, channelNames: Option<seq<string>>, readTxt: Path -> TxtOutcome)
    returns (outcome: AcquisitionOutcome, unmatched: seq<Path>)
    ensures AmbiguousMatchRaises(kind, mcd, stored.acquisition.id, unmatched0) ==>
      outcome == Abort && unmatched == unmatched0
    ensures !AmbiguousMatchRaises(kind, mcd, stored.acquisition.id, unmatched0) ==>
      var matched := MatchTxtFile(mcd, stored.acquisition.id, unmatched0);
      outcome == ProcessAcquisition(mcd, stored, matched, channelNames, readTxt) &&
      unmatched == AfterMatch(unmatched0, matched)
  {
    if AmbiguousMatchRaises(kind, mcd, stored.acquisition.id, unmatched0) {
      return Abort, unmatched0;
    }
    var matched := MatchTxtFile(mcd, stored.acquisition.id, unmatched0);
    unmatched := unmatched0;
    if matched.Some? {
      unmatched := RemoveFirst(unmatched, matched.value);
    }
    outcome := ReadAcquisition(mcd, stored, matched, channelNames, readTxt);
  }

  /** One turn of the acquisition loop, stated as the step it takes in `AcquisitionsPhase`. */
  method AcquisitionStep(mcd: Path, acqs: seq<StoredAcquisition>, unmatched0: seq<Path>,
                         kind: PathKind, channelNames: Option<seq<string>>, readTxt: Path -> TxtOutcome)
    returns (outcome: AcquisitionOutcome, unmatched: seq<Path>)
    requires acqs != []
    ensures var here := AcquisitionsPhase(mcd, acqs, unmatched0, kind, channelNames, readTxt);
      var tail := AcquisitionsPhase(mcd, acqs[1..], unmatched, kind, channelNames, readTxt);
      if outcome.Abort? then here == Phase([], unmatched)
      else here == Phase(Yields(outcome) + tail.records, tail.unmatched)
  {
    outcome, unmatched := MatchAndReadAcquisition(mcd, acqs[0], unmatched0, kind, channelNames, readTxt);
  }

  /** Lines 231-296 for one opened MCD file: each acquisition is matched against the
      worklist, its match removed, then read; an exception ends the file. */
  method ReadMcdAcquisitions(mcd: Path, acqs: seq<StoredAcquisition>, unmatched0: seq<Path>,
                             kind: PathKind, channelNames: Option<seq<string>>, readTxt: Path -> TxtOutcome)
    returns (records: seq<Yielded>, unmatched: seq<Path>)
    ensures Phase(records, unmatched) == AcquisitionsPhase(mcd, acqs, unmatched0, kind, channelNames, readTxt)
  {
    ghost var target := AcquisitionsPhase(mcd, acqs, unmatched0, kind, channelNames, readTxt);
    unmatched := unmatched0;
    records := [];
    var pending := acqs;
    while pending != []
      invariant records + AcquisitionsPhase(mcd, pending, unmatched, kind, channelNames, readTxt).records == target.records
      invariant AcquisitionsPhase(mcd, pending, unmatched, kind, channelNames, readTxt).unmatched == target.unmatched
      decreases |pending|
    {
      var outcome;
      outcome, unmatched := AcquisitionStep(mcd, pending, unmatched, kind, channelNames, readTxt);
      pending := pending[1..];
      ghost var tail := AcquisitionsPhase(mcd, pending, unmatched, kind, channelNames, readTxt);
      if outcome.Abort? {
        assert records + [] == records;
        return;
      }
      ConcatAssociative(records, Yields(outcome), tail.records);
      records := records + Yields(outcome);
    }
  }

  /** Lines 301-319 for one txt file popped from the worklist. */
  method ReadLeftover(txtFile: Path, channelNames: Option<seq<string>>, readTxt: Path -> TxtOutcome)
    returns (r: Option<Yielded>)
    ensures r == ProcessLeftover(txtFile, channelNames, readTxt)
  {
    match readTxt(txtFile) {
      case TxtUnreadable(_) =>
        return None;
      case TxtOpened(channels, _, read) =>
        var channelInd: Option<seq<nat>> := None;
        if channelNames.Some? {
          var lookup := GetChannelIndices(channels, channelNames.value);
          if lookup.Missing? {
            return None;
          }
          channelInd := Some(lookup.indices);
        }
        if read.ImageFailed? {
          return None;
        }
        var image := read.image;
        if channelInd.Some? {
          var sel := SelectChannels(image, channelInd.value);
          if sel.None? {
            return None;
          }
          image := sel.value;
        }
        return Some(Yielded(txtFile, None, image, None, false));
    }
  }

  /** Lines 230-298 for one MCD file: nothing when it cannot be opened, else its acquisitions. */
  method ReadMcdFile(mcd: Path, unmatched0: seq<Path>, kind: PathKind, channelNames: Option<seq<string>>,
                     readMcd: Path -> McdOutcome, readTxt: Path -> TxtOutcome)
    returns (records: seq<Yielded>, unmatched: seq<Path>)
    ensures Phase(records, unmatched) == McdFilePhase(mcd, unmatched0, kind, channelNames, readMcd, readTxt)
  {
    match readMcd(mcd) {
      case McdUnreadable =>
        records, unmatched := [], unmatched0;
      case McdOpened(acqs) =>
        records, unmatched := ReadMcdAcquisitions(mcd, acqs, unmatched0, kind, channelNames, readTxt);
    }
  }

  /** Lines 226-298: the MCD files in the given order, each one's acquisitions taking their
      matches off the worklist. */
  method ReadMcdFiles(mcds: seq<Path>, txtFiles: seq<Path>, kind: PathKind, channelNames: Option<seq<string>>,
                      readMcd: Path -> McdOutcome, readTxt: Path -> TxtOutcome)
    returns (records: seq<Yielded>, unmatched: seq<Path>)
    ensures Phase(records, unmatched) == McdFilesPhase(mcds, txtFiles, kind, channelNames, readMcd, readTxt)
  {
    ghost var target := McdFilesPhase(mcds, txtFiles, kind, channelNames, readMcd, readTxt);
    unmatched := txtFiles;
    records := [];
    var f := 0;
    while f < |mcds|
      invariant 0 <= f <= |mcds|
      invariant records + McdFilesPhase(mcds[f..], unmatched, kind, channelNames, readMcd, readTxt).records == target.records
      invariant McdFilesPhase(mcds[f..], unmatched, kind, channelNames, readMcd, readTxt).unmatched == target.unmatched
    {
      assert mcds[f..][1..] == mcds[f + 1..];
      ghost var here := McdFilesPhase(mcds[f..], unmatched, kind, channelNames, readMcd, readTxt);
      var fileRecords;
      fileRecords, unmatched := ReadMcdFile(mcds[f], unmatched, kind, channelNames, readMcd, readTxt);
      ghost var tail := McdFilesPhase(mcds[f + 1..], unmatched, kind, channelNames, readMcd, readTxt);
      assert here == Phase(fileRecords + tail.records, tail.unmatched);
      ConcatAssociative(records, fileRecords, tail.records);
      assert (records + fileRecords) + tail.records == target.records;
      records := records + fileRecords;
      f := f + 1;
    }
    assert mcds[f..] == [];
  }

  /** Lines 299-319: pop txt files from the front of the worklist until it is empty. */
  method ReadLeftovers(unmatched0: seq<Path>, channelNames: Option<seq<string>>, readTxt: Path -> TxtOutcome)
    returns (records: seq<Yielded>)
    ensures records == LeftoversPhase(unmatched0, channelNames, readTxt)
  {
    var unmatched := unmatched0;
    records := [];
    while |unmatched| > 0
      invariant records + LeftoversPhase(unmatched, channelNames, readTxt)
             == LeftoversPhase(unmatched0, channelNames, readTxt)
    {
      var txtFile := unmatched[0];
      ghost var before := unmatched;
      unmatched := unmatched[1..];
      assert before == [txtFile] + unmatched;
      var r := ReadLeftover(txtFile, channelNames, readTxt);
      ghost var rest := LeftoversPhase(unmatched, channelNames, readTxt);
      if r.Some? {
        ConcatAssociative(records, [r.value], rest);
        records := records + [r.value];
      } else {
        assert [] + rest == rest;
      }
    }
    assert records + [] == records;
  }

  /** Lines 223-319: the MCD files in descending stem order with the `unmatched_txt_files`
      worklist, then the leftover txt files popped from its front. */
  method TryPreprocessImagesFromDisk(mcdFiles: seq<Path>, txtFiles: seq<Path>,
                                     kind: PathKind, channelNames: Option<seq<string>>,
                                     readMcd: Path -> McdOutcome, readTxt: Path -> TxtOutcome)
    returns (out: seq<Yielded>)
    ensures out == PreprocessedImages(mcdFiles, txtFiles, kind, channelNames, readMcd, readTxt)
  {
    var mcds := SortBy(mcdFiles, StemDescending());
    var mcdRecords, unmatched := ReadMcdFiles(mcds, txtFiles, kind, channelNames, readMcd, readTxt);
    var leftovers := ReadLeftovers(unmatched, channelNames, readTxt);
    out := mcdRecords + leftovers;
  }
}
