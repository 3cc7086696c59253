/** What `try_preprocess_images_from_disk` guarantees about the tuples it generates: where each
    one comes from, which txt file it claims, and the order they come in. */
module PreprocessingFacts {
  import opened Wrappers
  import opened Strings
  import opened Seqs
  import opened Sorting
  import opened Paths
  import opened Channels
  import opened TxtMatching
  import opened Readers
  import opened Preprocessing

  /** An image after `img[channel_ind, :, :]`, stated on the lookup result: untouched when no
      channels are requested, nothing when a requested channel is missing or out of range. */
  function ChannelsOf(img: Image, lookup: Option<Lookup>): Option<Image> {
    match lookup
    case None => Some(img)
    case Some(Missing(_)) => None
    case Some(Indices(ix)) => SelectChannels(img, ix)
  }

  /** The image a txt export supplies as a stand-in, channels selected by its own header. */
  function RecoveredImage(txt: TxtOutcome, channelNames: Option<seq<string>>): Option<Image> {
    match txt
    case TxtOpened(channels, _, ImageOk(img)) => ChannelsOf(img, LookupChannels(channels, channelNames))
    case _ => None
  }

  /** The requested channels of a selected image, in request order, each from the first
      channel of that name. */
  lemma ChannelsOfMeaning(img: Image, channels: seq<string>, requested: seq<string>)
    ensures var r := ChannelsOf(img, LookupChannels(channels, Some(requested)));
      r.Some? ==>
        (forall k :: 0 <= k < |requested| ==> requested[k] in channels) &&
        |r.value.planes| == |requested| && r.value.height == img.height && r.value.width == img.width &&
        forall k :: 0 <= k < |requested| ==>
          IndexOf(channels, requested[k]) < |img.planes| &&
          r.value.planes[k] == img.planes[IndexOf(channels, requested[k])]
  {
    var r := ChannelsOf(img, LookupChannels(channels, Some(requested)));
    ChannelIndicesMeaning(channels, requested);
    if r.Some? {
      ChannelIndicesAllPresent(channels, requested);
    }
  }

  /** The rules for one acquisition whose txt match was `matched`: what a generated tuple holds
      and when one is generated. */
  lemma ProcessAcquisitionMeaning(mcd: Path, stored: StoredAcquisition, matched: Option<Path>,
                                  channelNames: Option<seq<string>>, readTxt: Path -> TxtOutcome)
    ensures var o := ProcessAcquisition(mcd, stored, matched, channelNames, readTxt);
      var lookup := LookupChannels(stored.acquisition.channelNames, channelNames);
      (o.Yield? ==>
        o.record.source == mcd && o.record.acquisition == Some(stored.acquisition) &&
        o.record.recovery == matched &&
        (o.record.recovered <==> stored.read.ImageFailed?) &&
        (!o.record.recovered ==>
          stored.read.ImageOk? && ChannelsOf(stored.read.image, lookup) == Some(o.record.image)) &&
        (o.record.recovered ==>
          stored.read == ImageFailed(IOError) && matched.Some? &&
          RecoveredImage(readTxt(matched.value), channelNames) == Some(o.record.image))) &&
      (lookup.Some? && lookup.value.Missing? ==> o == Skip) &&
      (matched.None? && stored.read.ImageFailed? ==> !o.Yield?)
    ensures var o := ProcessAcquisition(mcd, stored, matched, channelNames, readTxt);
      var lookup := LookupChannels(stored.acquisition.channelNames, channelNames);
      var present := !(lookup.Some? && lookup.value.Missing?);
      (present && stored.read.ImageOk? && ChannelsOf(stored.read.image, lookup).Some? ==>
        o == Yield(Yielded(mcd, Some(stored.acquisition), ChannelsOf(stored.read.image, lookup).value,
                           matched, false))) &&
      (present && stored.read == ImageFailed(IOError) && matched.Some? &&
       RecoveredImage(readTxt(matched.value), channelNames).Some? ==>
        o == Yield(Yielded(mcd, Some(stored.acquisition),
                           RecoveredImage(readTxt(matched.value), channelNames).value, matched, true)))
    ensures var o := ProcessAcquisition(mcd, stored, matched, channelNames, readTxt);
      var lookup := LookupChannels(stored.acquisition.channelNames, channelNames);
      var present := !(lookup.Some? && lookup.value.Missing?);
      o.Abort? <==>
        present &&
        (stored.read == ImageFailed(OtherError) ||
         (stored.read.ImageOk? && ChannelsOf(stored.read.image, lookup).None?) ||
         (stored.read == ImageFailed(IOError) && matched.Some? && RecoveryRaises(readTxt(matched.value), channelNames)))
  {
  }

  /** The recovery path raises something other than `IOError`, which the bare `except:`
      around the MCD file catches: opening or reading the txt file fails so, or its
      channels are all named but `img[channel_ind, :, :]` indexes past its planes. */
  predicate RecoveryRaises(txt: TxtOutcome, channelNames: Option<seq<string>>) {
    match txt
    case TxtUnreadable(kind) => kind == OtherError
    case TxtOpened(channels, _, ImageFailed(kind)) => kind == OtherError
    case TxtOpened(channels, _, ImageOk(img)) =>
      var lookup := LookupChannels(channels, channelNames);
      !(lookup.Some? && lookup.value.Missing?) && ChannelsOf(img, lookup).None?
  }

  /** What the first acquisition's outcome does to the rest of its MCD file: an exception
      ends the file, with the matched txt file already off the worklist; a skip goes on with
      the next acquisition; a tuple is generated ahead of the rest. */
  lemma AcquisitionOutcomeStep(mcd: Path, acqs: seq<StoredAcquisition>, unmatched: seq<Path>, kind: PathKind,
                               channelNames: Option<seq<string>>, readTxt: Path -> TxtOutcome)
    requires acqs != [] && !AmbiguousMatchRaises(kind, mcd, acqs[0].acquisition.id, unmatched)
    ensures var matched := MatchTxtFile(mcd, acqs[0].acquisition.id, unmatched);
      var rest := AfterMatch(unmatched, matched);
      var o := ProcessAcquisition(mcd, acqs[0], matched, channelNames, readTxt);
      var here := AcquisitionsPhase(mcd, acqs, unmatched, kind, channelNames, readTxt);
      var tail := AcquisitionsPhase(mcd, acqs[1..], rest, kind, channelNames, readTxt);
      multiset(Claimed(matched)) + multiset(rest) == multiset(unmatched) &&
      (o.Abort? ==> here == Phase([], rest)) &&
      (o.Skip? ==> here == tail) &&
      (o.Yield? ==> here == Phase([o.record] + tail.records, tail.unmatched))
  {
    MatchStep(mcd, acqs[0].acquisition.id, unmatched);
    assert [] + AcquisitionsPhase(mcd, acqs[1..], AfterMatch(unmatched, MatchTxtFile(mcd, acqs[0].acquisition.id, unmatched)),
                                  kind, channelNames, readTxt).records
        == AcquisitionsPhase(mcd, acqs[1..], AfterMatch(unmatched, MatchTxtFile(mcd, acqs[0].acquisition.id, unmatched)),
                             kind, channelNames, readTxt).records;
  }

  /** The rules for one leftover txt file. A leftover is read and its channels selected
      through `RecoveredImage`, exactly as a txt file that stands in for an unreadable MCD
      acquisition (`ProcessAcquisitionMeaning` above): the two paths of the source select channels
      the same way, and differ only in the tuple's MCD fields and its recovery flag. */
  lemma ProcessLeftoverMeaning(txt: Path, channelNames: Option<seq<string>>, readTxt: Path -> TxtOutcome)
    ensures ProcessLeftover(txt, channelNames, readTxt) ==
      if RecoveredImage(readTxt(txt), channelNames).Some?
      then Some(Yielded(txt, None, RecoveredImage(readTxt(txt), channelNames).value, None, false))
      else None
  {
  }

  /** The txt file a tuple claims: its recovery file for an MCD acquisition, the file itself
      for a leftover txt file. */
  function TxtClaim(r: Yielded): seq<Path> {
    if r.acquisition.None? then [r.source]
    else if r.recovery.Some? then [r.recovery.value]
    else []
  }

  function TxtClaims(records: seq<Yielded>): seq<Path> {
    if records == [] then [] else TxtClaim(records[0]) + TxtClaims(records[1..])
  }

  lemma {:induction false} TxtClaimsAppend(a: seq<Yielded>, b: seq<Yielded>)
    ensures TxtClaims(a + b) == TxtClaims(a) + TxtClaims(b)
  {
    if a != [] {
      assert (a + b)[1..] == a[1..] + b;
      TxtClaimsAppend(a[1..], b);
      ConcatAssociative(TxtClaim(a[0]), TxtClaims(a[1..]), TxtClaims(b));
    } else {
      assert a + b == b;
    }
  }

  /** `r` is what the acquisition `stored` of its source file generated, and its recovery file
      is a candidate for that acquisition. */
  ghost predicate YieldedBy(r: Yielded, stored: StoredAcquisition, channelNames: Option<seq<string>>,
                            readTxt: Path -> TxtOutcome)
  {
    ProcessAcquisition(r.source, stored, r.recovery, channelNames, readTxt) == Yield(r) &&
    (r.recovery.Some? ==> IsCandidate(r.source, stored.acquisition.id, r.recovery.value))
  }

  /** `r` comes from one of the acquisitions `acqs`, with a recovery file from `txtFiles`. */
  ghost predicate FromAcquisitions(r: Yielded, acqs: seq<StoredAcquisition>, txtFiles: seq<Path>,
                                   channelNames: Option<seq<string>>, readTxt: Path -> TxtOutcome)
  {
    r.acquisition.Some? && (r.recovery.Some? ==> r.recovery.value in txtFiles) &&
    exists i :: 0 <= i < |acqs| && YieldedBy(r, acqs[i], channelNames, readTxt)
  }

  /** `r` comes from an acquisition of the opened MCD file it names as its source. */
  ghost predicate FromMcdFile(r: Yielded, txtFiles: seq<Path>, channelNames: Option<seq<string>>,
                              readMcd: Path -> McdOutcome, readTxt: Path -> TxtOutcome)
  {
    readMcd(r.source).McdOpened? &&
    FromAcquisitions(r, readMcd(r.source).acquisitions, txtFiles, channelNames, readTxt)
  }

  /** `r` is what the leftover txt file it names generated. */
  ghost predicate FromLeftover(r: Yielded, txtFiles: seq<Path>, channelNames: Option<seq<string>>,
                               readTxt: Path -> TxtOutcome)
  {
    r.acquisition.None? && r.recovery.None? && !r.recovered && r.source in txtFiles &&
    ProcessLeftover(r.source, channelNames, readTxt) == Some(r)
  }

  /** The files a match takes off the worklist. */
  function Claimed(matched: Option<Path>): seq<Path> {
    if matched.Some? then [matched.value] else []
  }

  /** Matching takes at most one file off the worklist, a candidate the worklist held, and
      leaves the order of the rest alone. */
  lemma MatchStep(mcd: Path, id: int, unmatched: seq<Path>)
    ensures var m := MatchTxtFile(mcd, id, unmatched);
      var rest := AfterMatch(unmatched, m);
      IsSubsequence(rest, unmatched) &&
      multiset(Claimed(m)) + multiset(rest) == multiset(unmatched) &&
      (m.Some? ==> m.value in unmatched && IsCandidate(mcd, id, m.value))
  {
    var m := MatchTxtFile(mcd, id, unmatched);
    MatchTxtFileMember(mcd, id, unmatched);
    if m.Some? {
      RemoveFirstIsSubsequence(unmatched, m.value);
    } else {
      SubsequenceReflexive(unmatched);
    }
  }

  /** A tuple generated for an acquisition names its MCD file, the acquisition and the match. */
  lemma ProcessAcquisitionTuple(mcd: Path, stored: StoredAcquisition, matched: Option<Path>,
                                channelNames: Option<seq<string>>, readTxt: Path -> TxtOutcome)
    ensures var o := ProcessAcquisition(mcd, stored, matched, channelNames, readTxt);
      o.Yield? ==>
        o.record.source == mcd && o.record.acquisition == Some(stored.acquisition) && o.record.recovery == matched
  {
    ProcessAcquisitionMeaning(mcd, stored, matched, channelNames, readTxt);
  }

  lemma OneClaim(r: Yielded)
    ensures TxtClaims([r]) == TxtClaim(r)
  {
    assert [r][1..] == [];
  }

  /** The first acquisition's tuple, if any, claims at most its match. */
  lemma FirstAcquisitionClaims(mcd: Path, stored: StoredAcquisition, matched: Option<Path>,
                               channelNames: Option<seq<string>>, readTxt: Path -> TxtOutcome)
    ensures multiset(TxtClaims(Yields(ProcessAcquisition(mcd, stored, matched, channelNames, readTxt))))
         <= multiset(Claimed(matched))
  {
    var o := ProcessAcquisition(mcd, stored, matched, channelNames, readTxt);
    ProcessAcquisitionTuple(mcd, stored, matched, channelNames, readTxt);
    if o.Yield? {
      OneClaim(o.record);
    }
  }

  /** The worklist only shrinks, keeps its order, and loses at least the files claimed. */
  lemma {:induction false} AcquisitionsPhaseWorklist(mcd: Path, acqs: seq<StoredAcquisition>, unmatched: seq<Path>,
                                                     kind: PathKind, channelNames: Option<seq<string>>, readTxt: Path -> TxtOutcome)
    ensures var ph := AcquisitionsPhase(mcd, acqs, unmatched, kind, channelNames, readTxt);
      IsSubsequence(ph.unmatched, unmatched) &&
      multiset(TxtClaims(ph.records)) + multiset(ph.unmatched) <= multiset(unmatched)
    decreases |acqs|
  {
    if acqs == [] || AmbiguousMatchRaises(kind, mcd, acqs[0].acquisition.id, unmatched) {
      SubsequenceReflexive(unmatched);
    } else {
      var matched := MatchTxtFile(mcd, acqs[0].acquisition.id, unmatched);
      var rest := AfterMatch(unmatched, matched);
      var o := ProcessAcquisition(mcd, acqs[0], matched, channelNames, readTxt);
      MatchStep(mcd, acqs[0].acquisition.id, unmatched);
      if !o.Abort? {
        FirstAcquisitionClaims(mcd, acqs[0], matched, channelNames, readTxt);
        AcquisitionsPhaseWorklist(mcd, acqs[1..], rest, kind, channelNames, readTxt);
        var tail := AcquisitionsPhase(mcd, acqs[1..], rest, kind, channelNames, readTxt);
        SubsequenceTransitive(tail.unmatched, rest, unmatched);
        TxtClaimsAppend(Yields(o), tail.records);
      }
    }
  }

  /** A tuple from the later acquisitions, with a recovery file left on the worklist, comes
      from the acquisitions and the worklist before the first was read. */
  lemma FromAcquisitionsTail(r: Yielded, acqs: seq<StoredAcquisition>, rest: seq<Path>, unmatched: seq<Path>,
                             channelNames: Option<seq<string>>, readTxt: Path -> TxtOutcome)
    requires acqs != [] && FromAcquisitions(r, acqs[1..], rest, channelNames, readTxt)
    requires multiset(rest) <= multiset(unmatched)
    ensures FromAcquisitions(r, acqs, unmatched, channelNames, readTxt)
  {
    var i :| 0 <= i < |acqs[1..]| && YieldedBy(r, acqs[1..][i], channelNames, readTxt);
    assert acqs[1..][i] == acqs[i + 1];
    if r.recovery.Some? {
      assert r.recovery.value in multiset(rest);
    }
  }

  /** The tuple of the first acquisition, if any, comes from it. */
  lemma FromFirstAcquisition(mcd: Path, acqs: seq<StoredAcquisition>, unmatched: seq<Path>,
                             channelNames: Option<seq<string>>, readTxt: Path -> TxtOutcome)
    requires acqs != []
    ensures var matched := MatchTxtFile(mcd, acqs[0].acquisition.id, unmatched);
      forall r :: r in Yields(ProcessAcquisition(mcd, acqs[0], matched, channelNames, readTxt)) ==>
        r.source == mcd && FromAcquisitions(r, acqs, unmatched, channelNames, readTxt)
  {
    var matched := MatchTxtFile(mcd, acqs[0].acquisition.id, unmatched);
    var o := ProcessAcquisition(mcd, acqs[0], matched, channelNames, readTxt);
    MatchStep(mcd, acqs[0].acquisition.id, unmatched);
    ProcessAcquisitionTuple(mcd, acqs[0], matched, channelNames, readTxt);
    if o.Yield? {
      assert YieldedBy(o.record, acqs[0], channelNames, readTxt);
    }
  }

  /** Every tuple of one MCD file comes from one of its acquisitions. */
  lemma {:induction false} AcquisitionsPhaseRecords(mcd: Path, acqs: seq<StoredAcquisition>, unmatched: seq<Path>,
                                                    kind: PathKind, channelNames: Option<seq<string>>, readTxt: Path -> TxtOutcome)
    ensures forall r :: r in AcquisitionsPhase(mcd, acqs, unmatched, kind, channelNames, readTxt).records ==>
      r.source == mcd && FromAcquisitions(r, acqs, unmatched, channelNames, readTxt)
    decreases |acqs|
  {
    if acqs != [] && !AmbiguousMatchRaises(kind, mcd, acqs[0].acquisition.id, unmatched) {
      var matched := MatchTxtFile(mcd, acqs[0].acquisition.id, unmatched);
      var rest := AfterMatch(unmatched, matched);
      var o := ProcessAcquisition(mcd, acqs[0], matched, channelNames, readTxt);
      if !o.Abort? {
        MatchStep(mcd, acqs[0].acquisition.id, unmatched);
        FromFirstAcquisition(mcd, acqs, unmatched, channelNames, readTxt);
        AcquisitionsPhaseRecords(mcd, acqs[1..], rest, kind, channelNames, readTxt);
        var tail := AcquisitionsPhase(mcd, acqs[1..], rest, kind, channelNames, readTxt);
        forall r | r in tail.records ensures FromAcquisitions(r, acqs, unmatched, channelNames, readTxt) {
          FromAcquisitionsTail(r, acqs, rest, unmatched, channelNames, readTxt);
        }
      }
    }
  }

  /** Over all MCD files: the worklist shrinks in order and loses at least the claimed files. */
  lemma {:induction false} McdFilesPhaseWorklist(mcds: seq<Path>, unmatched: seq<Path>, kind: PathKind, channelNames: Option<seq<string>>,
                                                 readMcd: Path -> McdOutcome, readTxt: Path -> TxtOutcome)
    ensures var ph := McdFilesPhase(mcds, unmatched, kind, channelNames, readMcd, readTxt);
      IsSubsequence(ph.unmatched, unmatched) &&
      multiset(TxtClaims(ph.records)) + multiset(ph.unmatched) <= multiset(unmatched)
    decreases |mcds|
  {
    if mcds == [] {
      SubsequenceReflexive(unmatched);
    } else {
      var first := McdFilePhase(mcds[0], unmatched, kind, channelNames, readMcd, readTxt);
      match readMcd(mcds[0]) {
        case McdUnreadable =>
          SubsequenceReflexive(unmatched);
        case McdOpened(acqs) =>
          AcquisitionsPhaseWorklist(mcds[0], acqs, unmatched, kind, channelNames, readTxt);
      }
      McdFilesPhaseWorklist(mcds[1..], first.unmatched, kind, channelNames, readMcd, readTxt);
      var tail := McdFilesPhase(mcds[1..], first.unmatched, kind, channelNames, readMcd, readTxt);
      SubsequenceTransitive(tail.unmatched, first.unmatched, unmatched);
      TxtClaimsAppend(first.records, tail.records);
    }
  }

  /** A tuple from an MCD file still comes from it when the txt files allowed are more. */
  lemma FromMcdFileWiden(r: Yielded, small: seq<Path>, big: seq<Path>, channelNames: Option<seq<string>>,
                         readMcd: Path -> McdOutcome, readTxt: Path -> TxtOutcome)
    requires FromMcdFile(r, small, channelNames, readMcd, readTxt)
    requires multiset(small) <= multiset(big)
    ensures FromMcdFile(r, big, channelNames, readMcd, readTxt)
  {
    if r.recovery.Some? {
      assert r.recovery.value in multiset(small);
    }
  }

  /** One MCD file: its tuples come from its acquisitions, and its worklist only loses files. */
  lemma McdFilePhaseRecords(mcd: Path, unmatched: seq<Path>, kind: PathKind, channelNames: Option<seq<string>>,
                            readMcd: Path -> McdOutcome, readTxt: Path -> TxtOutcome)
    ensures multiset(McdFilePhase(mcd, unmatched, kind, channelNames, readMcd, readTxt).unmatched) <= multiset(unmatched)
    ensures forall r :: r in McdFilePhase(mcd, unmatched, kind, channelNames, readMcd, readTxt).records ==>
      r.source == mcd && FromMcdFile(r, unmatched, channelNames, readMcd, readTxt)
  {
    if readMcd(mcd).McdOpened? {
      AcquisitionsPhaseRecords(mcd, readMcd(mcd).acquisitions, unmatched, kind, channelNames, readTxt);
      AcquisitionsPhaseWorklist(mcd, readMcd(mcd).acquisitions, unmatched, kind, channelNames, readTxt);
    }
  }

  /** Every tuple of the MCD pass comes from an acquisition of one of the MCD files. */
  lemma {:induction false} McdFilesPhaseRecords(mcds: seq<Path>, unmatched: seq<Path>, kind: PathKind, channelNames: Option<seq<string>>,
                                                readMcd: Path -> McdOutcome, readTxt: Path -> TxtOutcome)
    ensures forall r :: r in McdFilesPhase(mcds, unmatched, kind, channelNames, readMcd, readTxt).records ==>
      r.source in mcds && FromMcdFile(r, unmatched, channelNames, readMcd, readTxt)
    decreases |mcds|
  {
    if mcds != [] {
      var first := McdFilePhase(mcds[0], unmatched, kind, channelNames, readMcd, readTxt);
      McdFilePhaseRecords(mcds[0], unmatched, kind, channelNames, readMcd, readTxt);
      McdFilesPhaseRecords(mcds[1..], first.unmatched, kind, channelNames, readMcd, readTxt);
      var tail := McdFilesPhase(mcds[1..], first.unmatched, kind, channelNames, readMcd, readTxt);
      forall r | r in tail.records
        ensures r.source in mcds && FromMcdFile(r, unmatched, channelNames, readMcd, readTxt)
      {
        FromMcdFileWiden(r, first.unmatched, unmatched, channelNames, readMcd, readTxt);
        assert r.source in mcds[1..];
      }
    }
  }

  /** Tuples of one file followed by sorted tuples of files whose stems are no greater. */
  lemma StemsDescendConcat(a: seq<Yielded>, b: seq<Yielded>, m: Path, ms: seq<Path>)
    requires forall r :: r in a ==> r.source == m
    requires forall r :: r in b ==> r.source in ms
    requires forall x :: x in ms ==> LexLe(FileStem(x), FileStem(m))
    requires forall i, j :: 0 <= i < j < |b| ==> LexLe(FileStem(b[j].source), FileStem(b[i].source))
    ensures forall i, j :: 0 <= i < j < |a + b| ==> LexLe(FileStem((a + b)[j].source), FileStem((a + b)[i].source))
  {
    LexLeTotal(FileStem(m), FileStem(m));
    var c := a + b;
    forall i, j | 0 <= i < j < |c|
      ensures LexLe(FileStem(c[j].source), FileStem(c[i].source))
    {
      if j < |a| {
        assert c[i] == a[i] && c[j] == a[j];
        assert a[i] in a && a[j] in a;
      } else if i < |a| {
        assert c[i] == a[i] && c[j] == b[j - |a|];
        assert a[i] in a && b[j - |a|] in b;
      } else {
        assert c[i] == b[i - |a|] && c[j] == b[j - |a|];
      }
    }
  }

  /** The MCD pass generates the files' tuples file by file, so sorted files give sorted tuples. */
  lemma {:induction false} McdFilesPhaseOrdered(mcds: seq<Path>, unmatched: seq<Path>, kind: PathKind, channelNames: Option<seq<string>>,
                                                readMcd: Path -> McdOutcome, readTxt: Path -> TxtOutcome)
    requires SortedBy(mcds, StemDescending())
    ensures forall i, j :: 0 <= i < j < |McdFilesPhase(mcds, unmatched, kind, channelNames, readMcd, readTxt).records| ==>
      var recs := McdFilesPhase(mcds, unmatched, kind, channelNames, readMcd, readTxt).records;
      LexLe(FileStem(recs[j].source), FileStem(recs[i].source))
    decreases |mcds|
  {
    if mcds != [] {
      var first := McdFilePhase(mcds[0], unmatched, kind, channelNames, readMcd, readTxt);
      McdFilePhaseRecords(mcds[0], unmatched, kind, channelNames, readMcd, readTxt);
      assert SortedBy(mcds[1..], StemDescending());
      McdFilesPhaseOrdered(mcds[1..], first.unmatched, kind, channelNames, readMcd, readTxt);
      McdFilesPhaseRecords(mcds[1..], first.unmatched, kind, channelNames, readMcd, readTxt);
      var tail := McdFilesPhase(mcds[1..], first.unmatched, kind, channelNames, readMcd, readTxt);
      forall x | x in mcds[1..] ensures LexLe(FileStem(x), FileStem(mcds[0])) {
        var m :| 0 <= m < |mcds[1..]| && mcds[1..][m] == x;
        assert StemDescending()(mcds[0], mcds[m + 1]);
      }
      StemsDescendConcat(first.records, tail.records, mcds[0], mcds[1..]);
    }
  }

  /** The leftover pass: one tuple per readable leftover file, claims in worklist order. */
  lemma {:induction false} LeftoversPhaseRecords(unmatched: seq<Path>, channelNames: Option<seq<string>>,
                                                 readTxt: Path -> TxtOutcome)
    ensures IsSubsequence(TxtClaims(LeftoversPhase(unmatched, channelNames, readTxt)), unmatched)
    ensures forall r :: r in LeftoversPhase(unmatched, channelNames, readTxt) ==>
      FromLeftover(r, unmatched, channelNames, readTxt)
  {
    if unmatched != [] {
      LeftoversPhaseRecords(unmatched[1..], channelNames, readTxt);
      var head := ProcessLeftover(unmatched[0], channelNames, readTxt);
      var tail := LeftoversPhase(unmatched[1..], channelNames, readTxt);
      forall r | r in tail ensures FromLeftover(r, unmatched, channelNames, readTxt) {
        assert r.source in unmatched[1..];
      }
      if head.Some? {
        var recs := [head.value] + tail;
        assert recs[1..] == tail;
        assert TxtClaims(recs) == [unmatched[0]] + TxtClaims(tail);
      } else {
        assert [] + tail == tail;
        SkipHead(TxtClaims(tail), unmatched);
      }
    }
  }

  /** Tuples of the MCD pass: each from an acquisition of an MCD file in `mcdFiles`, in
      non-increasing order of that file's stem. */
  ghost predicate McdTuples(recs: seq<Yielded>, mcdFiles: seq<Path>, txtFiles: seq<Path>,
                            channelNames: Option<seq<string>>, readMcd: Path -> McdOutcome, readTxt: Path -> TxtOutcome)
  {
    (forall k :: 0 <= k < |recs| ==>
       recs[k].source in mcdFiles && FromMcdFile(recs[k], txtFiles, channelNames, readMcd, readTxt)) &&
    (forall i, j :: 0 <= i < j < |recs| ==> LexLe(FileStem(recs[j].source), FileStem(recs[i].source)))
  }

  /** Tuples of the leftover pass: each from a leftover txt file, claiming the files in the
      order of `txtFiles`. */
  ghost predicate LeftoverTuples(recs: seq<Yielded>, txtFiles: seq<Path>, channelNames: Option<seq<string>>,
                                 readTxt: Path -> TxtOutcome)
  {
    (forall r :: r in recs ==> FromLeftover(r, txtFiles, channelNames, readTxt)) &&
    IsSubsequence(TxtClaims(recs), txtFiles)
  }

  /** The MCD pass over the sorted MCD files. */
  lemma McdPassTuples(mcdFiles: seq<Path>, txtFiles: seq<Path>, kind: PathKind, channelNames: Option<seq<string>>,
                      readMcd: Path -> McdOutcome, readTxt: Path -> TxtOutcome)
    ensures McdTuples(McdFilesPhase(SortBy(mcdFiles, StemDescending()), txtFiles, kind, channelNames, readMcd, readTxt).records,
                      mcdFiles, txtFiles, channelNames, readMcd, readTxt)
  {
    var sorted := SortBy(mcdFiles, StemDescending());
    var recs := McdFilesPhase(sorted, txtFiles, kind, channelNames, readMcd, readTxt).records;
    McdFilesPhaseRecords(sorted, txtFiles, kind, channelNames, readMcd, readTxt);
    forall k | 0 <= k < |recs| ensures recs[k].source in mcdFiles {
      assert recs[k] in recs;
      assert recs[k].source in multiset(sorted);
    }
    StemDescendingIsTotalPreorder();
    SortBySorted(mcdFiles, StemDescending());
    McdFilesPhaseOrdered(sorted, txtFiles, kind, channelNames, readMcd, readTxt);
  }

  /** The leftover pass over what the MCD pass left on the worklist. */
  lemma LeftoverPassTuples(mcds: seq<Path>, txtFiles: seq<Path>, kind: PathKind, channelNames: Option<seq<string>>,
                           readMcd: Path -> McdOutcome, readTxt: Path -> TxtOutcome)
    ensures LeftoverTuples(LeftoversPhase(McdFilesPhase(mcds, txtFiles, kind, channelNames, readMcd, readTxt).unmatched,
                                          channelNames, readTxt),
                           txtFiles, channelNames, readTxt)
  {
    var rest := McdFilesPhase(mcds, txtFiles, kind, channelNames, readMcd, readTxt).unmatched;
    var left := LeftoversPhase(rest, channelNames, readTxt);
    McdFilesPhaseWorklist(mcds, txtFiles, kind, channelNames, readMcd, readTxt);
    LeftoversPhaseRecords(rest, channelNames, readTxt);
    SubsequenceMembers(rest, txtFiles);
    forall r | r in left ensures FromLeftover(r, txtFiles, channelNames, readTxt) {
      assert r.source in multiset(rest);
    }
    SubsequenceTransitive(TxtClaims(left), rest, txtFiles);
  }

  /** The whole run: first the MCD tuples, then the leftover txt files' tuples. */
  lemma PreprocessedImagesLayout(mcdFiles: seq<Path>, txtFiles: seq<Path>, kind: PathKind, channelNames: Option<seq<string>>,
                                 readMcd: Path -> McdOutcome, readTxt: Path -> TxtOutcome)
    ensures exists mcdPart, leftPart ::
      PreprocessedImages(mcdFiles, txtFiles, kind, channelNames, readMcd, readTxt) == mcdPart + leftPart &&
      McdTuples(mcdPart, mcdFiles, txtFiles, channelNames, readMcd, readTxt) &&
      LeftoverTuples(leftPart, txtFiles, channelNames, readTxt)
  {
    var mcd := McdFilesPhase(SortBy(mcdFiles, StemDescending()), txtFiles, kind, channelNames, readMcd, readTxt);
    McdPassTuples(mcdFiles, txtFiles, kind, channelNames, readMcd, readTxt);
    LeftoverPassTuples(SortBy(mcdFiles, StemDescending()), txtFiles, kind, channelNames, readMcd, readTxt);
    var left := LeftoversPhase(mcd.unmatched, channelNames, readTxt);
    assert PreprocessedImages(mcdFiles, txtFiles, kind, channelNames, readMcd, readTxt) == mcd.records + left;
  }

  /** No txt file is claimed by more tuples than it occurs in the input list: a matched file
      leaves the worklist before its acquisition is read, and leftovers are popped once. */
  lemma TxtFilesClaimedOnce(mcdFiles: seq<Path>, txtFiles: seq<Path>, kind: PathKind, channelNames: Option<seq<string>>,
                            readMcd: Path -> McdOutcome, readTxt: Path -> TxtOutcome)
    ensures multiset(TxtClaims(PreprocessedImages(mcdFiles, txtFiles, kind, channelNames, readMcd, readTxt)))
         <= multiset(txtFiles)
  {
    var sorted := SortBy(mcdFiles, StemDescending());
    var mcd := McdFilesPhase(sorted, txtFiles, kind, channelNames, readMcd, readTxt);
    var left := LeftoversPhase(mcd.unmatched, channelNames, readTxt);
    McdFilesPhaseWorklist(sorted, txtFiles, kind, channelNames, readMcd, readTxt);
    LeftoversPhaseRecords(mcd.unmatched, channelNames, readTxt);
    SubsequenceMembers(TxtClaims(left), mcd.unmatched);
    TxtClaimsAppend(mcd.records, left);
  }

  /** As written: for `Path` objects, an acquisition with two candidate txt files raises in
      `_match_txt_file`, and the bare `except:` drops it and every later acquisition of the
      file, with nothing taken off the worklist. */
  lemma AmbiguousPathMatchEndsFile(mcd: Path, acqs: seq<StoredAcquisition>, unmatched: seq<Path>,
                                   channelNames: Option<seq<string>>, readTxt: Path -> TxtOutcome, i: nat, j: nat)
    requires acqs != [] && i < j < |unmatched|
    requires IsCandidate(mcd, acqs[0].acquisition.id, unmatched[i]) && IsCandidate(mcd, acqs[0].acquisition.id, unmatched[j])
    ensures AcquisitionsPhase(mcd, acqs, unmatched, PathObjects, channelNames, readTxt) == Phase([], unmatched)
  {
    AmbiguousMatchRaisesMeaning(PathObjects, mcd, acqs[0].acquisition.id, unmatched);
  }

  /** As intended, and as happens for `str` paths: an acquisition with two candidate txt files
      is read without a recovery file, nothing leaves the worklist, and the later
      acquisitions are still processed. */
  lemma AmbiguousStrMatchContinues(mcd: Path, acqs: seq<StoredAcquisition>, unmatched: seq<Path>,
                                   channelNames: Option<seq<string>>, readTxt: Path -> TxtOutcome, i: nat, j: nat)
    requires acqs != [] && i < j < |unmatched|
    requires IsCandidate(mcd, acqs[0].acquisition.id, unmatched[i]) && IsCandidate(mcd, acqs[0].acquisition.id, unmatched[j])
    ensures var o := ProcessAcquisition(mcd, acqs[0], None, channelNames, readTxt);
      var tail := AcquisitionsPhase(mcd, acqs[1..], unmatched, StrPaths, channelNames, readTxt);
      AcquisitionsPhase(mcd, acqs, unmatched, StrPaths, channelNames, readTxt) ==
        if o.Abort? then Phase([], unmatched) else Phase(Yields(o) + tail.records, tail.unmatched)
  {
    var p := (f: Path) => IsCandidate(mcd, acqs[0].acquisition.id, f);
    assert FilterBy(unmatched, p) == Candidates(mcd, acqs[0].acquisition.id, unmatched);
    FilterByTwo(unmatched, p, i, j);
  }

  /** An acquisition whose image reads, for the example below. */
  function ReadableAcquisition(id: int): StoredAcquisition {
    StoredAcquisition(Acquisition(id, "", [], [], [], 0.0, 0.0), ImageOk(Image([], 1, 1)))
  }

  lemma ExampleStem()
    ensures FileStem("a.mcd") == "a"
  {
    BaseNameOfPlainName("a.mcd");
    var i := LastIndexOf("a.mcd", '.');
    assert "a.mcd"[1] == '.';
    assert i == 1;
  }

  lemma ExampleNames()
    ensures BaseName("a_1.txt") == "a_1.txt" && BaseName("a_01.txt") == "a_01.txt" && BaseName("a_2.txt") == "a_2.txt"
    ensures IntToDecimal(1) == "1" && IntToDecimal(2) == "2"
  {
    BaseNameOfPlainName("a_1.txt");
    BaseNameOfPlainName("a_01.txt");
    BaseNameOfPlainName("a_2.txt");
  }

  lemma ExampleFirstCandidates()
    ensures IsCandidate("a.mcd", 1, "a_1.txt") && IsCandidate("a.mcd", 1, "a_01.txt")
  {
    ExampleStem();
    ExampleNames();
    assert "a_1.txt"[..1] == "a" && "a_1.txt"[1..] == "_1.txt";
    assert IdTxtAt("_1.txt"[1..], "1");
    assert "a_01.txt"[..1] == "a" && "a_01.txt"[1..] == "_01.txt";
    assert "_01.txt"[1..][0] == '0' && IdTxtAt("_01.txt"[1..][1..], "1");
  }

  lemma ExampleSecondCandidate()
    ensures !IsCandidate("a.mcd", 1, "a_2.txt") && IsCandidate("a.mcd", 2, "a_2.txt")
  {
    ExampleStem();
    ExampleNames();
    assert "a_2.txt"[..1] == "a" && "a_2.txt"[1..] == "_2.txt";
    assert IdTxtAt("_2.txt"[1..], "2");
    assert "_2.txt"[1..] == "2.txt" && !IdTxtAt("2.txt", "1");
    NoUnderscoreNoMatch("2.txt", "1");
  }

  lemma ExampleNotSecond()
    ensures !IsCandidate("a.mcd", 2, "a_1.txt") && !IsCandidate("a.mcd", 2, "a_01.txt")
  {
    ExampleStem();
    ExampleNames();
    assert "a_1.txt"[..1] == "a" && "a_1.txt"[1..] == "_1.txt";
    assert "_1.txt"[1..] == "1.txt" && !IdTxtAt("1.txt", "2");
    NoUnderscoreNoMatch("1.txt", "2");
    assert "a_01.txt"[..1] == "a" && "a_01.txt"[1..] == "_01.txt";
    assert "_01.txt"[1..] == "01.txt" && !IdTxtAt("01.txt", "2");
    assert "01.txt"[1..] == "1.txt";
    NoUnderscoreNoMatch("01.txt", "2");
  }

  /** The txt files of the example: two candidates for acquisition 1, one for acquisition 2. */
  const ExampleTxtFiles: seq<Path> := ["a_1.txt", "a_01.txt", "a_2.txt"]

  /** The example's tuple for acquisition `id`, read from the MCD file. */
  function ExampleTuple(id: int, recovery: Option<Path>): Yielded {
    Yielded("a.mcd", Some(ReadableAcquisition(id).acquisition), Image([], 1, 1), recovery, false)
  }

  /** As written, with `Path` objects: `a.mcd` generates nothing and all three txt files stay
      on the worklist, to be read as leftovers. */
  lemma AmbiguousPathMatchExample(readTxt: Path -> TxtOutcome)
    ensures AcquisitionsPhase("a.mcd", [ReadableAcquisition(1), ReadableAcquisition(2)], ExampleTxtFiles,
                              PathObjects, None, readTxt) == Phase([], ExampleTxtFiles)
  {
    ExampleFirstCandidates();
    AmbiguousPathMatchEndsFile("a.mcd", [ReadableAcquisition(1), ReadableAcquisition(2)], ExampleTxtFiles,
                               None, readTxt, 0, 1);
  }

  /** The example's acquisitions are read without a channel selection. */
  lemma ExampleProcessed(id: int, matched: Option<Path>, readTxt: Path -> TxtOutcome)
    ensures ProcessAcquisition("a.mcd", ReadableAcquisition(id), matched, None, readTxt) == Yield(ExampleTuple(id, matched))
  {
  }

  /** `a_2.txt` is the only candidate for acquisition 2. */
  lemma ExampleSecondMatch()
    ensures MatchTxtFile("a.mcd", 2, ExampleTxtFiles) == Some("a_2.txt")
  {
    ExampleSecondCandidate();
    ExampleNotSecond();
    var p := (f: Path) => IsCandidate("a.mcd", 2, f);
    assert ExampleTxtFiles[1..] == ["a_01.txt", "a_2.txt"];
    assert ExampleTxtFiles[1..][1..] == ["a_2.txt"];
    assert ExampleTxtFiles[1..][1..][1..] == [];
    assert FilterBy(ExampleTxtFiles[1..][1..], p) == ["a_2.txt"];
    assert FilterBy(ExampleTxtFiles, p) == ["a_2.txt"];
    assert Candidates("a.mcd", 2, ExampleTxtFiles) == ["a_2.txt"];
  }

  /** Acquisition 2 alone, after acquisition 1 left the worklist as it was. */
  lemma ExampleSecondPhase(readTxt: Path -> TxtOutcome)
    ensures AcquisitionsPhase("a.mcd", [ReadableAcquisition(2)], ExampleTxtFiles, StrPaths, None, readTxt) ==
      Phase([ExampleTuple(2, Some("a_2.txt"))], ["a_1.txt", "a_01.txt"])
  {
    ExampleSecondMatch();
    ExampleProcessed(2, Some("a_2.txt"), readTxt);
    ExampleSecondRemoved();
    LastAcquisitionPhase("a.mcd", ReadableAcquisition(2), ExampleTxtFiles, None, readTxt);
  }

  /** The last acquisition of a file, with `str` paths and a yielding outcome. */
  lemma LastAcquisitionPhase(mcd: Path, stored: StoredAcquisition, unmatched: seq<Path>,
                             channelNames: Option<seq<string>>, readTxt: Path -> TxtOutcome)
    requires ProcessAcquisition(mcd, stored, MatchTxtFile(mcd, stored.acquisition.id, unmatched), channelNames, readTxt).Yield?
    ensures var matched := MatchTxtFile(mcd, stored.acquisition.id, unmatched);
      AcquisitionsPhase(mcd, [stored], unmatched, StrPaths, channelNames, readTxt) ==
        Phase([ProcessAcquisition(mcd, stored, matched, channelNames, readTxt).record], AfterMatch(unmatched, matched))
  {
    assert [stored][1..] == [];
  }

  /** Matching `a_2.txt` leaves the two candidates of acquisition 1 on the worklist. */
  lemma ExampleSecondRemoved()
    ensures AfterMatch(ExampleTxtFiles, Some("a_2.txt")) == ["a_1.txt", "a_01.txt"]
  {
    assert ExampleTxtFiles[1..] == ["a_01.txt", "a_2.txt"];
    assert ExampleTxtFiles[1..][1..] == ["a_2.txt"];
    assert "a_1.txt" != "a_2.txt" by { assert "a_1.txt"[2] != "a_2.txt"[2]; }
    assert "a_01.txt" != "a_2.txt" by { assert |"a_01.txt"| != |"a_2.txt"|; }
    assert RemoveFirst(ExampleTxtFiles[1..][1..], "a_2.txt") == [];
    assert RemoveFirst(ExampleTxtFiles[1..], "a_2.txt") == ["a_01.txt"];
  }

  /** As intended, with `str` paths: both acquisitions generate a tuple, the second with
      `a_2.txt` as its recovery file, which leaves the worklist. */
  lemma AmbiguousStrMatchExample(readTxt: Path -> TxtOutcome)
    ensures AcquisitionsPhase("a.mcd", [ReadableAcquisition(1), ReadableAcquisition(2)], ExampleTxtFiles,
                              StrPaths, None, readTxt) ==
      Phase([ExampleTuple(1, None), ExampleTuple(2, Some("a_2.txt"))], ["a_1.txt", "a_01.txt"])
  {
    var acqs := [ReadableAcquisition(1), ReadableAcquisition(2)];
    ExampleFirstCandidates();
    AmbiguousStrMatchContinues("a.mcd", acqs, ExampleTxtFiles, None, readTxt, 0, 1);
    ExampleProcessed(1, None, readTxt);
    assert acqs[1..] == [ReadableAcquisition(2)];
    ExampleSecondPhase(readTxt);
  }
}
