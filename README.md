# steinbock IMC preprocessing, modelled in Dafny

This project models the core of steinbock's IMC preprocessing step, `steinbock/preprocessing/imc.py`.
That step turns raw imaging mass cytometry acquisitions (MCD files and their txt exports) into
image stacks and a channel panel. The model covers six parts:

- **Panels.** Three functions build the channel panel: `create_panel_from_imc_panel` from an
  IMC panel table, and `create_panel_from_mcd_files` and `create_panel_from_txt_files` from the
  acquisitions' channel headers. All three finish with `_clean_panel`, which orders the
  channels by mass, numbers duplicated names, fills in `keep`, `ilastik` and `deepcell`, and
  moves the standard columns to the front.
- **Image generator.** `try_preprocess_images_from_disk` visits the MCD files by descending
  stem. For each acquisition it takes the matching txt export off the worklist, selects the
  requested channels, and falls back on the txt export when the MCD read raises `IOError`.
  Afterwards it reads the txt exports that were never matched.
- **Txt matching.** `_match_txt_file` uses the file-name pattern `{stem}.*_0*{id}.txt` and
  accepts a match only when exactly one file fits. When several files fit, its warning joins
  them with `", ".join(...)`. That raises `TypeError` when the files are `pathlib.Path`
  objects, which is what `list_txt_files` returns. The model therefore takes the kind of the
  txt paths (`str` or `Path` objects) as a parameter (see "## Findings").
- **Channel lookup.** `_get_channel_indices` gives the first index of each requested channel,
  or the first channel that is missing.
- **Image info.** `create_image_info` builds the per-image metadata record.

Pandas tables are modelled as a `Panel`: a list of column labels plus rows, each a map from
label to `Cell` (missing, text, flag or count). The methods that change a table in place work
on a `Frame` class. Each method is proved equal to a specification function, and the lemmas
state what the source promises about those functions.

Some work is done by code outside this model; it enters as parameters:

- Opening an MCD file, opening a txt export, and reading an acquisition's image are
  parameters `Path -> McdOutcome` and `Path -> TxtOutcome`. Their results are plain data:
  the acquisitions with their channel names, labels, region corners and image read outcome.
- The IMC panel table is given already parsed.
- The kind of the txt file paths, `PathKind`, decides whether an ambiguous match raises.

Modules and files:

- `wrappers.dfy`, `strings.dfy`, `seqs.dfy`, `sorting.dfy`: option and result types, decimal
  text, distinct elements and subsequences, a stable sort by a total preorder.
- `paths.dfy`: `Path.name` and `Path.stem`.
- `readers.dfy`: what the readers hand back, and `img[channel_ind, :, :]`.
- `channels.dfy`: `_get_channel_indices`.
- `txtmatching.dfy`: `_match_txt_file`.
- `preprocessing.dfy`, `preprocessingfacts.dfy`: `try_preprocess_images_from_disk`.
- `panels.dfy`: tables, the `Frame` class and the pandas operations used on it.
- `cleanpanel.dfy`: `_clean_panel`.
- `imcpanel.dfy`, `imcpanelfacts.dfy`: `create_panel_from_imc_panel`.
- `filepanels.dfy`: `create_panel_from_mcd_files` and `create_panel_from_txt_files`.
- `imageinfo.dfy`: `create_image_info`.

## Model

| member | source | states |
|---|---|---|
| Channels.GetChannelIndices | steinbock/preprocessing/imc.py:373-381 | the loop returns the reference lookup `ChannelIndices` on every input |
| Channels.ChannelIndicesMeaning | steinbock/preprocessing/imc.py:376-381 | indices come back exactly when every requested channel exists; each index is the first position of its channel, in request order; otherwise the first missing requested channel is reported |
| Paths.BaseNameMeaning | steinbock/preprocessing/imc.py:360 | a path's name is its part after the last '/', containing no '/' |
| Paths.StemAndSuffix | steinbock/preprocessing/imc.py:355 | a name is its stem followed by its suffix; a suffix is a dot and at least one further non-dot character after a non-empty stem |
| TxtMatching.NameMatchesIffPattern | steinbock/preprocessing/imc.py:354-360 | the backtracking matcher accepts a name exactly when it is the stem, then text without a newline up to an `_`, zeros, the decimal id, any one character but a newline, then `txt` |
| TxtMatching.MatchTxtFileMeaning | steinbock/preprocessing/imc.py:357-370 | when the function returns, a file is returned only when it is the one candidate in the list; no file comes back only when there are no candidates or at least two |
| TxtMatching.AmbiguousMatchRaisesMeaning | steinbock/preprocessing/imc.py:364-369 | the warning's `", ".join` raises exactly when the files are `Path` objects and at least two of them are candidates |
| TxtMatching.MatchTxtFileMember | steinbock/preprocessing/imc.py:362-363 | a returned file is in the list and matches the pattern |
| Readers.SelectChannels | steinbock/preprocessing/imc.py:285 | selection succeeds exactly when every index is below the number of planes; position `k` of the result holds the input's plane `ind[k]`, one plane per index, with height and width unchanged |
| Preprocessing.StemDescendingIsTotalPreorder | steinbock/preprocessing/imc.py:226-228 | a descending order of stems is total and transitive, so the sort is well defined |
| Preprocessing.ReadAcquisition | steinbock/preprocessing/imc.py:238-295 | the imperative body with `channel_ind`, `img` and `recovered` computes the reference outcome `ProcessAcquisition` |
| Preprocessing.MatchAndReadAcquisition | steinbock/preprocessing/imc.py:233-295 | an ambiguous match of `Path` objects raises, which ends the MCD file with the worklist unchanged; otherwise the matched txt file is removed from the worklist before the acquisition is read, and the outcome is that of the match |
| Preprocessing.ReadMcdAcquisitions | steinbock/preprocessing/imc.py:231-296 | the acquisition loop produces the tuples and worklist of the specification `AcquisitionsPhase`, stopping at an exception |
| Preprocessing.ReadMcdFile | steinbock/preprocessing/imc.py:229-298 | an MCD file that cannot be opened yields nothing and leaves the worklist unchanged; otherwise its acquisitions are processed |
| Preprocessing.ReadMcdFiles | steinbock/preprocessing/imc.py:226-298 | the loop over the MCD files computes `McdFilesPhase` |
| Preprocessing.ReadLeftover | steinbock/preprocessing/imc.py:300-319 | one leftover txt file gives the reference outcome `ProcessLeftover` |
| Preprocessing.ReadLeftovers | steinbock/preprocessing/imc.py:299-319 | popping the worklist from the front until it is empty computes `LeftoversPhase` |
| Preprocessing.TryPreprocessImagesFromDisk | steinbock/preprocessing/imc.py:213-319 | the whole generator yields the specification's `PreprocessedImages` sequence, for either kind of txt path |
| PreprocessingFacts.ChannelsOfMeaning | steinbock/preprocessing/imc.py:238-249 | a selected image has one plane per requested channel, in request order, each the plane of the channel's first occurrence, with height and width unchanged |
| PreprocessingFacts.ProcessAcquisitionMeaning | steinbock/preprocessing/imc.py:238-295 | a tuple carries its MCD file, acquisition and match; it is recovered exactly when the MCD read failed, then from the matched txt file after an `IOError`; a missing channel skips the acquisition; a failed read without a match yields nothing; both success paths do yield; the outcome is an exception that ends the MCD file exactly when the channels are present and the MCD read raises something other than `IOError`, or the MCD image's channel selection indexes past its planes, or after an `IOError` the matched txt file's open, read or channel selection raises something other than `IOError` |
| PreprocessingFacts.AcquisitionOutcomeStep | steinbock/preprocessing/imc.py:231-297 | the matched txt file leaves the worklist before the outcome is known; an exception ends the MCD file with that file still removed; a skip goes on with the next acquisition; a tuple comes before those of the later acquisitions |
| PreprocessingFacts.ProcessLeftoverMeaning | steinbock/preprocessing/imc.py:299-319 | a leftover txt file yields a tuple without acquisition or recovery file exactly when it can be read and its channels selected |
| PreprocessingFacts.McdPassTuples | steinbock/preprocessing/imc.py:226-298 | every tuple of the MCD pass comes from an acquisition of one of the given MCD files, and the tuples appear in non-increasing stem order |
| PreprocessingFacts.LeftoverPassTuples | steinbock/preprocessing/imc.py:299-319 | every tuple of the leftover pass comes from a leftover txt file, and the files are claimed in their input order |
| PreprocessingFacts.PreprocessedImagesLayout | steinbock/preprocessing/imc.py:223-319 | the output is the MCD tuples followed by the leftover tuples |
| PreprocessingFacts.TxtFilesClaimedOnce | steinbock/preprocessing/imc.py:223-237 | no txt file is used, as recovery file or as leftover, more often than it occurs in the input |
| PreprocessingFacts.AmbiguousPathMatchEndsFile | steinbock/preprocessing/imc.py:233-237 | with `Path` objects, an acquisition with two candidate txt files ends its MCD file: nothing more is generated from it and the worklist is unchanged |
| PreprocessingFacts.AmbiguousStrMatchContinues | steinbock/preprocessing/imc.py:233-237 | with `str` paths, an acquisition with two candidate txt files is processed without a match, nothing leaves the worklist, and the following acquisitions are processed |
| PreprocessingFacts.AmbiguousPathMatchExample | steinbock/preprocessing/imc.py:233-237 | for `a.mcd` with acquisitions 1 and 2 and the `Path` objects `a_1.txt`, `a_01.txt`, `a_2.txt`, the MCD file generates nothing and all three files stay on the worklist |
| PreprocessingFacts.AmbiguousStrMatchExample | steinbock/preprocessing/imc.py:233-237 | for the same input as `str` paths, both acquisitions generate a tuple, the second with `a_2.txt` as recovery file, and only `a_1.txt` and `a_01.txt` stay on the worklist |
| Panels.RanksMeaning | steinbock/preprocessing/imc.py:336 | `range(1, sum + 1)` written under a mask numbers the selected rows 1, 2, … in row order, strictly increasing, each number used, and leaves the others missing |
| Panels.Frame.SortRows | steinbock/preprocessing/imc.py:323-327 | the rows are replaced by their sort under the given order and the columns are unchanged |
| Panels.Frame.AddColumn | steinbock/preprocessing/imc.py:332 | a new last column holds the given cells |
| Panels.Frame.SetColumn | steinbock/preprocessing/imc.py:114 | an existing column gets the given cells and keeps its place |
| Panels.Frame.SetCells | steinbock/preprocessing/imc.py:330 | the selected rows get the value under the column, the other rows are unchanged |
| Panels.Frame.DropColumn | steinbock/preprocessing/imc.py:343 | the column disappears from the labels and from every row |
| Panels.Frame.InsertColumn | steinbock/preprocessing/imc.py:344 | a new column at the given position holds the given cells |
| CleanPanels.ChannelOrderIsTotalPreorder | steinbock/preprocessing/imc.py:323-327 | ordering by a channel's mass number, missing numbers last, is a total preorder |
| CleanPanels.SuffixedNamesMeaning | steinbock/preprocessing/imc.py:328-330 | a name no other row shares is unchanged; a shared text name gets " k", where k is the row's occurrence number among the rows sharing that name |
| CleanPanels.SuffixedNamesDisambiguate | steinbock/preprocessing/imc.py:328-330 | two rows that shared a text name end up with different names |
| CleanPanels.SortAndFill | steinbock/preprocessing/imc.py:323-338 | sorting, name suffixes and the three default columns on the frame give the specification `Defaulted(NamedPanel(…))` |
| CleanPanels.MoveColumn | steinbock/preprocessing/imc.py:342-344 | a column taken out and inserted again lands at the given position among the rest, and the rows are unchanged |
| CleanPanels.MoveFrontColumns | steinbock/preprocessing/imc.py:339-345 | the loop puts the standard columns that are present first, in their order, and the others after them in theirs |
| CleanPanels.CleanPanel | steinbock/preprocessing/imc.py:322-346 | `_clean_panel` on the frame gives the specification `CleanedPanel` |
| CleanPanels.CleanedPanelSorted | steinbock/preprocessing/imc.py:323-327 | the rows come out in non-decreasing mass-number order, missing numbers last |
| CleanPanels.CleanedPanelRows | steinbock/preprocessing/imc.py:323-338 | the rows are a permutation of the input rows; only the name and the added standard columns change |
| CleanPanels.CleanedPanelNames | steinbock/preprocessing/imc.py:328-330 | unique names are kept; rows sharing a name get distinct names carrying their occurrence number |
| CleanPanels.CleanedPanelDefaults | steinbock/preprocessing/imc.py:331-338 | without a keep column every row is kept; without an ilastik column the kept rows are numbered 1, 2, …; without a deepcell column it is missing everywhere |
| CleanPanels.CleanedPanelColumns | steinbock/preprocessing/imc.py:339-345 | the columns are the five standard ones followed by the others in their original order |
| CleanPanels.CleanedPanelWellFormed | steinbock/preprocessing/imc.py:322-346 | a well-formed table stays well formed: distinct labels, and every row has exactly those labels |
| ImcPanels.ChannelTextOrderIsTotalPreorder | steinbock/preprocessing/imc.py:111 | the group-key order is a total preorder |
| ImcPanels.MergeGroup | steinbock/preprocessing/imc.py:106-110 | one turn of the group loop writes the merged name, any-keep and any-ilastik into the group's rows and nothing else |
| ImcPanels.MergeGroups | steinbock/preprocessing/imc.py:105-110 | the loop over the groups gives the specification `MergedGroups` |
| ImcPanels.AggregatedCellsAt | steinbock/preprocessing/imc.py:105-111 | each aggregated row has its channel's joined distinct names, its any-keep and any-ilastik flags, and the first non-missing value of every other column |
| ImcPanels.CreatePanelFromImcPanel | steinbock/preprocessing/imc.py:79-116 | the imperative pipeline returns the specification `ImcPanel` result, error or panel |
| ImcPanelFacts.ImcPanelValidation | steinbock/preprocessing/imc.py:79-92 | the table is rejected with a missing-column or a missing-value error exactly when a required column is absent or the channel, keep or ilastik column has a missing value; the channel column is checked before the name column |
| ImcPanelFacts.RenamedTarget | steinbock/preprocessing/imc.py:93-104 | a standard label survives `drop` and `rename` exactly when its source column exists and is not itself another standard label |
| ImcPanelFacts.RenamedOther | steinbock/preprocessing/imc.py:93-104 | every other label survives exactly when the table has it |
| ImcPanelFacts.RenamedCells | steinbock/preprocessing/imc.py:104 | a renamed cell is the original row's cell under the source column |
| ImcPanelFacts.ImcPanelKeyErrors | steinbock/preprocessing/imc.py:93-111 | an accepted table fails with `KeyError("channel")` exactly when the channel column is labelled name, keep or ilastik; otherwise it fails with `KeyError("name")` exactly when the name column collides; otherwise a panel results |
| ImcPanelFacts.ImcPanelChannels | steinbock/preprocessing/imc.py:105-116 | the panel has one row per distinct channel of the table, and its columns are the standard five followed by the other columns |
| ImcPanelFacts.ImcPanelRows | steinbock/preprocessing/imc.py:105-112 | each row carries its channel's merged keep, the first non-missing value of every other column, and the joined names, numbered when names collide; rows with the same joined name get different names |
| ImcPanelFacts.ImcPanelIlastik | steinbock/preprocessing/imc.py:113-115 | the ilastik column numbers 1, 2, … the rows whose channel is marked for ilastik (the kept rows when there was no ilastik column), in row order, and is missing elsewhere |
| FilePanels.ChannelTable | steinbock/preprocessing/imc.py:127-138 | a table has as many rows as the longer of names and labels, the two columns aligned by position |
| FilePanels.CreatePanelFromMcdFiles | steinbock/preprocessing/imc.py:119-142 | the loop, concatenation, deduplication and cleaning give the specification `McdFilesPanel` |
| FilePanels.CreatePanelFromTxtFiles | steinbock/preprocessing/imc.py:145-160 | the same for txt exports: `TxtFilesPanel` |
| FilePanels.PanelFromTablesMeaning | steinbock/preprocessing/imc.py:140-142 | the panel has the standard columns, one row per distinct table row, exactly the channels of the tables, keep true, ilastik numbering the rows, deepcell missing, and rows in mass order |
| FilePanels.McdFirstUnreadable | steinbock/preprocessing/imc.py:123-124 | the first MCD file that cannot be opened is the error, whatever follows |
| FilePanels.TxtFirstUnreadable | steinbock/preprocessing/imc.py:149-150 | the first txt file that cannot be opened is the error |
| FilePanels.McdFilesPanelMeaning | steinbock/preprocessing/imc.py:119-142 | concatenation fails exactly when every file opens and has no acquisition; a panel results exactly when all files open and some acquisition exists; its channels are those of the acquisitions' headers |
| FilePanels.TxtFilesPanelMeaning | steinbock/preprocessing/imc.py:145-160 | concatenation fails exactly when there is no file; a panel results exactly when there are files and all open; its channels are those of their headers |
| ImageInfo.UpdateFresh | steinbock/preprocessing/imc.py:184-195 | a dict update with new, distinct keys appends the entries in order |
| ImageInfo.CreateImageInfo | steinbock/preprocessing/imc.py:163-196 | the record fails exactly when an acquisition with fewer than three region corners is given, at index 0 or at index 2 |
| ImageInfo.ImageInfoRecord | steinbock/preprocessing/imc.py:171-195 | the keys are the seven image keys, followed by the eight acquisition keys exactly when an acquisition is given, all distinct |
| ImageInfo.ImageInfoImage | steinbock/preprocessing/imc.py:171-182 | the image and source names are base names; width, height and channel count come from the image's shape; the recovery file name is missing without a recovery file |
| ImageInfo.ImageInfoAcquisition | steinbock/preprocessing/imc.py:183-195 | the acquisition fields hold its id, its description, the first and third region corners and its size, or are absent without an acquisition |

## Left out

- Reading the IMC panel CSV (lines 66-78): the model starts from the parsed table, with
  flags read as `1`/`0`.
- Zip extraction and directory listing (`list_mcd_files`, `list_txt_files`, `_extract_zips`):
  these are file-system I/O. The model takes the file lists as given.
- readimc: decoding MCD and txt files is not part of this model. Opening a file and reading
  an image are parameters that return data.
- `filter_hot_pixels`, `preprocess_image` and the float32 conversion: these are numeric image
  processing. A generated image is the channel selection, before filtering.
- Logging: warnings and errors written to the log are not modelled.
- The bare `except:` around each MCD file and each leftover txt file is modelled as "stop
  that file, keep the tuples already generated and the worklist as it is". Exceptions other
  than `IOError` are one kind, `OtherError`.
- Generator laziness: the model produces the whole sequence of tuples. A consumer that stops
  early is not modelled.
- TxtMatching.MatchTxtFile: the MCD stem is matched as literal text. Regex metacharacters in
  a stem are not interpreted.
- CleanPanels.SortAndFill: pandas' default `sort_values` kind is not stable. The model uses a
  stable sort, so rows with equal mass numbers keep their input order.
- CleanPanels.ChannelKey: a channel with no digit is treated as NaN and sorted last. Digit
  strings are read as unbounded integers, not as floats.
- CleanPanels.CleanPanel: requires that a keep column used as a mask holds only flags or
  missing values. A missing keep value counts as not kept, both in pandas' boolean mask and in
  the model. Keep cells of any other kind are not handled; none of the three panel builders
  produces them.
- ImcPanels.CreatePanelFromImcPanel: the four caller-given column labels are assumed distinct
  (`Distinguished`, used by the rename lemmas). With equal labels, the dict literals of
  lines 69-74 and 93-98 merge keys.
- Panels.RanksMeaning: the ilastik column has pandas' nullable `UInt8` dtype. Writing numbers
  above 255 into it fails the safe cast and raises `TypeError`, so the source raises for more
  than 255 numbered rows. The model numbers on with unbounded naturals and does not model
  that raise.
- Paths.BaseNameMeaning: paths are taken to be normalised file paths, as `rglob` yields them.
  For a path ending in '/' the model gives an empty name, and a `.` component is not
  dropped; `pathlib` handles both differently.
- TxtMatching.MatchTxtFileMeaning: states the value returned. The `TypeError` raised for two or
  more `Path` candidates is stated apart, by `AmbiguousMatchRaisesMeaning`.
- ImageInfo.FieldName: record keys are an enumeration whose Python key strings are given by
  `FieldName`. The model does not prove that distinct fields map to distinct strings.
- ImageInfo.CreateImageInfo: the inputs `mcd_txt_file`, `img_file` and `recovery_file` are
  modelled as strings, and numpy shape entries are plain naturals.
- The command-line interface, the example notebook and the deepcell test are outside the
  preprocessing core.

## Findings

| source | as written | input that shows it | evidently intended | confidence | as-written member | corrected member |
|---|---|---|---|---|---|---|
| steinbock/preprocessing/imc.py:364-369 | with two or more candidates, the warning runs `", ".join(filtered_txt_files)`. That raises `TypeError` on the `Path` objects `list_txt_files` returns. The bare `except:` then drops the rest of the MCD file | `a.mcd` with acquisitions 1 and 2, and txt files `a_1.txt`, `a_01.txt`, `a_2.txt` as `Path` objects: nothing comes from `a.mcd`, and all three txt files become leftovers | log the warning and continue without a match, as the message says. Acquisition 2 then claims `a_2.txt` | high (not executed) | PreprocessingFacts.AmbiguousPathMatchExample | PreprocessingFacts.AmbiguousStrMatchContinues |

The generator model takes the path kind as a parameter. With `PathObjects` it follows the code
as written. With `StrPaths` it follows the intended behaviour, which is also what the code does
for `str` paths. `AmbiguousStrMatchExample` works the same input through the intended behaviour.
