# Adaptive cycle detector — a verified model

The cycle detector cuts motion-capture recordings into repeated movement
cycles. For each record file it loads a table and prepares a Position series
and a derived Velocity series. It then detects cycle boundaries as sample
indices: peaks of the chosen signal, midpoints between consecutive peaks, or
both, bracketed by the first and last sample. An operator reviews each
detection. They can accept it, retune the threshold, distance and pattern, or
cut the record by hand. Accepted boundaries are saved to the output directory
with the parameters that produced them. The record is logged, and the
parameters become the defaults for the next record and the next run.

This project models that behaviour in Dafny:

- `wrappers.dfy`, `common.dfy`: `Option`/`Result`, and the table type (column name to `seq<real>`). Also Python's `int()` on a float, `np.abs`, and ordering predicates on index sequences.
- `text.dfy`: the string operations used on operator answers and file names. These are `str.strip`, `str.lower`, `endswith`, `in`, click's prompt default, `os.path.basename` and `os.path.splitext`.
- `peaks.dfy`: a deterministic definition of the peak picker the detector calls. It scans for local maxima, counting a flat top once at its middle. It keeps those reaching the height. It then thins them out highest first, with ties going to the earlier index.
- `detection.dfy`: `detect_cycles`.
- `cycles_utils.dfy`: the preparation gate, and the output directory as a class whose methods overwrite files and append log rows. Also the parameter round trip and the `manual_cutting` loop, as a method with its loop invariant.
- `cli.dfy`: `main`. The `Session` class holds the detection parameters, the last boundary indices, the unread operator input and the reports. Its methods run the review loop and each record in place. Each method is proved equal to a specification function (`ReviewSpec`, `RecordStep`, `RunSpec`), and the lemmas about the workflow are stated on those functions.

Operator input is one stream of typed lines, holding every prompt answer in order, plus a sequence of click rounds for the manual-cutting plot. When the stream runs out, the input has ended: click raises `Abort`, and the per-record handler catches it. The output directory is a map from file name to document, a sequence of log rows, and a clock whose readings stand for `datetime.now()`. A set of unwritable file names models write failures.

Where the code and the repository's tests disagree, the model follows the code. `detect_cycles` always brackets its result with 0 and `len - 1` (`detection.py:101-103`). So the scenario of `tests/test_detection.py:11-27` gives `[0, 1, 3, 5, 6]`, not the `[1, 3, 5]` asserted at line 27 (`Detection.ThreePeaksDetected`). Duplicates of 0 or of the last index can never arise: peaks and midpoints are always interior (`Detection.MergedShape`). The boundary sequence is therefore strictly ascending.

## Model

| member | source | states |
|---|---|---|
| Common.Trunc | detection.py:58 | `int()` on a float truncates toward zero: the result is within one of `x`, below it for `x >= 0` and above it for `x < 0` |
| Common.AbsAll | detection.py:55 | `np.abs` keeps the length, and each entry is the non-negative one of `s[i]` and `-s[i]` |
| Text.Strip | cli.py:62 | the stripped answer is empty iff the answer is all whitespace; otherwise it is the contiguous middle of the answer, starting and ending with non-space, with only whitespace cut on either side |
| Text.Lower | cli.py:62 | lower-casing keeps the length and maps each character on its own |
| Text.PromptValue | cli.py:60-61 | an empty answer stands for the prompt's default; any other answer is kept as typed |
| Text.YesShape | cli.py:62 | `answer.strip().lower() == 'y'` holds iff the answer is one `y` or `Y` with only whitespace around it |
| Text.ContainsIff | cli.py:45 | `sub in s` holds iff `sub` occurs at some position of `s` |
| Text.BaseName | cli.py:54 | the base name has no '/', is a suffix of the path, and is the whole path when the path has no '/' |
| Text.BaseNameAfterSlash | cli.py:54 | the base name of a directory ending in '/' joined with a plain file name is that file name |
| Text.SplitExt | cli.py:54 | stem and extension concatenate to the name; a non-empty extension starts at the last '.', holds no other '.', and follows a stem that is not all dots |
| Text.SplitExtOf | cli.py:54 | splitting `stem + ext` returns exactly `(stem, ext)` for a one-dot extension |
| Peaks.PlateauFlat | detection.py:71-72 | a flat top runs at one value up to its end, and its end differs unless it is the last sample |
| Peaks.MiddleIsMean | detection.py:71-72 | a flat top is reported at its middle sample, `(lo + hi) // 2` |
| Peaks.RunMiddleIsMax | detection.py:71-72 | the middle of a run entered by a rise and left by a fall is a local maximum |
| Peaks.LocalMaximaAreMax | detection.py:71-72 | the scan yields only interior samples no lower than either neighbour |
| Peaks.LocalMaximaSpaced | detection.py:71-72 | the scanned maxima are ascending and at least two samples apart |
| Peaks.StrictMaxIsFound | detection.py:71-72 | every strict local maximum is found by the scan |
| Peaks.AtLeast | detection.py:71-72 | the height filter keeps exactly the candidates whose value is at least the height |
| Peaks.BestAt | detection.py:71-72 | the selected candidate is a highest one, and no earlier candidate is as high |
| Peaks.Far | detection.py:71-72 | the candidates kept around a pick are exactly those at least `d` samples from it |
| Peaks.Separate | detection.py:71-72 | greedy thinning keeps only candidates |
| Peaks.SeparateApart | detection.py:71-72 | any two kept candidates are at least `d` samples apart |
| Peaks.SeparateDominates | detection.py:71-72 | a candidate is dropped only for a kept one at least as high and closer than `d` samples |
| Peaks.Keep | detection.py:71-72 | filtering by the kept set keeps exactly the kept candidates, in order |
| Peaks.Candidates | detection.py:71-72 | candidates are in-range local maxima that reach the height, at least two samples apart |
| Peaks.PeaksSound | detection.py:71-72 | every peak is an interior local maximum with value at least the threshold, and peaks are ascending and pairwise at least `d` (and 2) samples apart |
| Peaks.PeaksMaximal | detection.py:71-72 | every scanned local maximum reaching the height is a peak, or is closer than `d` samples to a peak at least as high |
| Peaks.PeaksEmptyIff | detection.py:71-72 | no peak is found iff the scan finds no local maximum reaching the height |
| Peaks.StrictMaxGivesPeak | detection.py:71-72 | a strict local maximum reaching the height guarantees at least one peak |
| Peaks.SeparateKeepsApart | detection.py:71-72 | candidates already `d` apart are all kept by thinning |
| Peaks.PeaksCloseDistance | detection.py:71-72 | a minimum distance of one or two samples removes no candidate |
| Detection.ParsePattern | detection.py:36-40 | a pattern is recognised iff the name is `on_peak`, `between_peak` or `both`, case-sensitively |
| Detection.ParseSignal | detection.py:30-34 | a signal is recognised iff the name is `position`, `velocity` or `abs_velocity` |
| Detection.NamesRoundTrip | detection.py:31-38 | each pattern and signal is recognised by its own name |
| Detection.SelectSeries | detection.py:42-55 | position reads Position or fails naming it; velocity and abs_velocity succeed iff Velocity exists, else fail naming Velocity; velocity is the column unchanged; abs_velocity has its length and the absolute value of each entry |
| Detection.MinDistance | detection.py:58 | the minimum distance is `distance * fs` truncated toward zero |
| Detection.HalfDownIsTrunc | detection.py:87-92 | integer halving equals exact division by two followed by truncation toward zero |
| Detection.HalfDownMean | detection.py:87-92 | halving a natural number rounds down |
| Detection.HalfDownBetween | detection.py:87-92 | the truncated mean of two indices at least two apart lies strictly between them |
| Detection.Midpoints | detection.py:87-90 | there are exactly max(0, #peaks − 1) midpoints |
| Detection.MidpointsMean | detection.py:87-92 | each midpoint is `int((p[i] + p[i+1]) / 2)`, i.e. twice it is the pair sum or one less |
| Detection.MidpointsInterleave | detection.py:86-92 | midpoints of peaks at least two apart are ascending, strictly between their two peaks, and never peaks |
| Detection.Merge | detection.py:95 | the merge has both inputs' entries, with multiplicity |
| Detection.MergeFrom | detection.py:95 | every merged entry comes from one of the inputs |
| Detection.MergeInto | detection.py:95 | every input entry appears in the merge |
| Detection.MergeOrdered | detection.py:95 | merging sorted inputs is sorted; merging strictly ascending disjoint inputs is strictly ascending |
| Detection.PeaksInterior | detection.py:65-72 | peaks are never the first or the last sample |
| Detection.MidpointsInterior | detection.py:83-92 | midpoints are interior, ascending, and distinct from every peak |
| Detection.MergedShape | detection.py:94-95 | the merged peaks and midpoints are strictly ascending interior indices |
| Detection.Bracketed | detection.py:101-103 | bracketing puts 0 first and `n - 1` last, keeps the merged entries in between in order, and stays strictly ascending |
| Detection.Boundaries | detection.py:69-103 | a successful result has at least three entries, starts with 0, ends with `len - 1`, and is strictly ascending |
| Detection.Detect | detection.py:9-109 | an unknown signal is rejected first, then an unknown pattern; a result starts with 0 and is strictly ascending |
| Detection.BoundariesEmptySeries | detection.py:75-77 | an empty series fails the max/min/mean statistics iff peaks are computed for display (`on_peak`, `both`) |
| Detection.MergedEmpty | detection.py:94-97 | nothing is merged iff no peak is found, or fewer than two for `between_peak` |
| Detection.BoundariesNoCycles | detection.py:97-99 | "No cycles detected" iff the series is usable and the pattern's contribution is empty |
| Detection.BoundariesContent | detection.py:94-103 | on success the length is the merged count + 2, and the interior is exactly the peaks and midpoints the pattern asks for |
| Detection.BoundariesComplete | detection.py:94-103 | on success every peak (`on_peak`, `both`) and every midpoint (`between_peak`, `both`) is a boundary |
| Detection.BoundariesBracketed | detection.py:97-103 | with a non-empty series and some merged index, the result is the merge bracketed by 0 and `len - 1` |
| Detection.DetectOutcome | detection.py:57-72 | with valid names and column, a minimum distance below one sample is rejected iff `distance * fs < 1`; otherwise the outcome is the peak stage on the selected series |
| Detection.DetectMissingColumn | detection.py:42-55 | with valid names, a missing column fails before any distance or peak logic |
| Detection.DetectSignalChoice | detection.py:43-55 | `velocity` and `abs_velocity` behave as `position` on the Velocity column, or on its absolute value |
| Detection.ThreePeaksCandidates | detection.py:70-72 | the local maxima of `[0,1,0,1,0,1,0]` reaching 0.5 are 1, 3 and 5, and none reaches 1.5 |
| Detection.ThreePeaksFound | detection.py:70-72 | with a one-sample distance, those three are the peaks |
| Detection.MidpointsOneThreeFive | detection.py:87-92 | the midpoints of peaks 1, 3, 5 are 2 and 4 |
| Detection.ThreePeaksRejected | detection.py:58-99 | on that series a height of 1.5 finds no cycles, and half a sample of distance is rejected |
| Detection.ThreePeaksMerged | detection.py:70-95 | on that series, `on_peak` merges to the peaks 1, 3, 5 |
| Detection.ThreePeaksBoundaries | detection.py:101-103 | a seven-sample series merging to 1, 3, 5 is cut at 0, 1, 3, 5, 6 |
| Detection.ThreePeaksDetected | detection.py:9-109 | `detect_cycles` on `[0,1,0,1,0,1,0]`, threshold 0.5, distance 1 s, fs 1, `on_peak`, `position` returns `[0, 1, 3, 5, 6]` |
| CyclesUtils.Gradient | cycles_utils.py:66-67 | the derived velocity has the position's length |
| CyclesUtils.GradientOfLine | cycles_utils.py:66-67 | the gradient of a straight line is its slope at every sample |
| CyclesUtils.LowPass | cycles_utils.py:86-111 | smoothing succeeds iff the normalised cutoff `2 / (fs / 2)` is in (0, 1) and there are more than 6 samples; it then returns the filter's output, and an out-of-range cutoff is the reported error |
| CyclesUtils.CutoffInRange | cycles_utils.py:100-106 | the normalised cutoff is valid iff `fs > 4` |
| CyclesUtils.Prepare | cycles_utils.py:54-84 | fails on an empty position column name, then on a missing column, then (when Velocity is derived) on fewer than two samples for the gradient, then on a falsy `fs`, in that order; success yields exactly Position and Velocity |
| CyclesUtils.PrepareSucceedsIff | cycles_utils.py:54-80 | preparation succeeds iff the column is named and present, no velocity column is named, `fs > 4` and the column has more than 6 samples |
| CyclesUtils.PrepareSeries | cycles_utils.py:62-80 | Position is the smoothed column and Velocity the smoothed gradient (derived, never read); both keep the column's length under a length-preserving filter |
| CyclesUtils.PrepareReadsOnlyPosition | cycles_utils.py:58-63 | preparation depends on no column but the position column |
| CyclesUtils.CyclesFile | cycles_utils.py:131 | the artifact name is the record name followed by `_cycles.json` |
| CyclesUtils.CyclesFileInjective | cycles_utils.py:131 | distinct records have distinct artifact files |
| CyclesUtils.CyclesFileReserved | cycles_utils.py:131 | no artifact file is `last_parameters.json` or `processed_records.log` |
| CyclesUtils.LoadLastParameters | cycles_utils.py:300-326 | the stored parameters when the file exists and reads; otherwise threshold 1.0, distance 2.0, pattern `both` |
| CyclesUtils.SaveCycleDataSpec | cycles_utils.py:115-138 | succeeds iff the artifact is writable; the artifact then holds the record name, parameters and indices unchanged, and the record counts as processed; no other file changes |
| CyclesUtils.LogProcessedRecordSpec | cycles_utils.py:156-175 | appends exactly one row `[name, time, name_cycles.json, params]`; earlier rows are untouched; a failed write changes nothing and raises nothing |
| CyclesUtils.SaveLastParametersSpec | cycles_utils.py:282-297 | succeeds iff writable; loading then returns exactly the saved parameters; no other file changes |
| CyclesUtils.SaveCycleDataKeepsOthers | cycles_utils.py:115-153 | saving one record's artifact changes neither the loaded parameters nor whether any other record was processed |
| CyclesUtils.SaveLastParametersKeepsArtifacts | cycles_utils.py:282-297 | saving parameters never changes whether a record was processed |
| CyclesUtils.OutputDir.constructor | cli.py:27 | the directory starts with the given contents |
| CyclesUtils.OutputDir.SaveCycleData | cycles_utils.py:115-138 | the in-place write results in exactly `SaveCycleDataSpec`'s outcome and store |
| CyclesUtils.OutputDir.LogProcessedRecord | cycles_utils.py:156-175 | the in-place append results in exactly `LogProcessedRecordSpec`'s store |
| CyclesUtils.OutputDir.SaveLastParameters | cycles_utils.py:282-297 | the in-place write results in exactly `SaveLastParametersSpec`'s outcome and store |
| CyclesUtils.TruncAll | cycles_utils.py:258 | each click's x coordinate is truncated toward zero, in click order |
| CyclesUtils.Decisions | cycles_utils.py:272-274 | each confirmation accepts iff its answer, empty meaning `Y`, strips and lowers to `y` |
| CyclesUtils.ManualOn | cycles_utils.py:243-279 | a confirmed result is the non-empty truncated clicks of the last round used, in click order, with no sorting and no 0/last insertion |
| CyclesUtils.ManualSpec | cycles_utils.py:243-279 | the same, from the raw answers |
| CyclesUtils.ManualStep | cycles_utils.py:243-277 | one round: an empty selection restarts without asking; a "no" restarts; a "yes" ends with that round's indices; no answer left ends the input |
| CyclesUtils.ManualCutting | cycles_utils.py:229-279 | the `while True` loop returns exactly `ManualSpec` |
| CyclesUtils.ManualRestart | cycles_utils.py:262-277 | a first round that is empty or declined restarts from empty, with the rest of the input |
| CyclesUtils.ManualOutOfInput | cycles_utils.py:257-274 | when input runs out, no round was confirmed |
| CyclesUtils.ManualConfirmedIsFirst | cycles_utils.py:243-279 | confirmed indices come from the first confirming round, after one answer per earlier non-empty round |
| CyclesUtils.ManualConfirmsIff | cycles_utils.py:243-279 | the loop confirms iff some round confirms |
| Cli.InitialParams | cli.py:29-39 | pattern and signal are always taken from the options; threshold and distance are taken from them only when supplied, otherwise from the loaded parameters |
| Cli.InitialParamsOverride | cli.py:30-39 | re-applying the options changes nothing; with both values supplied the stored parameters do not matter, and without them only their threshold and distance do |
| Cli.IsRecordIff | cli.py:45 | a file is a record iff its lower-cased name ends in `.csv` or `.parquet` and contains both lower-cased keywords |
| Cli.Records | cli.py:42-46 | the records are exactly the listed files that are records |
| Cli.RecordPositions | cli.py:42-46 | the records are the listing's entries at strictly ascending positions, and every position holding a record is among them: the filter keeps every record, duplicates included, in listing order |
| Cli.JoinPath | cli.py:43 | the joined path starts with the directory and ends with the file name |
| Cli.RecordNameOfEntry | cli.py:54 | a listed record `stem + ext` is named `stem`, whatever its directory |
| Cli.EntryOf | cli.py:43 | a record's path starts with the data directory and ends with the listed file name |
| Cli.EntryOfRecord | cli.py:43-54 | a listed record `stem + ext` is processed under the name `stem`, at its path in the data directory |
| Cli.Entries | cli.py:42-54 | one entry per record, in listing order |
| Cli.PromptReal | cli.py:101-112 | a float prompt consumes lines up to the first empty line (the default) or parseable line (its value); every line before is non-empty and unparseable |
| Cli.ChoosePattern | cli.py:113-119 | a choice is accepted only when its lower-cased text names the pattern |
| Cli.PromptChoice | cli.py:113-119 | a choice prompt consumes lines up to the first one naming a pattern (an empty line meaning the default); every line before names none |
| Cli.PromptParams | cli.py:100-119 | the signal is never changed; a completed retune leaves a valid pattern; a threshold change implies the threshold prompt was answered |
| Cli.PromptParamsValues | cli.py:100-119 | each answered prompt sets its parameter to the prompt's value, with the current value as default; parameters whose prompt was not reached keep their value; the retune is complete iff the pattern prompt was answered |
| Cli.RetuneAnswered | cli.py:100-128 | after three accepted answers, the next pass detects with the typed threshold, distance and pattern (an empty answer keeping the current value), or manual cutting ends the loop with exactly those parameters |
| Cli.ManualExit | cli.py:120-128 | manual cutting ends the loop with the truncated clicks of one non-empty round and the parameters just entered; input running out keeps the indices |
| Cli.Retune | cli.py:99-128 | retuning keeps the signal and a valid pattern, consumes input, and never loses indices |
| Cli.ReviewSpec | cli.py:75-128 | the loop keeps the signal and a valid pattern, consumes input, and never loses indices |
| Cli.ReviewIndicesOrigin | cli.py:75-128 | the loop's indices are the incoming ones, a detection's result, or a round of manual clicks |
| Cli.ReviewAcceptAfterFailure | cli.py:76-98 | accepting right after a failed detection keeps the stale indices from an earlier pass or record (or none) |
| Cli.ReviewAcceptedFresh | cli.py:75-98 | when the final parameters detect successfully, accepted indices are exactly that detection's result |
| Cli.ReviewManualIndices | cli.py:120-128 | a manual exit yields a non-empty truncated click round, without re-running detection |
| Cli.Persist | cli.py:130-136 | the artifact, the log row and the parameters are written in that order, each with the final parameters; completion iff both files are writable; a failed artifact write writes nothing; log rows are only appended |
| Cli.Process | cli.py:74-136 | one report per record; the signal is kept; a completed record's artifact holds its final parameters and indices, and those are the parameters loaded next; a failure before saving writes nothing |
| Cli.Load | cli.py:67-72 | a load or preparation failure ends the record with nothing written, and otherwise as `Process` |
| Cli.RecordStep | cli.py:53-141 | one record inside the `try`: exactly one report; files and log rows are never removed; completion implies the artifact and parameters are saved |
| Cli.RecordSkipped | cli.py:57-63 | a record is skipped iff its artifact exists and the answer (default `N`) is not yes; skipping changes nothing but the consumed answer |
| Cli.RecordFailsCleanly | cli.py:67-136 | a record failing before its artifact write leaves the store unchanged |
| Cli.RecordCompletedIndices | cli.py:74-132 | a completed record's indices come from a detection, a manual round, or the indices carried in |
| Cli.Fold | cli.py:53-141 | the loop over records never changes the signal, reports once per record, and never removes files or log rows |
| Cli.RunSpec | cli.py:41-143 | no matching record ends the run with nothing done; otherwise every record is reported |
| Cli.FoldReportsInOrder | cli.py:53-141 | the k-th report is about the k-th record, so an error in one record does not stop the rest |
| Cli.FoldCompletedProcessed | cli.py:131-141 | every record reported completed has its artifact when the run ends |
| Cli.FoldKeepsProcessed | cli.py:131-141 | a record processed before stays processed |
| Cli.Session.constructor | cli.py:29-39 | the session starts from the loaded parameters with the options applied, no indices, and no reports |
| Cli.Session.ReviewLoop | cli.py:75-128 | the in-place `while True` loop ends in exactly `ReviewSpec`'s state |
| Cli.Session.ReviewPass | cli.py:76-98 | one detect-and-accept pass ends the loop as `ReviewSpec` does, or consumes input and leaves the loop's eventual outcome unchanged |
| Cli.Session.RetunePass | cli.py:99-128 | one retune pass ends the loop as `Retune` does, or consumes input and continues with the same remaining loop |
| Cli.Session.ManualPhase | cli.py:120-128 | the manual phase ends in exactly `ManualExit`'s state |
| Cli.Session.ProcessRecord | cli.py:53-141 | processing one record in place ends in exactly `RecordStep`'s world |
| Cli.Session.Run | cli.py:41-143 | the record loop ends in exactly `RunSpec`'s world |

## Left out

- Floating point: series, thresholds, distances and sampling rates are exact reals, so rounding in `distance * fs` or in comparisons is not modelled.
- Peak picking: SciPy's `find_peaks` is not part of this model. It is re-specified in `peaks.dfy`. Candidates equal in height are taken earliest first, where SciPy's order among ties is implementation-defined.
- `Text.Lower`: lower-cases ASCII letters only; Python's full Unicode lower-casing is not modelled.
- `CyclesUtils.LowPass`: the Butterworth design and `filtfilt` values are an abstract function `zeroPhase`. Only SciPy's error conditions are modelled: the cutoff outside (0, 1), and a series no longer than the padding.
- `Cli.PromptReal`: float parsing of a typed line is an abstract function `parseReal`.
- Plots (`show_plots`, the figures of `manual_cutting`) and all printed or coloured messages are left out. Exceptions raised while plotting are not modelled.
- File I/O: `load_data` is a map from record path to loaded table, and a path missing from the map fails to load. `os.listdir` is a given listing, and `os.makedirs` is the existing output directory. JSON and CSV encoding are not modelled, so the float/int form of saved indices is not distinguished.
- Time: `datetime.now()` is a clock reading taken from the store. The ISO-8601 text is not modelled.
- The `data_source`, `condition` and `filename` arguments of `prepare_data_for_cycle_detection` are unused by it and are left out. So are the `fs` and `confirmation` parameters of `manual_cutting`.
- `manual_cutting` click rounds are a given sequence; running out of rounds or answers is treated as click's `Abort`.
- `KeyboardInterrupt` and other exceptions outside `Exception` are not modelled: the handler at `cli.py:138-141` does not catch them.
- Two files in the listing with the same base name and different extensions get the same record name; the model processes them in turn, as the code does, but proves nothing specific about that case.
