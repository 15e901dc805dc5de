# Scan-o-Matic core, modelled in Dafny

Scan-o-Matic follows microbial colonies growing on plates in flatbed scanners. This project models the logic at the heart of the program.

The main part is the growth-curve phase segmentation of `curve_phase_phenotypes.py`:

- **The inputs.** A smoothed growth curve's derivative `dydt` is ranked (`argsort().argsort()`). The signs of its second difference are taken.
- **Labelling.** An all-Undetermined label array as long as the curve is cut recursively by `_segment` into Impulse, Acceleration, Retardation, Flat and Undetermined runs:
  - the segmentation is steered by the segment locator `_locate_segment` (scipy's one-dimensional `label`), the width-3 median filter and the filter buffer of `_get_filter`;
  - the locators write the labels in place.
- **The phase vector.** The labelled runs are then listed phase by phase and sorted stably on their start time.
- **Meta-phenotypes.** The meta-phenotype helpers select and count entries of that vector.

Around this core the project models the following:

- **Model records.** The record type `Model` of `generics/model.py`: fields fixed at initialisation, the field-type enum set once per class, and iteration over the public attributes.
- **The model-factory helpers** of `abstract_model_factory.py`:
  - key paths;
  - the prefix filter of serialised members;
  - bounds checking and clamping;
  - `update`;
  - pinning formats;
  - the settings-migration edits.
- **The scanning-job field validators** of `scanning_factory.py`.
- **The web server's helpers** in `ui_server/general.py`: the directory-name guard, the stripping of empty exits and the JSON response.
- **The image-cell bookkeeping** of `src/analysis_grid_cell_dissection.py`:
  - offset array subtraction;
  - the round kernel;
  - recipe lists;
  - the blob's threshold and rectangle masks.
- **The GTK controller tree** of `src/controller_generic.py`.
- **The JavaScript front end:**
  - the colour-calibration helpers (hex colours, `rgb()` text, and the canvas pixel walks of the marker editor);
  - the scanning-job panel (durations, progress and its display rules);
  - the project page's action creators and submit thunks;
  - the quality-control state builder.

## How the model is built

- Python's and JavaScript's dynamic values are datatypes: `PyValues.Value`, and `ProjectActions.JsValue` as far as `typeof` tells values apart.
- Raised exceptions are result constructors: `Outcome.Raised`, `Validation.RaisesAttributeError`, a `false` return from a method, or `None`.
- Code that changes state in place is imperative Dafny:
  - numpy arrays that are written in place are `array`/`array2`, and a masked or sliced numpy assignment is a `forall` statement;
  - Python and JavaScript objects whose fields are reassigned are classes.
- Pure expressions are functions.
- The clock, Otsu's threshold, a directory's existence and the Redux selectors are parameters.

A curve whose peak rate never reaches the impulse slope requirement ends with every label Undetermined (0): the label array starts at 0 and the early exit of `_segment` writes nothing else. `PhaseDriver.PhasePhenotypes` states this.

Three further quirks of the code are modelled as they are:

- Impulse labels are written before the impulse is checked. When the median filter clears the peak, they go to every position without a candidate run, including positions outside the window being segmented (`Segmentation.ImpulseWriteLeavesWindow`).
- For the same reason, when the median filter clears the peak but one other run of candidates survives, `_locate_impulse` returns that run, yet Impulse is written everywhere except on it (`Segmentation.ImpulseWriteMissesRun`). The segmentation contracts therefore promise Impulse on the impulse run only when the peak is part of it (`Segmentation.PeakSurvives`).
- The right-hand edge copy in the early exits of `_segment` is guarded by `right == phases.size`. That guard never holds, because `right` is a derivative index and the label array is longer by twice the offset.

## Model

| member | source | states |
|---|---|---|
| CurvePhases.CurvePhase.Code | scanomatic/data_processing/curve_phase_phenotypes.py:12-25 | each phase's integer code lies in -1..4, and -1 belongs to Multiple alone |
| CurvePhases.AllPhasesDistinct | scanomatic/data_processing/curve_phase_phenotypes.py:12-25 | the enumeration order lists every phase exactly once |
| CurvePhases.FromCode | scanomatic/data_processing/curve_phase_phenotypes.py:12-25 | `CurvePhases(v)` succeeds exactly for v in -1..4 and yields the phase with that code |
| CurvePhases.CodeRoundTrip | scanomatic/data_processing/curve_phase_phenotypes.py:12-25 | decoding a phase's code gives the phase back |
| CurvePhases.ResolveThresholds | scanomatic/data_processing/curve_phase_phenotypes.py:113-114 | a missing thresholds argument means DEFAULT_THRESHOLDS, a given one is used as is |
| Runs.Label | scanomatic/data_processing/curve_phase_phenotypes.py:201 | scipy's `label` on a 1-D mask: 0 exactly off the mask, and labels never exceed the run count |
| Runs.Nonzero | scanomatic/data_processing/curve_phase_phenotypes.py:187 | the mask of the non-zero labels |
| Runs.LabelIs | scanomatic/data_processing/curve_phase_phenotypes.py:203 | `labels == c` is True exactly where the label is c |
| Runs.MedFilt3 | scanomatic/data_processing/curve_phase_phenotypes.py:185 | the width-3 median filter keeps the mask's length |
| Runs.FirstTrue | scanomatic/data_processing/curve_phase_phenotypes.py:203-204 | `where[0]`: a True position with nothing True before it |
| Runs.LastTrue | scanomatic/data_processing/curve_phase_phenotypes.py:203-204 | `where[-1]`: a True position with nothing True after it |
| Runs.LocateSegment | scanomatic/data_processing/curve_phase_phenotypes.py:192-209 | bounds (first, last + 1) exactly when the mask has one run; the not-homogeneous warning exactly for more than one |
| Runs.RunStartsMonotone | scanomatic/data_processing/curve_phase_phenotypes.py:201 | the count of run starts grows with the prefix |
| Runs.LabelMonotone | scanomatic/data_processing/curve_phase_phenotypes.py:201 | labels never decrease from left to right across True positions |
| Runs.TrueHasStart | scanomatic/data_processing/curve_phase_phenotypes.py:201 | every True position lies in a started run |
| Runs.LabelBounds | scanomatic/data_processing/curve_phase_phenotypes.py:201 | True positions carry labels 1..RunCount |
| Runs.GapStartsRun | scanomatic/data_processing/curve_phase_phenotypes.py:201 | a False position before a True one means a new run started in between |
| Runs.LabelExists | scanomatic/data_processing/curve_phase_phenotypes.py:201 | each label 1..RunCount is carried by some position |
| Runs.LabelConvex | scanomatic/data_processing/curve_phase_phenotypes.py:201 | positions with the same non-zero label are contiguous |
| Runs.RangeMaskEnds | scanomatic/data_processing/curve_phase_phenotypes.py:203-204 | the first and last True positions of a range mask are its ends |
| Runs.ConvexIsRange | scanomatic/data_processing/curve_phase_phenotypes.py:203-204 | a gap-free non-empty mask is True exactly from its first to its last True position |
| Runs.LabelIsRange | scanomatic/data_processing/curve_phase_phenotypes.py:201-204 | the positions carrying an existing label form one non-empty range |
| Runs.LabelRunIsMaximal | scanomatic/data_processing/curve_phase_phenotypes.py:201-204 | a labelled range is a maximal run: True inside, False or absent just outside |
| Runs.RangeMaskStarts | scanomatic/data_processing/curve_phase_phenotypes.py:201 | a single-range mask has exactly one run start |
| Runs.RangeMaskOneRun | scanomatic/data_processing/curve_phase_phenotypes.py:192-204 | a mask that is one range [lo, hi) has one run and `_locate_segment` returns (lo, hi) |
| Runs.NoTrueNoRun | scanomatic/data_processing/curve_phase_phenotypes.py:201 | an all-False mask has no run start |
| Runs.RunCountZero | scanomatic/data_processing/curve_phase_phenotypes.py:201-209 | the run count is 0 exactly when nothing is True |
| Runs.NonzeroLabel | scanomatic/data_processing/curve_phase_phenotypes.py:187 | the non-zero labels are exactly the original mask |
| Runs.MedFiltWithin | scanomatic/data_processing/curve_phase_phenotypes.py:244 | the median filter never sets a position outside a window holding every True position |
| Runs.MedFiltKeeps | scanomatic/data_processing/curve_phase_phenotypes.py:185 | a True position survives the filter exactly when a neighbour is True |
| Runs.LastLabelIsRightmost | scanomatic/data_processing/curve_phase_phenotypes.py:248 | the run with the highest label, which acceleration picks, has nothing True after it |
| Runs.FirstLabelIsLeftmost | scanomatic/data_processing/curve_phase_phenotypes.py:265 | the run labelled 1, which retardation picks, has nothing True before it |
| Runs.LabelRunCount | scanomatic/data_processing/curve_phase_phenotypes.py:247-250 | the positions of one existing label form a mask with exactly one run |
| PhasePreprocessing.Ranks | scanomatic/data_processing/curve_phase_phenotypes.py:346 | one rank per rate |
| PhasePreprocessing.RanksOrderValues | scanomatic/data_processing/curve_phase_phenotypes.py:346 | the ranks are a permutation of 0..n-1 that orders the rates: lower rate means lower rank, and lower rank means no higher rate |
| PhasePreprocessing.CountPrecedingBound | scanomatic/data_processing/curve_phase_phenotypes.py:346 | a rank never exceeds the number of other positions |
| PhasePreprocessing.CountPrecedingStrict | scanomatic/data_processing/curve_phase_phenotypes.py:346 | a position that sorts earlier gets a strictly smaller rank |
| PhasePreprocessing.ConvolveValid | scanomatic/data_processing/curve_phase_phenotypes.py:347 | the 'valid' convolution has length n - m + 1 |
| PhasePreprocessing.Sign | scanomatic/data_processing/curve_phase_phenotypes.py:348 | numpy's sign is -1, 0 or 1 |
| PhasePreprocessing.Signs | scanomatic/data_processing/curve_phase_phenotypes.py:347-348 | the padded sign vector is as long as the derivative |
| PhasePreprocessing.SignsCentralDifference | scanomatic/data_processing/curve_phase_phenotypes.py:347-348 | the signs are 0 at both ends and sign(dydt[j+1] - dydt[j-1]) in between |
| PhasePreprocessing.MaxSelected | scanomatic/data_processing/curve_phase_phenotypes.py:100-102 | `np.max(vector[filt])` is a selected value and no selected value exceeds it |
| PhasePreprocessing.WhereEqual | scanomatic/data_processing/curve_phase_phenotypes.py:102 | `np.where((vector == x) & filt)` lists selected positions holding x, and all of them |
| PhasePreprocessing.FilterFind | scanomatic/data_processing/curve_phase_phenotypes.py:100-102 | `_filter_find` finds at least one position when something is selected |
| PhasePreprocessing.WhereEqualNone | scanomatic/data_processing/curve_phase_phenotypes.py:102 | no selected x means an empty result |
| PhasePreprocessing.WhereEqualInjective | scanomatic/data_processing/curve_phase_phenotypes.py:102 | with distinct values the result is the one position holding x |
| PhasePreprocessing.FilterFindPeak | scanomatic/data_processing/curve_phase_phenotypes.py:100-102 | with distinct ranks `_filter_find` returns exactly one selected position, with the largest selected rank |
| PhasePreprocessing.PeakHasMaximalRate | scanomatic/data_processing/curve_phase_phenotypes.py:125 | the peak found by rank has the largest selected rate |
| Segmentation.SliceBound | scanomatic/data_processing/curve_phase_phenotypes.py:235 | Python's clamp of a slice bound; in-range bounds are kept |
| Segmentation.Between | scanomatic/data_processing/curve_phase_phenotypes.py:212-236 | the mask True exactly on [a, b) |
| Segmentation.Written | scanomatic/data_processing/curve_phase_phenotypes.py:188 | a masked write through `phases[offset:-offset]` keeps the array's length |
| Segmentation.Filled | scanomatic/data_processing/curve_phase_phenotypes.py:135 | a slice fill keeps the array's length |
| Segmentation.GetFilter | scanomatic/data_processing/curve_phase_phenotypes.py:212-236 | a fresh buffer of the given size or the caller's own buffer, True exactly on [left, right) with defaults 0 and the buffer's size |
| Segmentation.ExtendLeftEdge | scanomatic/data_processing/curve_phase_phenotypes.py:178 | `phases[:offset] = phases[offset]`, nothing else changes |
| Segmentation.ExtendRightEdge | scanomatic/data_processing/curve_phase_phenotypes.py:179 | `phases[-offset:] = phases[-offset-1]`, nothing else changes |
| Segmentation.WriteMasked | scanomatic/data_processing/curve_phase_phenotypes.py:249 | the array becomes the masked write of the code through the view |
| Segmentation.ExtendEdges | scanomatic/data_processing/curve_phase_phenotypes.py:177-179 | both edge bands copy their neighbouring label, the middle is unchanged, and every label was already present |
| Segmentation.ImpulseCandidates | scanomatic/data_processing/curve_phase_phenotypes.py:184 | the candidates keep the derivative's length |
| Segmentation.ImpulseRuns | scanomatic/data_processing/curve_phase_phenotypes.py:184-185 | the filtered candidates keep the derivative's length |
| Segmentation.ImpulseMask | scanomatic/data_processing/curve_phase_phenotypes.py:187-188 | the positions labelled like the peak keep the derivative's length |
| Segmentation.ImpulseMaskInWindow | scanomatic/data_processing/curve_phase_phenotypes.py:184-188 | when the peak survives the median filter, Impulse is written only inside the window |
| Segmentation.ImpulseWriteLeavesWindow | scanomatic/data_processing/curve_phase_phenotypes.py:184-188 | a five-sample example where the peak is filtered away and Impulse is written outside the window [1, 4) |
| Segmentation.ImpulseWriteMissesRun | scanomatic/data_processing/curve_phase_phenotypes.py:182-189 | a seven-sample example where the peak is filtered away, one run [4, 6) survives and is returned, and Impulse is written on every position but that run |
| Segmentation.SlopeRuns | scanomatic/data_processing/curve_phase_phenotypes.py:241-245 | the filtered slope candidates keep the derivative's length |
| Segmentation.LocateImpulse | scanomatic/data_processing/curve_phase_phenotypes.py:182-189 | writes Impulse on the peak's label through the view and returns `_locate_segment` of the filtered candidates |
| Segmentation.LocateAcceleration | scanomatic/data_processing/curve_phase_phenotypes.py:239-253 | with runs: the last run becomes Acceleration and its span is returned with Flat; without: the window becomes Undetermined and (left, right) is returned with Undetermined |
| Segmentation.LocateRetardation | scanomatic/data_processing/curve_phase_phenotypes.py:256-270 | as acceleration with falling slopes, Retardation and the first run |
| Segmentation.AccelerationIsLastRun | scanomatic/data_processing/curve_phase_phenotypes.py:247-250 | the acceleration span lies in [left, right) and nothing rising survives to its right |
| Segmentation.RetardationIsFirstRun | scanomatic/data_processing/curve_phase_phenotypes.py:264-267 | the retardation span lies in [left, right) and nothing falling survives to its left |
| Segmentation.SelectedIsWindow | scanomatic/data_processing/curve_phase_phenotypes.py:116-119 | the single-distinct-value check on a window filter is the homogeneity of the window's labels |
| Segmentation.WindowFacts | scanomatic/data_processing/curve_phase_phenotypes.py:122-127 | on a window filter, the borders are the window, the peak is the window's top rank, and `filt.all()` means the whole derivative |
| Segmentation.Peak | scanomatic/data_processing/curve_phase_phenotypes.py:125 | the window's peak by rank lies in the window |
| Segmentation.WindowImpulseMask | scanomatic/data_processing/curve_phase_phenotypes.py:184-188 | the window's impulse mask keeps the derivative's length |
| Segmentation.WindowImpulseRuns | scanomatic/data_processing/curve_phase_phenotypes.py:184-185 | the window's impulse runs keep the derivative's length |
| Segmentation.ImpulseSpan | scanomatic/data_processing/curve_phase_phenotypes.py:189 | with one run of impulse candidates, the returned bounds lie in the window and the run is exactly [left, right) |
| Segmentation.AccelerationMask | scanomatic/data_processing/curve_phase_phenotypes.py:247-249 | the positions of the last rising run but its first sample; all of them are rising-slope candidates |
| Segmentation.RetardationMask | scanomatic/data_processing/curve_phase_phenotypes.py:264-266 | the positions of the first falling run; all of them are falling-slope candidates |
| Segmentation.SlopeRunsWithin | scanomatic/data_processing/curve_phase_phenotypes.py:241-244 | the filtered slope candidates lie inside the window [left, right) |
| Segmentation.AccelerationWritten | scanomatic/data_processing/curve_phase_phenotypes.py:247-250 | after the acceleration write, the run but its first sample is Acceleration, and every such position lies right of the returned start |
| Segmentation.RetardationWritten | scanomatic/data_processing/curve_phase_phenotypes.py:264-267 | after the retardation write, the run is Retardation and ends before the returned end |
| Segmentation.LabelledKept | scanomatic/data_processing/curve_phase_phenotypes.py:161-175 | a later search of a disjoint window keeps a run's labels, up to Impulse |
| Segmentation.EvolvedReflexive | scanomatic/data_processing/curve_phase_phenotypes.py:110-179 | leaving the labels alone is an allowed change |
| Segmentation.EvolvedWiden | scanomatic/data_processing/curve_phase_phenotypes.py:161-175 | changes allowed for a sub-window are allowed for the window around it |
| Segmentation.EvolvedTransitive | scanomatic/data_processing/curve_phase_phenotypes.py:161-175 | two allowed changes in a row are allowed |
| Segmentation.WrittenEvolves | scanomatic/data_processing/curve_phase_phenotypes.py:188 | a masked code write inside the window, or of Impulse anywhere, is allowed |
| Segmentation.FilledEvolves | scanomatic/data_processing/curve_phase_phenotypes.py:135 | a fill inside the window or an edge band with a code or an existing label is allowed |
| Segmentation.EdgesEvolve | scanomatic/data_processing/curve_phase_phenotypes.py:178-179 | the edge copies are allowed changes |
| Segmentation.Segment | scanomatic/data_processing/curve_phase_phenotypes.py:110-179 | raises ValueError exactly when the window's labels are not one value, then changing nothing; otherwise only codes 0..4 or existing labels appear, outside the window only Impulse, below the slope requirement only the left edge band changes, without one impulse run the impulse write stays; after a full pass both edge bands copy their neighbours, the impulse run is Impulse (when it holds the peak), the acceleration run but its first sample is Acceleration and the retardation run Retardation (each up to a later Impulse), and only not-homogeneous warnings are emitted; no-impulse warnings come only from the whole curve; the recursion ends because each call's window is strictly smaller |
| Segmentation.SegmentWindow | scanomatic/data_processing/curve_phase_phenotypes.py:121-179 | steps 2-7 on a homogeneous window, with the three outcomes of `_segment`, including the labelled impulse, acceleration and retardation runs after a full pass |
| Segmentation.SkipBelowThreshold | scanomatic/data_processing/curve_phase_phenotypes.py:130-139 | only the left edge band changes (when the window starts at 0), and the no-impulse warning is emitted exactly for the whole curve |
| Segmentation.SegmentAroundPeak | scanomatic/data_processing/curve_phase_phenotypes.py:141-179 | the impulse, then the flanks; without one impulse run the impulse write and the left edge band; otherwise the edge bands copied, the impulse run Impulse when it holds the peak, the acceleration and retardation runs labelled, and only not-homogeneous warnings |
| Segmentation.FinishWithoutImpulse | scanomatic/data_processing/curve_phase_phenotypes.py:145-153 | after the impulse write, without one impulse run: the labels are the impulse write plus the left edge band of a window at 0, the warnings are the several-runs count and the whole-curve no-impulse warning, and only allowed changes are made |
| Segmentation.MissingImpulseKeeps | scanomatic/data_processing/curve_phase_phenotypes.py:145-153 | the impulse write followed by the left edge band is an allowed change for the window |
| Segmentation.ImpulseKept | scanomatic/data_processing/curve_phase_phenotypes.py:184-188 | when the peak is part of the single impulse run, the impulse write labels the whole run, and the flank searches leave it Impulse |
| Segmentation.ImpulsePathKeeps | scanomatic/data_processing/curve_phase_phenotypes.py:155-179 | the impulse write followed by the flank searches is an allowed change and leaves the impulse, acceleration and retardation runs labelled |
| Segmentation.ReportMissingImpulse | scanomatic/data_processing/curve_phase_phenotypes.py:145-153 | the not-homogeneous and no-impulse warnings and the left edge band |
| Segmentation.SegmentFlanks | scanomatic/data_processing/curve_phase_phenotypes.py:155-179 | acceleration and retardation around the impulse stay in the window, the impulse's labels stay (or become Impulse), the acceleration run but its first sample ends Acceleration and the retardation run Retardation (up to Impulse), only not-homogeneous warnings are emitted, and the edge bands end copied |
| Segmentation.FilterStaysIn | scanomatic/data_processing/curve_phase_phenotypes.py:155-175 | when each flank search selects only its own range, the reused filter stays within the window |
| Segmentation.FlanksKeep | scanomatic/data_processing/curve_phase_phenotypes.py:155-179 | steps 5, 6 and 7 together change labels only as allowed for the window, and keep the impulse, acceleration and retardation labels |
| Segmentation.SegmentLeftOfImpulse | scanomatic/data_processing/curve_phase_phenotypes.py:155-164 | the labels change only as allowed for [left, impulse_left), the filter selects only that range, the acceleration run but its first sample ends Acceleration (up to Impulse), and only not-homogeneous warnings are emitted |
| Segmentation.SearchRemainder | scanomatic/data_processing/curve_phase_phenotypes.py:161-164 | the remainder fill and its search change labels only as allowed for the flank, leave labels outside the fill unchanged or Impulse, and emit only not-homogeneous warnings |
| Segmentation.RemainderKeeps | scanomatic/data_processing/curve_phase_phenotypes.py:155-175 | a locator write followed by the remainder search is an allowed change and keeps a run's labels that the fill does not reach |
| Segmentation.SegmentRightOfImpulse | scanomatic/data_processing/curve_phase_phenotypes.py:166-175 | the labels change only as allowed for [impulse_right, right), the filter selects only that range, the retardation run ends Retardation (up to Impulse), and only not-homogeneous warnings are emitted |
| PhaseDriver.FlatCurveIffAllBelow | scanomatic/data_processing/curve_phase_phenotypes.py:125-130 | the early exit on the whole curve happens exactly when every rate is below the slope requirement |
| PhaseDriver.WholeCurveOutcome | scanomatic/data_processing/curve_phase_phenotypes.py:349-352 | after segmenting the whole curve every label is a code 0..4, and a flat curve is all Undetermined with the one no-impulse warning |
| PhaseDriver.PhasePhenotypes | scanomatic/data_processing/curve_phase_phenotypes.py:335-362 | raises (the IndexError of line 116) exactly when the curve is not longer than its derivative by an even number of at least two samples, which covers offset 0 and odd differences; otherwise labels as long as the curve, all codes 0..4 (never Multiple); a flat curve stays Undetermined; without one impulse run only the impulse write and the left edge band; with one, the edge bands copied, the impulse, acceleration and retardation runs labelled and only not-homogeneous warnings; the returned vector is the phase vector of the labels |
| PhaseDriver.CurveOffset | scanomatic/data_processing/curve_phase_phenotypes.py:345 | the offset is half the length difference rounded down, as Python 2's `/` on ints, negative differences included |
| PhaseDriver.CentreLength | scanomatic/data_processing/curve_phase_phenotypes.py:116 | the length of `phases[offset:-offset]`: empty for offset 0, and n - 2·offset for an offset of at most half the length |
| PhaseDriver.FilterMismatchIff | scanomatic/data_processing/curve_phase_phenotypes.py:116 | the whole-derivative filter matches `phases[offset:-offset]` exactly when the curve is longer than its derivative by an even number of at least two samples |
| PhaseDriver.SegmentWholeCurve | scanomatic/data_processing/curve_phase_phenotypes.py:346-352 | the labelling half of `phase_phenotypes` once the view `phases[offset:-offset]` matches the derivative (offset at least 1; the mismatch raise is stated by `PhasePhenotypes`): a fresh label array as long as the curve holding codes 0..4; all Undetermined for a flat curve; without one impulse run only the impulse write and left edge band; otherwise edge bands copied, the impulse, acceleration and retardation runs labelled and only not-homogeneous warnings |
| PhaseDriver.ImpulseAppears | scanomatic/data_processing/curve_phase_phenotypes.py:184-188 | on the impulse path, when the peak is part of the impulse run, some label of the curve is Impulse |
| PhaseSummary.PhaseMask | scanomatic/data_processing/curve_phase_phenotypes.py:281 | `phases == phase.value` |
| PhaseSummary.RunSpan | scanomatic/data_processing/curve_phase_phenotypes.py:288-289 | run c's bounds span exactly the positions labelled c, a maximal run of the phase |
| PhaseSummary.RunSpansOrdered | scanomatic/data_processing/curve_phase_phenotypes.py:281-289 | run c ends before run c + 1 begins |
| PhaseSummary.RunPhenotypes | scanomatic/data_processing/curve_phase_phenotypes.py:319-327 | Start is the first time of the run and Duration the last time minus the first |
| PhaseSummary.RunEntry | scanomatic/data_processing/curve_phase_phenotypes.py:284-329 | an entry of the phase, with phenotypes exactly for determined phases, starting at its run's first time |
| PhaseSummary.RunEntries | scanomatic/data_processing/curve_phase_phenotypes.py:281-329 | one entry of the phase per run |
| PhaseSummary.Enumerate | scanomatic/data_processing/curve_phase_phenotypes.py:279-329 | every entry has a sort key |
| PhaseSummary.CollectPhaseEntries | scanomatic/data_processing/curve_phase_phenotypes.py:276-329 | the loop collects the runs phase by phase in enumeration order |
| PhaseSummary.CollectRunEntries | scanomatic/data_processing/curve_phase_phenotypes.py:281-329 | the inner loop collects one entry per label, from the left |
| PhaseSummary.Insert | scanomatic/data_processing/curve_phase_phenotypes.py:332 | insertion adds exactly the one entry |
| PhaseSummary.SortByStart | scanomatic/data_processing/curve_phase_phenotypes.py:332 | the sort is a permutation |
| PhaseSummary.InsertSorted | scanomatic/data_processing/curve_phase_phenotypes.py:332 | insertion keeps the key order |
| PhaseSummary.SortByStartSorted | scanomatic/data_processing/curve_phase_phenotypes.py:332 | the result is ordered by key: the start time, or 9999 for an entry without phenotypes |
| PhaseSummary.WithKey | scanomatic/data_processing/curve_phase_phenotypes.py:332 | the entries of one key, each with a sort key |
| PhaseSummary.InsertStable | scanomatic/data_processing/curve_phase_phenotypes.py:332 | among the entries with the inserted entry's key, the inserted one comes first and the others keep their order |
| PhaseSummary.SortByStartStable | scanomatic/data_processing/curve_phase_phenotypes.py:332 | the sort is stable: entries with equal keys keep their order |
| PhaseSummary.PhaseVector | scanomatic/data_processing/curve_phase_phenotypes.py:273-332 | every entry of the phase vector has a sort key |
| PhaseSummary.PhenotypePhases | scanomatic/data_processing/curve_phase_phenotypes.py:273-332 | `_phenotype_phases` returns the phase vector |
| PhaseSummary.CountPhaseAppend | scanomatic/data_processing/curve_phase_phenotypes.py:285 | counts add over concatenation |
| PhaseSummary.CountPhaseInsert | scanomatic/data_processing/curve_phase_phenotypes.py:332 | insertion adds the entry's own count |
| PhaseSummary.CountPhaseSort | scanomatic/data_processing/curve_phase_phenotypes.py:332 | sorting keeps the count of every phase |
| PhaseSummary.CountPhaseUniform | scanomatic/data_processing/curve_phase_phenotypes.py:281-285 | entries of one phase count only for that phase |
| PhaseSummary.CountEnumerate | scanomatic/data_processing/curve_phase_phenotypes.py:279-329 | enumeration holds as many entries of a phase as it has runs |
| PhaseSummary.EntriesPerPhase | scanomatic/data_processing/curve_phase_phenotypes.py:273-332 | the phase vector holds exactly one entry per run of each phase |
| PhaseSummary.PhaseVectorOrdered | scanomatic/data_processing/curve_phase_phenotypes.py:331-332 | the phase vector is the enumeration, sorted by start and stable |
| MetaPhenotypes.CriteriaValues | scanomatic/data_processing/curve_phase_phenotypes.py:367 | the criteria value of each phase, in order |
| MetaPhenotypes.FirstWith | scanomatic/data_processing/curve_phase_phenotypes.py:368 | the first index holding a value, or none when no phase holds it |
| MetaPhenotypes.SelectByCriteria | scanomatic/data_processing/curve_phase_phenotypes.py:365-368 | a selected phase is the first whose criteria value equals `func` of all the values; it is only selected when every phase has the criteria key and `func` returns a value |
| MetaPhenotypes.Max | scanomatic/data_processing/curve_phase_phenotypes.py:365 | `max` is a member no smaller than any, and fails on empty input |
| MetaPhenotypes.SelectByMaxIsFirstMaximal | scanomatic/data_processing/curve_phase_phenotypes.py:365-368 | with `max`, the result is the first phase with the largest criteria value |
| MetaPhenotypes.OfPhase | scanomatic/data_processing/curve_phase_phenotypes.py:379 | one phenotype entry per entry of the phase |
| MetaPhenotypes.CustomFilterCell | scanomatic/data_processing/curve_phase_phenotypes.py:378-382 | NaN exactly when the requirement fails, otherwise the selected phase's measure, or failure |
| MetaPhenotypes.DefaultCustomFilter | scanomatic/data_processing/curve_phase_phenotypes.py:371-382 | with the defaults: the measure exactly for one entry of the phase holding it, NaN for none or several |
| MetaPhenotypes.CustomFilterPlate | scanomatic/data_processing/curve_phase_phenotypes.py:371-384 | fails exactly when some position fails; otherwise each position's measure, with NaN masked |
| MetaPhenotypes.ImpulseCounter | scanomatic/data_processing/curve_phase_phenotypes.py:387-388 | the count never exceeds the vector's length |
| MetaPhenotypes.ImpulseCounterCounts | scanomatic/data_processing/curve_phase_phenotypes.py:387-388 | the counter counts exactly the Impulse entries |
| MetaPhenotypes.ImpulseCountIsRunCount | scanomatic/data_processing/curve_phase_phenotypes.py:387-388 | a curve's impulse count is the number of Impulse runs of its labels |
| ModelFactory.GetPathFromStr | scanomatic/generics/abstract_model_factory.py:450-453 | at least one piece, none holding a dot |
| ModelFactory.JoinOfSplit | scanomatic/generics/abstract_model_factory.py:445-453 | joining a key's pieces gives the key back |
| ModelFactory.SplitAfterDotless | scanomatic/generics/abstract_model_factory.py:450-453 | a dot-free prefix extends the first piece |
| ModelFactory.SplitOfJoin | scanomatic/generics/abstract_model_factory.py:445-453 | splitting a joined non-empty path of dot-free names gives the path back |
| ModelFactory.KeyMatches | scanomatic/generics/abstract_model_factory.py:442 | the test holds exactly for keys that start with the filter and are longer |
| ModelFactory.FilterMemberModel | scanomatic/generics/abstract_model_factory.py:435-443 | yields exactly the matching keys, with the prefix removed and their companions kept |
| ModelFactory.FilterMemberModelAppend | scanomatic/generics/abstract_model_factory.py:439-443 | entries are yielded in input order |
| ModelFactory.KeyMatchesConcat | scanomatic/generics/abstract_model_factory.py:442 | matching two filters in turn is matching their concatenation |
| ModelFactory.FilterMemberModelNested | scanomatic/generics/abstract_model_factory.py:435-443 | filtering the filtered entries again is one filtering by the joined prefix |
| ModelFactory.TrimmedKeys | scanomatic/generics/abstract_model_factory.py:364-369 | each key loses its first len(prefix) + 1 characters, so `prefix.rest` becomes `rest` |
| ModelFactory.TrimmedKeyOfPath | scanomatic/generics/abstract_model_factory.py:364-369 | trimming a joined path by its head leaves the joined rest |
| ModelFactory.InBounds | scanomatic/generics/abstract_model_factory.py:193-205 | true exactly when the value is not below a set minimum and not above a set maximum |
| ModelFactory.ClampKeepsInBounds | scanomatic/generics/abstract_model_factory.py:155-162 | a value in bounds is unchanged |
| ModelFactory.ClampResult | scanomatic/generics/abstract_model_factory.py:155-162 | below the minimum the value becomes the minimum, otherwise above the maximum it becomes the maximum; with ordered bounds the result is in bounds and clamping is idempotent |
| ModelFactory.Clamp | scanomatic/generics/abstract_model_factory.py:148-162 | every public attribute becomes its clamped value; the set of attributes and the initialised flag stay |
| ModelFactory.Updated | scanomatic/generics/abstract_model_factory.py:85-92 | the intended result of `update` keeps the attribute names |
| ModelFactory.UpdateAsWritten | scanomatic/generics/abstract_model_factory.py:85-92 | as written, `update` changes nothing |
| ModelFactory.UpdateAsWrittenIgnoresSettings | scanomatic/generics/abstract_model_factory.py:88-92 | a public attribute x with setting x=1 is not set |
| ModelFactory.Update | scanomatic/generics/abstract_model_factory.py:85-92 | as intended, every setting naming a public attribute is set and nothing else changes |
| ModelFactory.IsPinningFormat | scanomatic/generics/abstract_model_factory.py:233-244 | true exactly for a tuple or list of two positive ints |
| ModelFactory.IsPinningFormats | scanomatic/generics/abstract_model_factory.py:207-220 | true exactly when every element is None or a pinning format (and for the empty string) |
| ModelFactory.Settings.constructor | scanomatic/generics/abstract_model_factory.py:541 | the dictionary holds the given entries |
| ModelFactory.Settings.RenameSetting | scanomatic/generics/abstract_model_factory.py:541-546 | old name gone; the new name takes the old value unless it had one; no other key changes |
| ModelFactory.Settings.SplitAndReplace | scanomatic/generics/abstract_model_factory.py:549-558 | nothing without the key; otherwise the loop's writes and the key deleted |
| ModelFactory.SplitInto | scanomatic/generics/abstract_model_factory.py:552-556 | the key is still present before deletion |
| ModelFactory.FormatInjective | scanomatic/generics/abstract_model_factory.py:554 | distinct names format to distinct keys |
| ModelFactory.SplitIntoKeepsKey | scanomatic/generics/abstract_model_factory.py:552-556 | the key's value survives the loop when no formatted name is the key |
| ModelFactory.SplitIntoSets | scanomatic/generics/abstract_model_factory.py:552-556 | each name whose index the value has maps to that element |
| ModelFactory.SplitIntoOthers | scanomatic/generics/abstract_model_factory.py:552-556 | other keys keep their entry or their absence |
| ModelFactory.SplitIntoSpec | scanomatic/generics/abstract_model_factory.py:549-558 | with distinct names not equal to the key: the indexed elements land under the formatted names, missing indices and non-indexable values are skipped, all else is kept |
| PyValues.Elements | scanomatic/generics/abstract_model_factory.py:237-238 | iteration works exactly for strings, tuples and lists; a string yields its characters |
| PyValues.Len | scanomatic/generics/abstract_model_factory.py:238 | `len` works exactly where iteration does and counts the elements |
| PyValues.Index | scanomatic/generics/abstract_model_factory.py:554-556 | TypeError exactly for non-sequences, IndexError exactly past the end, otherwise the element |
| ModelRecord.ModelClass.constructor | scanomatic/generics/model.py:6 | a class starts without field types |
| ModelRecord.ModelClass.SetFieldTypes | scanomatic/generics/model.py:46-58 | succeeds exactly the first time and then fixes the field types |
| ModelRecord.Model.Allocate | scanomatic/generics/model.py:9 | a new instance has an empty dictionary and no flag |
| ModelRecord.Model.Iter | scanomatic/generics/model.py:22-28 | yields exactly the attributes not starting with '_', with their values |
| ModelRecord.Model.Init | scanomatic/generics/model.py:9-20 | the field types are fixed from these keys first; it fails exactly on a key with an upper-case letter, and otherwise stores the content and marks the record initialised |
| ModelRecord.Model.Store | scanomatic/generics/model.py:17-18 | the loop stores every entry of the content but `_initialized`; for an `_initialized` entry the flag is recorded as False and its value is not kept |
| ModelRecord.Model.IsInitialized | scanomatic/generics/model.py:64-69 | a missing flag is stored as False, then the flag is read |
| ModelRecord.Model.SetAttr | scanomatic/generics/model.py:30-44 | fails for `_initialized` always and, once initialised, for a new name; otherwise stores the value |
| ScanningValidators.IndexOfAt | scanomatic/models/factories/scanning_factory.py:109 | the first '@' from a position |
| ScanningValidators.DotFollowed | scanomatic/models/factories/scanning_factory.py:109 | some '.' in a range is followed by a character other than '@' |
| ScanningValidators.EmailMatch | scanomatic/models/factories/scanning_factory.py:109 | the scan succeeds exactly when the regular expression matches |
| ScanningValidators.PatternFoundByScan | scanomatic/models/factories/scanning_factory.py:109 | every match of the pattern is found by the scan |
| ScanningValidators.AtNotBefore | scanomatic/models/factories/scanning_factory.py:109 | without an '@' in a range, the first '@' lies beyond it |
| ScanningValidators.ScanFindsPattern | scanomatic/models/factories/scanning_factory.py:109 | what the scan finds is a match |
| ScanningValidators.EmailMatchIsPattern | scanomatic/models/factories/scanning_factory.py:109 | the scan and the pattern agree |
| ScanningValidators.ValidateEmail | scanomatic/models/factories/scanning_factory.py:103-113 | valid exactly for a string that is empty or matches from its start; otherwise the email member |
| ScanningValidators.EmailExamples | scanomatic/models/factories/scanning_factory.py:103-113 | "a@b.c" passes, "a@b" does not |
| ScanningValidators.ValidateDescription | scanomatic/models/factories/scanning_factory.py:94-101 | valid exactly for a string; otherwise the description member |
| ScanningValidators.CountAllowed | scanomatic/models/factories/scanning_factory.py:72-73 | the count equals the length exactly when every character is allowed |
| ScanningValidators.ValidateProjectName | scanomatic/models/factories/scanning_factory.py:59-77 | valid exactly when no such directory exists (and the check does not raise) and every character is a letter, digit or '_' |
| ScanningValidators.ValidatePinningFormatsAsWritten | scanomatic/models/factories/scanning_factory.py:116-121 | valid exactly for valid formats; otherwise it raises AttributeError |
| ScanningValidators.PinningFormatsAsWrittenRaises | scanomatic/models/factories/scanning_factory.py:116-121 | a pinning of (0, 1) makes the validator raise |
| ScanningValidators.ValidatePinningFormats | scanomatic/models/factories/scanning_factory.py:116-121 | valid exactly for valid formats; otherwise the pinning-formats member |
| ScanningValidators.InvalidFields | scanomatic/generics/abstract_model_factory.py:110-124 | the intended `get_invalid`, over the corrected pinning-formats validator: a field is reported exactly when its validator does not return True |
| ScanningValidators.InvalidFieldsAsWritten | scanomatic/generics/abstract_model_factory.py:110-114 | `get_invalid` as written: it raises AttributeError exactly when the pinning formats are invalid, since `set(...)` runs every validator first; otherwise the other three fields are reported exactly when invalid |
| ScanningValidators.GetInvalidAsWrittenRaises | scanomatic/models/factories/scanning_factory.py:116-121 | with pinning formats ((0, 1),) and the other fields valid, `get_invalid` as written raises while the intended one reports only pinningFormats |
| UiGeneral.SafeRunEnd | scanomatic/ui_server/general.py:11 | the end of a run of safe characters |
| UiGeneral.SafeDirMatch | scanomatic/ui_server/general.py:11 | `^[A-Za-z_0-9./]*$` matches exactly all-safe text, optionally followed by one final newline |
| UiGeneral.SearchSuper | scanomatic/ui_server/general.py:12 | the search finds a match exactly when "../" occurs |
| UiGeneral.SafeDirectoryName | scanomatic/ui_server/general.py:15-16 | true exactly for safe characters (with an optional final newline) and no "../" |
| UiGeneral.SafeDirectoryNameExamples | scanomatic/ui_server/general.py:11-16 | "data/.." passes, "data/../etc" fails, "data\n" passes |
| UiGeneral.ExitList.constructor | scanomatic/ui_server/general.py:88-91 | the list holds the given exits |
| UiGeneral.DataDict.constructor | scanomatic/ui_server/general.py:88-94 | the dictionary holds the given entries |
| UiGeneral.Survivors | scanomatic/ui_server/general.py:96-102 | exactly the exits present in the data with a non-empty value, at most as many |
| UiGeneral.EmptiedExits | scanomatic/ui_server/general.py:98-99 | exactly the exits whose value is empty |
| UiGeneral.RemoveFirst | scanomatic/ui_server/general.py:100 | `list.remove` drops one element when present, nothing otherwise |
| UiGeneral.RemoveFirstAfter | scanomatic/ui_server/general.py:100 | it drops the first occurrence |
| UiGeneral.StripStepKeeps | scanomatic/ui_server/general.py:97-102 | a surviving exit stays in place |
| UiGeneral.StripStepDrops | scanomatic/ui_server/general.py:97-102 | removing a dropped exit drops just it |
| UiGeneral.StripStepData | scanomatic/ui_server/general.py:98-99 | only an emptied exit's key is deleted |
| UiGeneral.StripItemsInvariant | scanomatic/ui_server/general.py:96-102 | the loop keeps "survivors so far, then the rest" |
| UiGeneral.StripEntriesInvariant | scanomatic/ui_server/general.py:96-102 | the loop keeps "emptied exits so far deleted" |
| UiGeneral.StripExit | scanomatic/ui_server/general.py:98-102 | one step of the loop on both structures |
| UiGeneral.FirstUnsized | scanomatic/ui_server/general.py:97-98 | the first exit of the walk whose value has no length, or the walk's length when there is none |
| UiGeneral.RaisesAt | scanomatic/ui_server/general.py:97-98 | part way through the walk, `len()` raises on the current exit exactly when it is the first unsized one, although earlier exits have already been deleted |
| UiGeneral.StripEmptyExits | scanomatic/ui_server/general.py:88-102 | raises TypeError exactly when some exit's value has no length, keeping the changes made before it; otherwise the exits become the survivors in order, and the data loses exactly the emptied exits |
| UiGeneral.ResponseShape | scanomatic/ui_server/general.py:105-120 | is_endpoint exactly when no exit remains; exits stored exactly when not an endpoint; success only when given; other keys untouched |
| UiGeneral.JsonResponse | scanomatic/ui_server/general.py:105-120 | the strip's TypeError escapes with no response; otherwise strips the exits, then returns the data marked as the response |
| CellDissection.SliceIndex | src/analysis_grid_cell_dissection.py:173-174 | Python's slice bound: negatives count from the end, then clamp |
| CellDissection.SliceLength | src/analysis_grid_cell_dissection.py:173-174 | a slice's length, exact for in-range bounds |
| CellDissection.ClipBounds | src/analysis_grid_cell_dissection.py:127-167 | target and source slices have equal extent, are offset by `offset`, and lie within their arrays |
| CellDissection.ClipBoundsLiteral | src/analysis_grid_cell_dissection.py:127-167 | when A2 reaches A1 the bounds are literal ranges |
| CellDissection.SubtractionAsWrittenRaises | src/analysis_grid_cell_dissection.py:127-176 | A2 placed beyond A1 gives slices of 0 and 2 rows, and the subtraction raises |
| CellDissection.SubtractionReachingNeverRaises | src/analysis_grid_cell_dissection.py:127-176 | where A2 reaches A1 the subtraction as written never raises |
| CellDissection.ClippedIsCovered | src/analysis_grid_cell_dissection.py:127-167 | the clipped target cells are exactly the cells under A2 |
| CellDissection.ArraySubtraction | src/analysis_grid_cell_dissection.py:169-176 | a fresh copy of A1, with A2 subtracted exactly on the overlap |
| CellDissection.ArraySubtractionInto | src/analysis_grid_cell_dissection.py:178-182 | overlap cells of the output become A1 minus A2; other output cells are unchanged |
| CellDissection.RoundKernelAsWritten | src/analysis_grid_cell_dissection.py:81-101 | a (2r+3)-square array whose disc covers offsets -r..r-1 only |
| CellDissection.RoundKernelAsWrittenLopsided | src/analysis_grid_cell_dissection.py:88-99 | radius 1: the cell above the centre is set, the one below is not |
| CellDissection.KernelCell | src/analysis_grid_cell_dissection.py:96 | a kernel cell is 0 or 1 |
| CellDissection.KernelCellSymmetric | src/analysis_grid_cell_dissection.py:81-101 | the intended disc is symmetric about both axes and the diagonal, and the border is empty |
| CellDissection.RoundKernel | src/analysis_grid_cell_dissection.py:81-101 | a (2r+3)-square array holding the disc of radius r about the centre |
| CellDissection.InsertIndex | src/analysis_grid_cell_dissection.py:268 | `list.insert`'s position lies within the list |
| CellDissection.Inserted | src/analysis_grid_cell_dissection.py:268 | the element at the position, the others in their order around it |
| CellDissection.InsertMinusOneIsNotAppend | src/analysis_grid_cell_dissection.py:260-268 | `insert(-1, a)` would put a before the last element, which is why -1 appends |
| CellDissection.Recipe.constructor | src/analysis_grid_cell_dissection.py:192-202 | the list is [self], and a parent's list gains the recipe |
| CellDissection.Recipe.Empty | src/analysis_grid_cell_dissection.py:275-283 | the list is empty, and a parent's list gains the recipe |
| CellDissection.Recipe.AddAnalysis | src/analysis_grid_cell_dissection.py:260-268 | appends for -1, inserts at the position otherwise |
| CellDissection.DetectedComplement | src/analysis_grid_cell_dissection.py:1128-1134 | off the threshold the "inv" and "norm" masks are complements; on it neither detects |
| CellDissection.InRectInside | src/analysis_grid_cell_dissection.py:702-703 | a rectangle within the array covers exactly [r0, r1) x [c0, c1) |
| CellDissection.Blob.constructor | src/analysis_grid_cell_dissection.py:611-622 | a fresh copy of the image and an all-zero mask of its shape |
| CellDissection.Blob.SetThreshold | src/analysis_grid_cell_dissection.py:715-749 | relative adds (raising without a threshold), absolute replaces, none takes Otsu's threshold |
| CellDissection.Blob.ThresholdDetect | src/analysis_grid_cell_dissection.py:1101-1134 | the threshold is set first when missing or given; the mask is 1 exactly where the image passes the test |
| CellDissection.Blob.SetBlobFromShape | src/analysis_grid_cell_dissection.py:681-703 | the mask is 1 exactly on the rectangle's slices, 0 elsewhere |
| GenericController.SpecificModel.constructor | src/controller_generic.py:150 | an empty dictionary |
| GenericController.Controller.constructor | src/controller_generic.py:29-47 | saved, no subcontrollers, the given parent and specific model |
| GenericController.Controller.Ancestors | src/controller_generic.py:57-65 | the chain is empty exactly without a parent |
| GenericController.Controller.GetTopController | src/controller_generic.py:57-65 | a controller without a parent; itself exactly when it has none |
| GenericController.Controller.TopIsRoot | src/controller_generic.py:57-65 | the top is the last link of the parent chain |
| GenericController.Controller.SetUnsaved | src/controller_generic.py:49-51 | clears the flag only, so the controller is not saved |
| GenericController.Controller.SetSaved | src/controller_generic.py:53-55 | sets the flag only; saved exactly when every subcontroller is |
| GenericController.Controller.AddSubcontroller | src/controller_generic.py:67-69 | appends only |
| GenericController.Controller.Reachable | src/controller_generic.py:71-83 | the controller itself and those below it |
| GenericController.Controller.SavedIffAllFlagsSet | src/controller_generic.py:71-83 | saved exactly when every controller below has its flag set |
| GenericController.Controller.GetSpecificModel | src/controller_generic.py:142-152 | installs a fresh empty dictionary once, then returns the same one |
| CccColors.CssStringInjective | scanomatic/ui_server_data/js/ccc/helpers.js:11-13 | the rgb() text determines a colour with non-negative channels |
| CccColors.RGBColor.constructor | scanomatic/ui_server_data/js/ccc/helpers.js:4-9 | the three channels as given |
| CccColors.RGBColor.ToCSSString | scanomatic/ui_server_data/js/ccc/helpers.js:11-13 | the rgb() text of the current channels |
| CccColors.HexValue | scanomatic/ui_server_data/js/ccc/helpers.js:175-177 | a hex digit's value is below 16 |
| CccColors.PairValue | scanomatic/ui_server_data/js/ccc/helpers.js:175-177 | a pair's value is at most 255 |
| CccColors.ParseLonghand | scanomatic/ui_server_data/js/ccc/helpers.js:173-178 | channels in 0..255 |
| CccColors.HexToRgb | scanomatic/ui_server_data/js/ccc/helpers.js:166-179 | channels in 0..255 |
| CccColors.HexToRgbAccepts | scanomatic/ui_server_data/js/ccc/helpers.js:166-179 | a colour exactly for an optional '#' and 3 or 6 hex digits in either case |
| CccColors.ShorthandDoubles | scanomatic/ui_server_data/js/ccc/helpers.js:168-171 | a shorthand parses as its doubled six-digit form, each channel 17 times its digit |
| CccColors.HexChar | scanomatic/ui_server_data/js/ccc/helpers.js:175-177 | the digit written for a value reads back as it |
| CccColors.Hex2 | scanomatic/ui_server_data/js/ccc/helpers.js:175-177 | two hex digits that read back as the channel |
| CccColors.HexToRgbRoundTrip | scanomatic/ui_server_data/js/ccc/helpers.js:166-179 | parsing two-digit hex formatting gives the colour back |
| CccMarkers.RowMajor | scanomatic/ui_server_data/js/ccc/helpers.js:98-117 | one colour per pixel |
| CccMarkers.RowMajorCell | scanomatic/ui_server_data/js/ccc/helpers.js:96-111 | pixel r * cols + c carries the colour of cell (r, c): blob first, then background, else neither |
| CccMarkers.RowColUnique | scanomatic/ui_server_data/js/ccc/helpers.js:96-103 | a pixel index has one row and column |
| CccMarkers.CreateCanvasMarker | scanomatic/ui_server_data/js/ccc/helpers.js:87-119 | throws exactly for an image without rows (TypeError at `data.image[0].length`) or without columns (IndexSizeError from `getImageData`), painting nothing; otherwise every pixel holds its cell's colour and alpha 255 |
| CccMarkers.PaintMarkers | scanomatic/ui_server_data/js/ccc/helpers.js:95-118 | the pixel loop: every pixel holds its cell's colour, in row-major order, and alpha 255 |
| CccMarkers.PixelKeyInjective | scanomatic/ui_server_data/js/ccc/helpers.js:152 | the "r,g,b" text determines the channels |
| CccMarkers.KnownKeys | scanomatic/ui_server_data/js/ccc/helpers.js:154-157 | the two compared texts are those of pure red and pure black |
| CccMarkers.ReadPixel | scanomatic/ui_server_data/js/ccc/helpers.js:148-160 | red marks blob (and not background), black the reverse, anything else neither |
| CccMarkers.StoreMarks | scanomatic/ui_server_data/js/ccc/helpers.js:154-160 | the pixel's marks stored at one cell, all other cells unchanged |
| CccMarkers.NextCell | scanomatic/ui_server_data/js/ccc/helpers.js:142-147 | the counters step to the next cell in row-major order |
| CccMarkers.LastCell | scanomatic/ui_server_data/js/ccc/helpers.js:142-147 | the walk ends on the last cell |
| CccMarkers.CellMarksAt | scanomatic/ui_server_data/js/ccc/helpers.js:142-160 | a cell's marks are its pixel's |
| CccMarkers.GetMarkerData | scanomatic/ui_server_data/js/ccc/helpers.js:121-164 | throws exactly for a canvas of zero width or height (IndexSizeError from `getImageData`); otherwise fresh grids holding each pixel's marks at its row and column |
| CccMarkers.MarkersReadAsHoles | scanomatic/ui_server_data/js/ccc/helpers.js:154-160 | a painted marker reads back as holes: no marker colour is red or black |
| JsNumbers.Decimal | scanomatic/ui_server_data/js/ccc/helpers.js:12 | `String(n)` of a non-negative integer is a non-empty run of decimal digits |
| JsNumbers.DecimalRoundTrip | scanomatic/ui_server_data/js/ccc/helpers.js:12 | reading the numeral back gives the number |
| JsNumbers.DecimalInjective | scanomatic/ui_server_data/js/ccc/helpers.js:12 | different numbers have different numerals |
| ScanningJobPanel.FromMs | scanomatic/ui_server_data/js/src/components/ScanningJobPanelBody.jsx:10-16 | a normal duration from milliseconds |
| ScanningJobPanel.DurationMsRoundTrip | scanomatic/ui_server_data/js/src/components/ScanningJobPanelBody.jsx:10-16 | a normal duration comes back from its milliseconds (days·24 + hours)·3600000 + minutes·60000 |
| ScanningJobPanel.Progress | scanomatic/ui_server_data/js/src/components/ScanningJobPanelBody.jsx:18-22 | never above 100; 100 once the duration has passed; non-negative after the start |
| ScanningJobPanel.ProgressMonotone | scanomatic/ui_server_data/js/src/components/ScanningJobPanelBody.jsx:18-22 | progress never goes down as time advances |
| ScanningJobPanel.Join | scanomatic/ui_server_data/js/src/components/ScanningJobPanelBody.jsx:35 | an empty list joins to "" |
| ScanningJobPanel.RenderDuration | scanomatic/ui_server_data/js/src/components/ScanningJobPanelBody.jsx:24-36 | "" exactly when no part is positive |
| ScanningJobPanel.JoinAppend | scanomatic/ui_server_data/js/src/components/ScanningJobPanelBody.jsx:35 | joining a concatenation puts the separator between the parts |
| ScanningJobPanel.RenderTokens | scanomatic/ui_server_data/js/src/components/ScanningJobPanelBody.jsx:24-36 | the text is the positive parts' words joined by spaces, days then hours then minutes |
| ScanningJobPanel.SplitJoin | scanomatic/ui_server_data/js/src/components/ScanningJobPanelBody.jsx:35 | splitting space-free words joined by spaces gives them back |
| ScanningJobPanel.SplitRender | scanomatic/ui_server_data/js/src/components/ScanningJobPanelBody.jsx:24-36 | splitting the text gives the words |
| ScanningJobPanel.ReadTokensOf | scanomatic/ui_server_data/js/src/components/ScanningJobPanelBody.jsx:24-36 | reading the words gives the duration back |
| ScanningJobPanel.RenderDurationRoundTrip | scanomatic/ui_server_data/js/src/components/ScanningJobPanelBody.jsx:24-36 | the rendered text determines the duration |
| ScanningJobPanel.StartButtonRule | scanomatic/ui_server_data/js/src/components/ScanningJobPanelBody.jsx:44-113 | Start is shown exactly unless Running or Completed, and enabled exactly without disableStart and with a present, free, powered scanner |
| ScanningJobPanel.ButtonsByStatus | scanomatic/ui_server_data/js/src/components/ScanningJobPanelBody.jsx:175-181 | Remove exactly for Planned, Stop and the progress bar exactly for Running, links exactly for Completed |
| ScanningJobPanel.ProgressBarBound | scanomatic/ui_server_data/js/src/components/ScanningJobPanelBody.jsx:44-59 | the bar never shows more than 100 percent |
| ScanningJobPanel.EndRowRule | scanomatic/ui_server_data/js/src/components/ScanningJobPanelBody.jsx:140-169 | without a start time there is no end row; with one: Stopped when a termination time exists, else Ended when Completed, else Will end |
| ScanningJobPanel.ScannerRowRule | scanomatic/ui_server_data/js/src/components/ScanningJobPanelBody.jsx:121-137 | no scanner row for Completed jobs; otherwise the scanner's state, or the waiting message |
| ScanningJobPanel.ReasonRowRule | scanomatic/ui_server_data/js/src/components/ScanningJobPanelBody.jsx:190-195 | the reason row exactly for a non-empty termination message |
| ProjectActions.ChangeNewExperimentChecksType | scanomatic/ui_server_data/js/src/projects/actions.js:60-95 | the value passes unchanged exactly when the field is known and `typeof` fits; a known field raises TypeError, an unknown one Error |
| ProjectActions.PinningAcceptsNull | scanomatic/ui_server_data/js/src/projects/actions.js:83-91 | null passes for pinning, a string does not |
| ProjectActions.Store.constructor | scanomatic/ui_server_data/js/src/projects/actions.js:163 | nothing dispatched yet |
| ProjectActions.Store.Dispatch | scanomatic/ui_server_data/js/src/projects/actions.js:163 | the action is appended to those dispatched |
| ProjectActions.SubmitNewProject | scanomatic/ui_server_data/js/src/projects/actions.js:165-175 | dispatches exactly the submit sequence |
| ProjectActions.SubmitNewProjectOrder | scanomatic/ui_server_data/js/src/projects/actions.js:165-175 | nothing without a project; otherwise SUBMIT first, the project added with its own name and description exactly when there are no errors, and CLEAR only after it |
| ProjectActions.SubmitNewExperiment | scanomatic/ui_server_data/js/src/projects/actions.js:177-195 | dispatches exactly the submit sequence |
| ProjectActions.SubmitNewExperimentOrder | scanomatic/ui_server_data/js/src/projects/actions.js:177-195 | SUBMIT always first; the experiment, with every field the selector gave, exactly when it exists without errors; CLEAR after it |
| QcStateBuilder.StateBuilder.constructor | scanomatic/ui_server_data/js/src/qc/StateBuilder.js:12-15 | plate 0 at index 0 and empty settings |
| QcStateBuilder.StateBuilder.SetProject | scanomatic/ui_server_data/js/src/qc/StateBuilder.js:17-21 | settings hold only the project, and the plate starts over |
| QcStateBuilder.StateBuilder.SetPhenotype | scanomatic/ui_server_data/js/src/qc/StateBuilder.js:23-27 | nothing without a non-empty project; otherwise the phenotype is added, the plate kept |
| QcStateBuilder.StateBuilder.SetPlatePhenotypeData | scanomatic/ui_server_data/js/src/qc/StateBuilder.js:29-37 | only that phenotype's values change |
| QcStateBuilder.StateBuilder.SetPhenotypeQCMarks | scanomatic/ui_server_data/js/src/qc/StateBuilder.js:39-57 | only that phenotype's marks change |
| QcStateBuilder.StateBuilder.SetPlate | scanomatic/ui_server_data/js/src/qc/StateBuilder.js:59-62 | a bare plate with the number and index 0 |
| QcStateBuilder.StateBuilder.SetPlateGrowthData | scanomatic/ui_server_data/js/src/qc/StateBuilder.js:64-73 | nothing for another plate; otherwise times and curves are stored |
| QcStateBuilder.StateBuilder.SetQualityIndexQueue | scanomatic/ui_server_data/js/src/qc/StateBuilder.js:75-78 | the queue is stored, the index kept |
| QcStateBuilder.StateBuilder.SetQualityIndex | scanomatic/ui_server_data/js/src/qc/StateBuilder.js:80-84 | nothing without a queue; otherwise the index moves |
| QcStateBuilder.StateBuilder.Build | scanomatic/ui_server_data/js/src/qc/StateBuilder.js:86-91 | the state of the current plate and settings |

## Left out

- Floating-point phenotypes of `_phenotype_phases`: doubling time, linear fit, asymptote angle and intersection, fraction yield (curve_phase_phenotypes.py:294-324). Only Start and Duration are modelled, as real arithmetic.
- `plot_segments` and the plotting argument of `phase_phenotypes`: matplotlib output.
- The phenotyper-object fetches in `phase_phenotypes` (smoothed curve, derivative, doublings): the derivative and the times are parameters.
- The FirstMinor, Modalities and default branches of `filter_plate`: they fail in the code (indexing a generator, an unapplied ufunc, a wrongly shaped result).
- Ranks: numpy's default argsort does not fix the order of equal rates. The model breaks ties by position.
- scipy's `label`, `medfilt` and `convolve` are given hand-written one-dimensional models. They are not calls.
- Otsu's threshold and the image histogram in `Blob.set_threshold`: a parameter.
- Erosion, dilation, Gaussian and median filters, `center_of_mass`, `points_in_circle`, the circle branch of `set_blob_from_shape` and the outline kernel: foreign calls and floating point.
- CellDissection.ArraySubtraction and CellDissection.ArraySubtractionInto: they model the intended subtraction where A2 misses A1 (nothing is subtracted). The code raises for some of those offsets, where the clipped source extent differs from the target extent and is not 1 (see Findings); for the others it subtracts nothing as well.
- CellDissection.Blob.SetThreshold: `im` only feeds the Otsu threshold, which is a parameter, so `im` does not appear.
- `_validate_timeBetweenScans` and the other validators that read files or call sub-factories. Also `validate`, which reflects over `dir(cls)`.
- ScanningValidators.ValidateProjectName: whether the directory exists (or the check raises) is the parameter `pathCheck`.
- Serialisation, configuration files, pickling and the Flask/RPC endpoints: I/O.
- `ask_destroy` and the GTK views of the controller.
- GenericController.Controller.AddSubcontroller: it promises the tree invariant only for a subcontroller that does not already contain this controller. A cycle would make `get_saved` recurse forever in the code.
- GenericController.Controller.AddSubcontroller: it grows only this controller's footprint, so the invariant of the controllers above an attached controller is not re-established after adding below it.
- Segmentation.SegmentLeftOfImpulse and Segmentation.SegmentRightOfImpulse: they state the labels of the located run (up to Impulse) and the filter's range, but only allowed changes for the remainder, whose labels depend on its recursive segmentation.
- Segmentation.Segment: after a full pass it promises the labels of the impulse run only when the peak is part of it, the acceleration run without its first sample (step 5b may overwrite that one with Flat), and each of these only up to a later Impulse write, which the recursive searches can make. The labels of the remainders depend on their own recursive segmentation and are stated only as allowed changes.
- Segmentation.Segment: the recursion assumes the filter buffer selects one window. Every caller builds it with `_get_filter`. `SegmentInputs` also requires pairwise distinct ranks, which `argsort().argsort()` guarantees.
- PhasePreprocessing.Signs, PhasePreprocessing.SignsCentralDifference and PhaseDriver.PhasePhenotypes: curves whose derivative has fewer than three rates are not modelled. scipy's valid convolution then swaps its operands, so the sign vector is longer than the derivative (four signs for two rates), and `_segment` fails on the shape mismatch once it reaches the acceleration search; an empty derivative selects no label, so the homogeneity check of lines 116-119 raises ValueError first.
- PhaseDriver.PhasePhenotypes, PhaseDriver.SegmentWholeCurve and Segmentation.Segment: a curve whose length differs from its derivative's by 0 or 1 gives offset 0 and an empty view `phases[0:-0]`, and an odd difference of at least 3 a view one label longer than the derivative. The length-|dydt| filter then fails to index the view at line 116. `PhasePhenotypes` returns `raised` for exactly these curves. It models the IndexError that numpy 1.13 and later raise on the length mismatch. Older numpy only warned and used the first |dydt| labels of the odd-length view; that path is not modelled. `SegmentWholeCurve` and `Segment` require offset at least 1 and a view as long as the derivative, so `Segment` models the raise of lines 116-119 only for a window that holds several labels.
- PhaseDriver.PhasePhenotypes: the label array is `np.ones_like(curve) * 0` for the smoothed curve fetched from the phenotyper object. The model takes that curve to have one sample per time point, so the labels are as long as `times`.
- PyValues.Value has no dictionary variant, so `strip_empty_exits` is modelled for data values that are strings, tuples, lists, numbers, booleans or None.
- ModelFactory.Settings.SplitAndReplace: for the same reason a dictionary value is not modelled; there `settings[key][index]` raises KeyError, which the `(IndexError, TypeError)` handler does not catch (abstract_model_factory.py:554-555).
- ModelFactory.Clamp: its typed model parameter stands for `_verify_correct_model`, so the TypeError raised for a model of another class (abstract_model_factory.py:41-47) is not modelled.
- ModelRecord.Model.Store: a value given for `_initialized` is not kept; the flag is recorded as False, and `__init__` sets it to True right after (model.py:20).
- JavaScript numbers: the model covers integers as decimal text (`String(n)`) and real quotients for the progress. It leaves out `toFixed(1)`, `encodeURI`, the quality-control link and non-integer `toString`.
- React rendering and the prop-types: the panel is a value of the rows and buttons it shows.
- Redux reducers and selectors: the new project or experiment and its error count after SUBMIT are parameters of the thunks.
- The pixel buffer of a canvas (`getImageData`/`putImageData`): an `array<int>` of bytes.
- `createCanvasImage`, `getLinearMapping`, `valueFormatter` and `uploadImage`: d3, logarithms and promises.
- The other action creators of actions.js: they return their arguments.

## Findings

| source | as written | input that shows it | evidently intended | confidence | as-written member | corrected member |
|---|---|---|---|---|---|---|
| scanomatic/generics/abstract_model_factory.py:86-92 | `parameter in model` walks `__iter__`, which yields (attribute, value) pairs, so a name never equals an item and `update` sets nothing | a model with x = 0 and `update(model, x=1)`: x stays 0 | set each setting that names a public attribute | high, not executed | ModelFactory.UpdateAsWritten, ModelFactory.UpdateAsWrittenIgnoresSettings | ModelFactory.Update |
| scanomatic/models/factories/scanning_factory.py:116-121 | returns `model.FIELD_TYPES.pinningFormarts`, a misspelt member, so an invalid value raises AttributeError | pinningFormats = ((0, 1),) | return the pinningFormats member | high, not executed | ScanningValidators.ValidatePinningFormatsAsWritten, ScanningValidators.PinningFormatsAsWrittenRaises, ScanningValidators.InvalidFieldsAsWritten, ScanningValidators.GetInvalidAsWrittenRaises | ScanningValidators.ValidatePinningFormats, ScanningValidators.InvalidFields |
| src/analysis_grid_cell_dissection.py:151-174 | when A2 lies wholly past A1, the source bound `A2.shape - (o_high - A1.shape)` goes negative and counts from A2's end, so the shapes differ and numpy raises | A1 with 3 rows, A2 with 4 rows, offset 5: target 0 rows, source 2 rows | subtract nothing where the arrays do not overlap ("independent of sizes") | medium, not executed | CellDissection.SubtractionAsWrittenRaises | CellDissection.ArraySubtraction, CellDissection.SubtractionReachingNeverRaises |
| src/analysis_grid_cell_dissection.py:88-99 | `ogrid[-r:r]` covers offsets -r..r-1, so the disc lacks its last row and column | radius 1: cell (1, 2) is set, the mirror cell (3, 2) is not | a disc symmetric about the centre (r+1, r+1) | medium, not executed | CellDissection.RoundKernelAsWritten, CellDissection.RoundKernelAsWrittenLopsided | CellDissection.RoundKernel, CellDissection.KernelCellSymmetric |
