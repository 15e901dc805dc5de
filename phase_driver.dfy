/**
 * `phase_phenotypes` of curve_phase_phenotypes.py without its plotting and phenotyper-object
 * fetches: the derivative, its ranks and second-difference signs, an all-Undetermined label
 * array as long as the curve, a full-range filter, one call of `_segment` on the whole
 * derivative, and the phase vector of the resulting labels.
 */
module PhaseDriver {
  import opened Wrappers
  import opened Runs
  import opened CurvePhases
  import opened PhasePreprocessing
  import opened Segmentation
  import opened PhaseSummary

  /** The peak rate of the whole derivative is below the impulse slope requirement. */
  ghost predicate FlatCurve(dydt: seq<real>, th: Thresholds)
    requires |dydt| >= 1
  {
    BelowThreshold(dydt, Ranks(dydt), 0, |dydt|, th)
  }

  /** The early exit happens exactly when every rate of the curve is below the requirement. */
  lemma FlatCurveIffAllBelow(dydt: seq<real>, th: Thresholds)
    requires |dydt| >= 1
    ensures FlatCurve(dydt, th) <==> forall i :: 0 <= i < |dydt| ==> dydt[i] < th.impulseSlopeRequirement
  {
    var window := Between(|dydt|, 0, |dydt|);
    assert window[0];
    PeakHasMaximalRate(dydt, window);
  }

  /**
   * What the single `_segment` call on the whole derivative leaves, restated for the driver:
   * labels stay phase codes, and a flat curve keeps every label Undetermined.
   */
  lemma WholeCurveOutcome(dydt: seq<real>, th: Thresholds, offset: nat, zeros: seq<int>, after: seq<int>,
                          warnings: seq<Warning>)
    requires |dydt| >= 3 && offset >= 1 && |zeros| == |dydt| + 2 * offset
    requires forall k :: 0 <= k < |zeros| ==> zeros[k] == 0
    requires Evolved(zeros, after, offset, 0, |dydt|)
    requires BelowThreshold(dydt, Ranks(dydt), 0, |dydt|, th) ==>
      after == Filled(zeros, 0, offset, zeros[offset]) &&
      warnings == [NoImpulse(dydt[Peak(Ranks(dydt), 0, |dydt|)], th.impulseSlopeRequirement)]
    ensures forall k :: 0 <= k < |after| ==> 0 <= after[k] <= 4
    ensures FlatCurve(dydt, th) ==>
      (forall k :: 0 <= k < |after| ==> after[k] == Undetermined.Code()) &&
      warnings == [NoImpulse(dydt[Peak(Ranks(dydt), 0, |dydt|)], th.impulseSlopeRequirement)]
  {
    forall k | 0 <= k < |after| ensures 0 <= after[k] <= 4 {
      if after[k] in zeros {
        var j :| 0 <= j < |zeros| && zeros[j] == after[k];
      }
    }
  }

  /**
   * What `PhasePhenotypes` promises on the impulse path implies that, when the peak rate is part of
   * the impulse run, some label of the curve is Impulse.
   */
  lemma ImpulseAppears(s: seq<int>, offset: nat, dydt: seq<real>, ranks: seq<int>, signs: seq<int>, th: Thresholds)
    requires |ranks| == |dydt| && |signs| == |dydt| && |dydt| >= 1 && |s| == |dydt| + 2 * offset
    requires ImpulseFound(dydt, ranks, 0, |dydt|, th)
    requires PhasesAroundImpulse(s, offset, dydt, ranks, signs, 0, |dydt|, th)
    ensures PeakSurvives(dydt, ranks, 0, |dydt|, th) ==> exists k :: 0 <= k < |s| && s[k] == Impulse.Code()
  {
    if PeakSurvives(dydt, ranks, 0, |dydt|, th) {
      var peak := Peak(ranks, 0, |dydt|);
      assert WindowImpulseRuns(dydt, ranks, 0, |dydt|, th)[peak];
      assert s[offset + peak] == Impulse.Code();
    }
  }

  /**
   * The offset of line 345: half the difference between the curve's and the derivative's
   * lengths, by Python 2's floor division of ints (Dafny's `/` by 2 floors as well).
   */
  function CurveOffset(curveLength: nat, rates: nat): (offset: int)
    ensures 2 * offset <= curveLength - rates <= 2 * offset + 1
  {
    (curveLength - rates) / 2
  }

  /** The length of the view `phases[offset:-offset]` of a label array of length n. */
  function CentreLength(n: nat, offset: int): (r: nat)
    ensures r <= n
    ensures 0 <= offset && 2 * offset <= n ==> r == (if offset == 0 then 0 else n - 2 * offset)
  {
    var a := SliceBound(offset, n);
    var b := SliceBound(-offset, n);
    if a <= b then b - a else 0
  }

  /**
   * The boolean filter of line 116 selects from `phases[offset:-offset]` and is as long as the
   * derivative; numpy raises IndexError when the two lengths differ.
   */
  predicate FilterMismatch(curveLength: nat, rates: nat)
  {
    CentreLength(curveLength, CurveOffset(curveLength, rates)) != rates
  }

  /**
   * The view matches the filter exactly when the curve is longer than its derivative by an even
   * number of at least two samples: a difference of 0 or 1 gives offset 0 and an empty view, an
   * odd difference of at least 3 a view one label too long, and a shorter curve never matches.
   */
  lemma FilterMismatchIff(curveLength: nat, rates: nat)
    requires rates >= 1
    ensures FilterMismatch(curveLength, rates) <==>
      !(curveLength >= rates + 2 && (curveLength - rates) % 2 == 0)
  {
  }

  /**
   * The labelling half of `phase_phenotypes`: an all-Undetermined label array as long as the
   * curve, a full-range filter and one call of `_segment` on the whole derivative `dydt`, whose
   * labels sit `offset` samples in from each end.
   */
  method SegmentWholeCurve(dydt: seq<real>, n: nat, offset: nat, thresholds: Option<Thresholds>)
    returns (phases: array<int>, warnings: seq<Warning>)
    requires |dydt| >= 3 && offset >= 1 && n == |dydt| + 2 * offset
    ensures fresh(phases) && phases.Length == n
    ensures forall k :: 0 <= k < phases.Length ==> 0 <= phases[k] <= 4
    ensures FlatCurve(dydt, ResolveThresholds(thresholds)) ==>
      (forall k :: 0 <= k < phases.Length ==> phases[k] == Undetermined.Code()) &&
      warnings == [NoImpulse(dydt[Peak(Ranks(dydt), 0, |dydt|)], ResolveThresholds(thresholds).impulseSlopeRequirement)]
    ensures (!FlatCurve(dydt, ResolveThresholds(thresholds)) &&
             !ImpulseFound(dydt, Ranks(dydt), 0, |dydt|, ResolveThresholds(thresholds))) ==>
      phases[..] == PhasesWithoutImpulse(seq(n, _ => 0), offset, dydt, Ranks(dydt),
                                         0, |dydt|, ResolveThresholds(thresholds)) &&
      warnings == WarningsWithoutImpulse(dydt, Ranks(dydt), 0, |dydt|, ResolveThresholds(thresholds))
    ensures (!FlatCurve(dydt, ResolveThresholds(thresholds)) &&
             ImpulseFound(dydt, Ranks(dydt), 0, |dydt|, ResolveThresholds(thresholds))) ==>
      EdgesCopied(phases[..], offset) &&
      PhasesAroundImpulse(phases[..], offset, dydt, Ranks(dydt), Signs(dydt), 0, |dydt|,
                          ResolveThresholds(thresholds)) &&
      OnlyNotHomogeneous(warnings)
  {
    var m := |dydt|;
    var ranks := Ranks(dydt);
    RanksOrderValues(dydt);
    var signs := Signs(dydt);
    phases := new int[n](_ => 0);
    ghost var zeros := phases[..];
    assert zeros == seq(n, _ => 0);
    var filt := GetFilter(None, None, null, m);

    var outcome := Segment(dydt, ranks, signs, phases, filt, offset, thresholds, 0, m);
    // All labels start equal, so the homogeneity check of the first call passes.
    if outcome.Raised? {
      assert false;
    }
    warnings := outcome.warnings;
    WholeCurveOutcome(dydt, ResolveThresholds(thresholds), offset, zeros, phases[..], warnings);
  }

  /**
   * `phase_phenotypes`: segments the derivative `dydt` of a curve sampled at `times` and
   * returns the labels, the warnings emitted and the phase vector. `raised` is the IndexError of
   * line 116 in the first `_segment` call, when the view `phases[offset:-offset]` is not as long
   * as the derivative; the labels are then the untouched all-Undetermined array.
   */
  method PhasePhenotypes(dydt: seq<real>, times: seq<real>, thresholds: Option<Thresholds>)
    returns (raised: bool, phases: array<int>, warnings: seq<Warning>, entries: seq<PhaseEntry>)
    requires |dydt| >= 3
    ensures fresh(phases) && phases.Length == |times|
    // The first `_segment` call raises unless the curve is longer than its derivative by an even
    // number of at least two samples.
    ensures raised <==> !(|times| >= |dydt| + 2 && (|times| - |dydt|) % 2 == 0)
    ensures raised ==> (forall k :: 0 <= k < phases.Length ==> phases[k] == Undetermined.Code()) &&
                       warnings == [] && entries == []
    // Labels are phase codes 0..4; Multiple never appears.
    ensures forall k :: 0 <= k < phases.Length ==> 0 <= phases[k] <= 4
    ensures !raised ==> entries == PhaseVector(phases[..], times)
    // A curve that never reaches the slope requirement stays entirely Undetermined.
    ensures !raised && FlatCurve(dydt, ResolveThresholds(thresholds)) ==>
      (forall k :: 0 <= k < phases.Length ==> phases[k] == Undetermined.Code()) &&
      warnings == [NoImpulse(dydt[Peak(Ranks(dydt), 0, |dydt|)], ResolveThresholds(thresholds).impulseSlopeRequirement)]
    // Without one impulse run the curve keeps only the impulse write and its left edge band.
    ensures (!raised && !FlatCurve(dydt, ResolveThresholds(thresholds)) &&
             !ImpulseFound(dydt, Ranks(dydt), 0, |dydt|, ResolveThresholds(thresholds))) ==>
      phases[..] == PhasesWithoutImpulse(seq(|times|, _ => 0), (|times| - |dydt|) / 2, dydt, Ranks(dydt),
                                         0, |dydt|, ResolveThresholds(thresholds)) &&
      warnings == WarningsWithoutImpulse(dydt, Ranks(dydt), 0, |dydt|, ResolveThresholds(thresholds))
    // Otherwise both edge bands copy their neighbouring label, the impulse, acceleration and
    // retardation runs keep their labels, and only not-homogeneous warnings are emitted.
    ensures (!raised && !FlatCurve(dydt, ResolveThresholds(thresholds)) &&
             ImpulseFound(dydt, Ranks(dydt), 0, |dydt|, ResolveThresholds(thresholds))) ==>
      EdgesCopied(phases[..], (|times| - |dydt|) / 2) &&
      PhasesAroundImpulse(phases[..], (|times| - |dydt|) / 2, dydt, Ranks(dydt), Signs(dydt), 0, |dydt|,
                          ResolveThresholds(thresholds)) &&
      OnlyNotHomogeneous(warnings)
  {
    var offset := CurveOffset(|times|, |dydt|);
    FilterMismatchIff(|times|, |dydt|);
    if CentreLength(|times|, offset) != |dydt| {
      phases := new int[|times|](_ => 0);
      return true, phases, [], [];
    }
    raised := false;
    phases, warnings := SegmentWholeCurve(dydt, |times|, offset, thresholds);
    entries := PhenotypePhases(phases[..], times);
  }
}
