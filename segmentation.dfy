/**
 * The in-place phase segmentation of curve_phase_phenotypes.py: `_get_filter`, the impulse,
 * acceleration and retardation locators, and the recursive divide-and-conquer `_segment`.
 *
 * `phases` is the curve-length label array and `filt` the derivative-length boolean buffer;
 * both are changed in place. Every write to the labels goes through the view
 * `phases[offset:-offset]`, so derivative position i is label position offset + i.
 */
module Segmentation {
  import opened Wrappers
  import opened Runs
  import opened CurvePhases
  import opened PhasePreprocessing

  /** The messages `warnings.warn` emits while segmenting. */
  datatype Warning =
    | NoImpulse(maxRate: real, threshold: real)
    | NoContiguousImpulse
    | NotHomogeneous(segments: nat)

  /** `_segment` either raises ValueError or returns, having emitted some warnings. */
  datatype SegmentOutcome = Raised | Finished(warnings: seq<Warning>)

  // ---------------------------------------------------------------------------------------
  // Slices and masked writes
  // ---------------------------------------------------------------------------------------

  /** Python's normalisation of a slice bound against a length (step 1). */
  function SliceBound(b: int, len: nat): (r: nat)
    ensures r <= len
    ensures 0 <= b <= len ==> r == b
  {
    if b < 0 then (if b + len < 0 then 0 else b + len) else if b > len then len else b
  }

  /** The mask of length n that is True on [a, b); empty when a >= b. */
  function Between(n: nat, a: int, b: int): (mask: seq<bool>)
    ensures |mask| == n
    ensures forall i :: 0 <= i < n ==> (mask[i] <==> a <= i < b)
  {
    seq(n, i requires 0 <= i < n => a <= i < b)
  }

  /** `phases[offset:-offset][mask] = code`. */
  function Written(s: seq<int>, offset: nat, mask: seq<bool>, code: int): (r: seq<int>)
    requires offset + |mask| <= |s|
    ensures |r| == |s|
  {
    seq(|s|, k requires 0 <= k < |s| =>
      if offset <= k < offset + |mask| && mask[k - offset] then code else s[k])
  }

  /** `phases[a:b] = v` for 0 <= a, b <= |s|. */
  function Filled(s: seq<int>, a: int, b: int, v: int): (r: seq<int>)
    ensures |r| == |s|
  {
    seq(|s|, k requires 0 <= k < |s| => if a <= k < b then v else s[k])
  }

  /**
   * `_get_filter`: a fresh all-False buffer of the given size, or the caller's buffer reset to
   * False, then set True on the slice [left, right) with defaults 0 and the buffer's size.
   */
  method GetFilter(left: Option<int>, right: Option<int>, filt: array?<bool>, size: nat)
    returns (r: array<bool>)
    modifies filt
    ensures filt != null ==> r == filt
    ensures filt == null ==> fresh(r) && r.Length == size
    ensures r[..] == Between(r.Length, SliceBound(left.GetOr(0), r.Length), SliceBound(right.GetOr(r.Length), r.Length))
  {
    if filt == null {
      r := new bool[size](_ => false);
    } else {
      r := filt;
      forall i | 0 <= i < r.Length {
        r[i] := false;
      }
    }
    var lo := SliceBound(left.GetOr(0), r.Length);
    var hi := SliceBound(right.GetOr(r.Length), r.Length);
    forall i | lo <= i < hi {
      r[i] := true;
    }
  }

  /** `phases[:offset] = phases[offset]`. */
  method ExtendLeftEdge(phases: array<int>, offset: nat)
    requires offset < phases.Length
    modifies phases
    ensures phases[..] == Filled(old(phases[..]), 0, offset, old(phases[offset]))
  {
    var v := phases[offset];
    forall k | 0 <= k < offset {
      phases[k] := v;
    }
  }

  /** `phases[-offset:] = phases[-offset - 1]` for offset >= 1. */
  method ExtendRightEdge(phases: array<int>, offset: nat)
    requires 1 <= offset < phases.Length
    modifies phases
    ensures phases[..] == Filled(old(phases[..]), phases.Length - offset, phases.Length, old(phases[phases.Length - offset - 1]))
  {
    var v := phases[phases.Length - offset - 1];
    forall k | phases.Length - offset <= k < phases.Length {
      phases[k] := v;
    }
  }

  /** `phases[offset:-offset][mask] = code`. */
  method WriteMasked(phases: array<int>, offset: nat, mask: seq<bool>, code: int)
    requires offset + |mask| <= phases.Length
    modifies phases
    ensures phases[..] == Written(old(phases[..]), offset, mask, code)
  {
    forall k | offset <= k < offset + |mask| && mask[k - offset] {
      phases[k] := code;
    }
  }

  /** Lines 178-179 of `_segment`: both edge bands copy their neighbouring label. */
  method ExtendEdges(phases: array<int>, offset: nat)
    requires 1 <= offset && 2 * offset < phases.Length
    modifies phases
    ensures forall k :: 0 <= k < offset ==> phases[k] == phases[offset]
    ensures forall k :: phases.Length - offset <= k < phases.Length ==> phases[k] == phases[phases.Length - offset - 1]
    ensures forall k :: offset <= k < phases.Length - offset ==> phases[k] == old(phases[k])
    ensures forall k :: 0 <= k < phases.Length ==> phases[k] in old(phases[..])
  {
    ghost var s0 := phases[..];
    ExtendLeftEdge(phases, offset);
    ghost var s1 := phases[..];
    assert forall k :: 0 <= k < phases.Length ==> s1[k] in s0 by {
      assert s0[offset] in s0;
      forall k | 0 <= k < phases.Length ensures s1[k] in s0 {
        if k >= offset {
          assert s1[k] == s0[k];
        }
      }
    }
    ExtendRightEdge(phases, offset);
    forall k | 0 <= k < phases.Length ensures phases[k] in s0 {
      if k < phases.Length - offset {
        assert phases[k] == s1[k];
      } else {
        assert phases[k] == s1[phases.Length - offset - 1];
      }
    }
  }

  // ---------------------------------------------------------------------------------------
  // The masks the locators compute
  // ---------------------------------------------------------------------------------------

  /** `(dydt > dydt[loc] * extension) & filt`. */
  function ImpulseCandidates(dydt: seq<real>, loc: nat, filt: seq<bool>, extension: real): (c: seq<bool>)
    requires loc < |dydt| == |filt|
    ensures |c| == |dydt|
  {
    seq(|dydt|, i requires 0 <= i < |dydt| => dydt[i] > dydt[loc] * extension && filt[i])
  }

  /** The impulse candidates after the width-3 median filter. */
  function ImpulseRuns(dydt: seq<real>, loc: nat, filt: seq<bool>, extension: real): (c: seq<bool>)
    requires loc < |dydt| == |filt|
    ensures |c| == |dydt|
  {
    MedFilt3(ImpulseCandidates(dydt, loc, filt, extension))
  }

  /** The positions whose run label equals the label at the peak: where Impulse is written. */
  function ImpulseMask(dydt: seq<real>, loc: nat, filt: seq<bool>, extension: real): (mask: seq<bool>)
    requires loc < |dydt| == |filt|
    ensures |mask| == |dydt|
  {
    var labels := Label(ImpulseRuns(dydt, loc, filt, extension));
    LabelIs(labels, labels[loc])
  }

  /** When the peak survives the median filter, Impulse is written only inside the window. */
  lemma ImpulseMaskInWindow(dydt: seq<real>, loc: nat, filt: seq<bool>, extension: real, lo: int, hi: int)
    requires loc < |dydt| == |filt| && IsRangeMask(filt, lo, hi)
    requires ImpulseRuns(dydt, loc, filt, extension)[loc]
    ensures forall i :: 0 <= i < |dydt| && ImpulseMask(dydt, loc, filt, extension)[i] ==> lo <= i < hi
  {
    var candidates := ImpulseCandidates(dydt, loc, filt, extension);
    MedFiltWithin(candidates, lo, hi);
  }

  /**
   * When the median filter clears the peak, the peak's label is 0 and Impulse goes to every
   * position without a candidate run, outside the window too: here the window is [1, 4) of a
   * five-sample derivative and positions 0 and 4 are marked.
   */
  lemma ImpulseWriteLeavesWindow()
    ensures ImpulseMask([0.0, 0.0, 1.0, 0.0, 0.0], 2, Between(5, 1, 4), 0.75) == [true, true, true, true, true]
  {
    var dydt, filt := [0.0, 0.0, 1.0, 0.0, 0.0], Between(5, 1, 4);
    var candidates := ImpulseCandidates(dydt, 2, filt, 0.75);
    assert candidates == [false, false, true, false, false];
    var runs := MedFilt3(candidates);
    assert runs == [false, false, false, false, false];
    RunCountZero(runs);
    assert forall i :: 0 <= i < 5 ==> Label(runs)[i] == 0;
  }

  /**
   * When the median filter clears the peak but another run of candidates survives, that run is
   * the one `_locate_impulse` returns, yet Impulse is written everywhere except on it: here the
   * peak is at 1 and the surviving run is [4, 6).
   */
  lemma ImpulseWriteMissesRun()
    ensures var dydt := [0.0, 1.0, 0.0, 0.0, 0.9, 0.9, 0.0];
      RunCount(ImpulseRuns(dydt, 1, Between(7, 0, 7), 0.75)) == 1 &&
      LocateSegment(ImpulseRuns(dydt, 1, Between(7, 0, 7), 0.75)).span == Some(Span(4, 6)) &&
      ImpulseMask(dydt, 1, Between(7, 0, 7), 0.75) == [true, true, true, true, false, false, true]
  {
    var dydt, filt := [0.0, 1.0, 0.0, 0.0, 0.9, 0.9, 0.0], Between(7, 0, 7);
    var candidates := ImpulseCandidates(dydt, 1, filt, 0.75);
    assert candidates == [false, true, false, false, true, true, false];
    var runs := MedFilt3(candidates);
    assert runs == [false, false, false, false, true, true, false];
    RangeMaskOneRun(runs, 4, 6);
    var labels := Label(runs);
    assert labels[1] == 0;
    assert LabelIs(labels, 0) == [true, true, true, true, false, false, true];
  }

  function Abs(x: real): real {
    if x < 0.0 then -x else x
  }

  /**
   * `_get_filter(left, right) & (np.abs(dydt) > flatline_threshold) & (ddydt_signs == sign)`
   * after the width-3 median filter: sign 1 for acceleration, -1 for retardation.
   */
  function SlopeRuns(dydt: seq<real>, signs: seq<int>, left: int, right: int, flat: real, sign: int): (c: seq<bool>)
    requires |signs| == |dydt|
    ensures |c| == |dydt|
  {
    var window := Between(|dydt|, SliceBound(left, |dydt|), SliceBound(right, |dydt|));
    MedFilt3(seq(|dydt|, i requires 0 <= i < |dydt| => window[i] && Abs(dydt[i]) > flat && signs[i] == sign))
  }

  // ---------------------------------------------------------------------------------------
  // The locators
  // ---------------------------------------------------------------------------------------

  /**
   * `_locate_impulse`: writes Impulse wherever the run label equals the label at the peak
   * (before checking anything) and locates the single surviving run of candidates.
   */
  method LocateImpulse(dydt: seq<real>, loc: nat, phases: array<int>, filt: seq<bool>, offset: nat, extension: real)
    returns (located: Located)
    requires loc < |dydt| == |filt| && phases.Length == |dydt| + 2 * offset
    modifies phases
    ensures phases[..] == Written(old(phases[..]), offset, ImpulseMask(dydt, loc, filt, extension), Impulse.Code())
    ensures located == LocateSegment(ImpulseRuns(dydt, loc, filt, extension))
  {
    var candidates := ImpulseRuns(dydt, loc, filt, extension);
    var labels := Label(candidates);
    WriteMasked(phases, offset, LabelIs(labels, labels[loc]), Impulse.Code());
    NonzeroLabel(candidates);
    located := LocateSegment(Nonzero(labels));
  }

  /**
   * `_locate_acceleration`: within [left, right), the last surviving run of rising, non-flat
   * slopes becomes Acceleration and its bounds are returned with Flat; with no such run the whole
   * window becomes Undetermined and (left, right) is returned with Undetermined.
   */
  method LocateAcceleration(dydt: seq<real>, signs: seq<int>, phases: array<int>, left: int, right: int,
                            offset: nat, flat: real)
    returns (span: Span, next: CurvePhase)
    requires |signs| == |dydt| && phases.Length == |dydt| + 2 * offset
    modifies phases
    ensures var runs := SlopeRuns(dydt, signs, left, right, flat, 1);
      if RunCount(runs) > 0 then
        next == Flat && span.left < span.right &&
        IsRangeMask(LabelIs(Label(runs), RunCount(runs)), span.left, span.right) &&
        phases[..] == Written(old(phases[..]), offset, LabelIs(Label(runs), RunCount(runs)), Acceleration.Code())
      else
        next == Undetermined && span == Span(left, right) &&
        phases[..] == Written(old(phases[..]), offset,
          Between(|dydt|, SliceBound(left, |dydt|), SliceBound(right, |dydt|)), Undetermined.Code())
  {
    var candidates := GetFilter(Some(left), Some(right), null, |dydt|);
    var runs := SlopeRuns(dydt, signs, left, right, flat, 1);
    var labels := Label(runs);
    var count := RunCount(runs);
    if count > 0 {
      var accCandidates := LabelIs(labels, count);
      WriteMasked(phases, offset, accCandidates, Acceleration.Code());
      LabelRunCount(runs, count);
      span := LocateSegment(accCandidates).span.value;
      next := Flat;
    } else {
      WriteMasked(phases, offset, candidates[..], Undetermined.Code());
      span := Span(left, right);
      next := Undetermined;
    }
  }

  /**
   * `_locate_retardation`: as `_locate_acceleration` with falling slopes, Retardation, and the
   * first surviving run instead of the last.
   */
  method LocateRetardation(dydt: seq<real>, signs: seq<int>, phases: array<int>, left: int, right: int,
                           offset: nat, flat: real)
    returns (span: Span, next: CurvePhase)
    requires |signs| == |dydt| && phases.Length == |dydt| + 2 * offset
    modifies phases
    ensures var runs := SlopeRuns(dydt, signs, left, right, flat, -1);
      if RunCount(runs) > 0 then
        next == Flat && span.left < span.right &&
        IsRangeMask(LabelIs(Label(runs), 1), span.left, span.right) &&
        phases[..] == Written(old(phases[..]), offset, LabelIs(Label(runs), 1), Retardation.Code())
      else
        next == Undetermined && span == Span(left, right) &&
        phases[..] == Written(old(phases[..]), offset,
          Between(|dydt|, SliceBound(left, |dydt|), SliceBound(right, |dydt|)), Undetermined.Code())
  {
    var candidates := GetFilter(Some(left), Some(right), null, |dydt|);
    var runs := SlopeRuns(dydt, signs, left, right, flat, -1);
    var labels := Label(runs);
    var count := RunCount(runs);
    if count > 0 {
      var retCandidates := LabelIs(labels, 1);
      WriteMasked(phases, offset, retCandidates, Retardation.Code());
      LabelRunCount(runs, 1);
      span := LocateSegment(retCandidates).span.value;
      next := Flat;
    } else {
      WriteMasked(phases, offset, candidates[..], Undetermined.Code());
      span := Span(left, right);
      next := Undetermined;
    }
  }

  /** The acceleration run is the last run of rising slopes and lies inside [left, right). */
  lemma AccelerationIsLastRun(dydt: seq<real>, signs: seq<int>, left: int, right: int, flat: real, span: Span)
    requires |signs| == |dydt| && 0 <= left <= right <= |dydt|
    requires var runs := SlopeRuns(dydt, signs, left, right, flat, 1);
      RunCount(runs) > 0 && span.left < span.right &&
      IsRangeMask(LabelIs(Label(runs), RunCount(runs)), span.left, span.right)
    ensures left <= span.left < span.right <= right
    ensures var runs := SlopeRuns(dydt, signs, left, right, flat, 1);
      (forall i :: span.left <= i < span.right ==> runs[i]) &&
      (span.left == 0 || !runs[span.left - 1]) &&
      (forall i :: span.right <= i < |runs| ==> !runs[i])
  {
    var runs := SlopeRuns(dydt, signs, left, right, flat, 1);
    LastLabelIsRightmost(runs, span.left, span.right);
    LabelRunIsMaximal(runs, RunCount(runs), span.left, span.right);
    assert runs[span.left] && runs[span.right - 1];
  }

  /** The retardation run is the first run of falling slopes and lies inside [left, right). */
  lemma RetardationIsFirstRun(dydt: seq<real>, signs: seq<int>, left: int, right: int, flat: real, span: Span)
    requires |signs| == |dydt| && 0 <= left <= right <= |dydt|
    requires var runs := SlopeRuns(dydt, signs, left, right, flat, -1);
      RunCount(runs) > 0 && span.left < span.right &&
      IsRangeMask(LabelIs(Label(runs), 1), span.left, span.right)
    ensures left <= span.left < span.right <= right
    ensures var runs := SlopeRuns(dydt, signs, left, right, flat, -1);
      (forall i :: span.left <= i < span.right ==> runs[i]) &&
      (span.right == |runs| || !runs[span.right]) &&
      (forall i :: 0 <= i < span.left ==> !runs[i])
  {
    var runs := SlopeRuns(dydt, signs, left, right, flat, -1);
    FirstLabelIsLeftmost(runs, span.left, span.right);
    LabelRunIsMaximal(runs, 1, span.left, span.right);
    assert runs[span.left] && runs[span.right - 1];
  }

  // ---------------------------------------------------------------------------------------
  // _segment
  // ---------------------------------------------------------------------------------------

  /** The labels on [a, b) take exactly one distinct value (`np.unique(...).size == 1`). */
  ghost predicate Homogeneous(s: seq<int>, a: int, b: int) {
    0 <= a < b <= |s| && forall k :: a <= k < b ==> s[k] == s[a]
  }

  /** `np.unique(view[filt]).size == 1`: the selected labels take exactly one value. */
  predicate OneDistinctSelected(view: seq<int>, filt: seq<bool>)
    requires |view| == |filt|
  {
    exists i :: 0 <= i < |filt| && filt[i] && forall j :: 0 <= j < |filt| && filt[j] ==> view[j] == view[i]
  }

  /** `filt.all()`. */
  predicate AllSelected(filt: seq<bool>) {
    forall i :: 0 <= i < |filt| ==> filt[i]
  }

  /** The check of lines 116-119 on a window mask is the homogeneity of the window's labels. */
  lemma SelectedIsWindow(s: seq<int>, filt: seq<bool>, offset: nat, lo: int, hi: int)
    requires IsRangeMask(filt, lo, hi) && |s| == |filt| + 2 * offset
    ensures OneDistinctSelected(s[offset..offset + |filt|], filt) <==> Homogeneous(s, offset + lo, offset + hi)
  {
    var view := s[offset..offset + |filt|];
    if Homogeneous(s, offset + lo, offset + hi) {
      assert filt[lo];
      assert forall j :: 0 <= j < |filt| && filt[j] ==> view[j] == view[lo];
    }
  }

  /** On a non-empty window mask, the borders, the peak and `filt.all()` as `_segment` reads them. */
  lemma WindowFacts(ranks: seq<int>, filt: seq<bool>, lo: int, hi: int)
    requires IsRangeMask(filt, lo, hi) && lo < hi && |ranks| == |filt|
    ensures LocateSegment(filt).span == Some(Span(lo, hi))
    ensures AnySelected(filt) && FilterFind(ranks, filt)[0] == Peak(ranks, lo, hi)
    ensures AllSelected(filt) <==> lo == 0 && hi == |filt|
  {
    RangeMaskOneRun(filt, lo, hi);
    assert filt == Between(|filt|, lo, hi);
  }

  /** The peak of the window [lo, hi) by rank, as `_filter_find` picks it. */
  function Peak(ranks: seq<int>, lo: int, hi: int): (p: nat)
    requires 0 <= lo < hi <= |ranks|
    ensures lo <= p < hi
  {
    var window := Between(|ranks|, lo, hi);
    assert window[lo];
    var found := FilterFind(ranks, window);
    assert found[0] in found;
    found[0]
  }

  /** The peak rate of the window [lo, hi) stays below ImpulseSlopeRequirement. */
  predicate BelowThreshold(dydt: seq<real>, ranks: seq<int>, lo: int, hi: int, th: Thresholds)
    requires |ranks| == |dydt|
  {
    0 <= lo < hi <= |dydt| && dydt[Peak(ranks, lo, hi)] < th.impulseSlopeRequirement
  }

  /** The impulse mask of the window [lo, hi). */
  function WindowImpulseMask(dydt: seq<real>, ranks: seq<int>, lo: int, hi: int, th: Thresholds): (mask: seq<bool>)
    requires |ranks| == |dydt| && 0 <= lo < hi <= |dydt|
    ensures |mask| == |dydt|
  {
    ImpulseMask(dydt, Peak(ranks, lo, hi), Between(|dydt|, lo, hi), th.impulseExtension)
  }

  /** The impulse candidates of the window [lo, hi) after the median filter. */
  function WindowImpulseRuns(dydt: seq<real>, ranks: seq<int>, lo: int, hi: int, th: Thresholds): (runs: seq<bool>)
    requires |ranks| == |dydt| && 0 <= lo < hi <= |dydt|
    ensures |runs| == |dydt|
  {
    ImpulseRuns(dydt, Peak(ranks, lo, hi), Between(|dydt|, lo, hi), th.impulseExtension)
  }

  // ---------------------------------------------------------------------------------------
  // What segmenting a window may change
  // ---------------------------------------------------------------------------------------

  /**
   * How the labels may change while segmenting the window [lo, hi): every label ends as a
   * phase code 0..4 or as a label that was already present, and inside the derivative range
   * but outside the window a label is unchanged or has become Impulse.
   */
  ghost predicate Evolved(before: seq<int>, after: seq<int>, offset: nat, lo: int, hi: int) {
    |after| == |before| &&
    (forall k :: 0 <= k < |after| ==> 0 <= after[k] <= 4 || after[k] in before) &&
    (forall k :: offset <= k < |after| - offset && !(offset + lo <= k < offset + hi) ==>
      after[k] == before[k] || after[k] == Impulse.Code())
  }

  lemma EvolvedReflexive(s: seq<int>, offset: nat, lo: int, hi: int)
    ensures Evolved(s, s, offset, lo, hi)
  {
    forall k | 0 <= k < |s| ensures s[k] in s {
    }
  }

  /** Changes allowed for a window are allowed for any window around it. */
  lemma EvolvedWiden(a: seq<int>, b: seq<int>, offset: nat, lo: int, hi: int, lo2: int, hi2: int)
    requires Evolved(a, b, offset, lo2, hi2) && lo <= lo2 && hi2 <= hi
    ensures Evolved(a, b, offset, lo, hi)
  {
  }

  /** Segmenting a sub-window after the window keeps the window's guarantees. */
  lemma EvolvedTransitive(a: seq<int>, b: seq<int>, c: seq<int>, offset: nat, lo: int, hi: int)
    requires Evolved(a, b, offset, lo, hi) && Evolved(b, c, offset, lo, hi)
    ensures Evolved(a, c, offset, lo, hi)
  {
    forall k | 0 <= k < |c| ensures 0 <= c[k] <= 4 || c[k] in a {
      if !(0 <= c[k] <= 4) {
        var j :| 0 <= j < |b| && b[j] == c[k];
        assert b[j] in a;
      }
    }
  }

  /** A masked write of a phase code inside the window, or of Impulse anywhere. */
  lemma WrittenEvolves(s: seq<int>, offset: nat, mask: seq<bool>, code: int, lo: int, hi: int)
    requires offset + |mask| <= |s| && 0 <= code <= 4
    requires code == Impulse.Code() || forall i :: 0 <= i < |mask| && mask[i] ==> lo <= i < hi
    ensures Evolved(s, Written(s, offset, mask, code), offset, lo, hi)
  {
    var t := Written(s, offset, mask, code);
    forall k | 0 <= k < |t| ensures 0 <= t[k] <= 4 || t[k] in s {
      if t[k] != code {
        assert t[k] == s[k];
      }
    }
  }

  /** A slice fill with a code or an existing label, inside the window or an edge band. */
  lemma FilledEvolves(s: seq<int>, a: int, b: int, v: int, offset: nat, lo: int, hi: int)
    requires 0 <= v <= 4 || v in s
    requires b <= offset || a >= |s| - offset || (offset + lo <= a && b <= offset + hi)
    ensures Evolved(s, Filled(s, a, b, v), offset, lo, hi)
  {
    var t := Filled(s, a, b, v);
    forall k | 0 <= k < |t| ensures 0 <= t[k] <= 4 || t[k] in s {
      if !(a <= k < b) {
        assert t[k] == s[k];
      }
    }
  }

  /** The edge copies change only the edge bands, and only to labels already present. */
  lemma EdgesEvolve(s: seq<int>, t: seq<int>, offset: nat, lo: int, hi: int)
    requires |t| == |s|
    requires forall k :: offset <= k < |s| - offset ==> t[k] == s[k]
    requires forall k :: 0 <= k < |t| ==> t[k] in s
    ensures Evolved(s, t, offset, lo, hi)
  {
  }

  // ---------------------------------------------------------------------------------------
  // _segment
  // ---------------------------------------------------------------------------------------

  /** The shape every `_segment` call relies on; `ranks` must be pairwise distinct. */
  ghost predicate SegmentInputs(dydt: seq<real>, ranks: seq<int>, signs: seq<int>, phases: array<int>,
                                filt: array<bool>, offset: nat)
    reads phases, filt
  {
    offset >= 1 && phases.Length == |dydt| + 2 * offset &&
    |ranks| == |dydt| && |signs| == |dydt| && filt.Length == |dydt| &&
    Injective(ranks)
  }

  /** Whether the impulse candidates of the window [lo, hi) form exactly one run. */
  ghost predicate ImpulseFound(dydt: seq<real>, ranks: seq<int>, lo: int, hi: int, th: Thresholds)
    requires |ranks| == |dydt| && 0 <= lo < hi <= |dydt|
  {
    RunCount(WindowImpulseRuns(dydt, ranks, lo, hi, th)) == 1
  }

  /**
   * The labels after lines 142-153, when the impulse is not one run: the impulse mask stays
   * written, and a window starting at 0 also fills the left edge band.
   */
  ghost function PhasesWithoutImpulse(s: seq<int>, offset: nat, dydt: seq<real>, ranks: seq<int>,
                                      lo: int, hi: int, th: Thresholds): seq<int>
    requires |ranks| == |dydt| && 0 <= lo < hi <= |dydt| && |s| == |dydt| + 2 * offset
  {
    var w := Written(s, offset, WindowImpulseMask(dydt, ranks, lo, hi, th), Impulse.Code());
    if lo == 0 then Filled(w, 0, offset, w[offset]) else w
  }

  /** The warnings of lines 142-153: several impulse runs, or none in the whole curve. */
  ghost function WarningsWithoutImpulse(dydt: seq<real>, ranks: seq<int>, lo: int, hi: int, th: Thresholds): seq<Warning>
    requires |ranks| == |dydt| && 0 <= lo < hi <= |dydt|
  {
    var count := RunCount(WindowImpulseRuns(dydt, ranks, lo, hi, th));
    (if count > 1 then [NotHomogeneous(count)] else []) +
    (if lo == 0 && hi == |dydt| then [NoContiguousImpulse] else [])
  }

  /** Both edge bands copy their neighbouring label (lines 178-179). */
  ghost predicate EdgesCopied(s: seq<int>, offset: nat) {
    offset < |s| &&
    (forall k :: 0 <= k < offset ==> s[k] == s[offset]) &&
    (forall k :: |s| - offset <= k < |s| ==> s[k] == s[|s| - offset - 1])
  }

  /** Every derivative position the mask selects holds `code` or Impulse. */
  ghost predicate LabelledOrImpulse(s: seq<int>, offset: nat, mask: seq<bool>, code: int)
    requires offset + |mask| <= |s|
  {
    forall i :: 0 <= i < |mask| && mask[i] ==> s[offset + i] == code || s[offset + i] == Impulse.Code()
  }

  /** The peak of the window [lo, hi) is still an impulse candidate after the median filter. */
  ghost predicate PeakSurvives(dydt: seq<real>, ranks: seq<int>, lo: int, hi: int, th: Thresholds)
    requires |ranks| == |dydt| && 0 <= lo < hi <= |dydt|
  {
    WindowImpulseRuns(dydt, ranks, lo, hi, th)[Peak(ranks, lo, hi)]
  }

  /** The bounds `_locate_impulse` returns when the impulse candidates form one run. */
  ghost function ImpulseSpan(dydt: seq<real>, ranks: seq<int>, lo: int, hi: int, th: Thresholds): (span: Span)
    requires |ranks| == |dydt| && 0 <= lo < hi <= |dydt| && ImpulseFound(dydt, ranks, lo, hi, th)
    ensures lo <= span.left < span.right <= hi
    ensures forall i :: 0 <= i < |dydt| ==>
      (WindowImpulseRuns(dydt, ranks, lo, hi, th)[i] <==> span.left <= i < span.right)
  {
    var runs := WindowImpulseRuns(dydt, ranks, lo, hi, th);
    MedFiltWithin(ImpulseCandidates(dydt, Peak(ranks, lo, hi), Between(|dydt|, lo, hi), th.impulseExtension), lo, hi);
    var span := LocateSegment(runs).span.value;
    assert runs[span.left] && runs[span.right - 1];
    span
  }

  /**
   * The last run of rising slopes in [left, right) without its first sample, which step 5b
   * overwrites when a remainder is left of it; empty when there is no such run.
   */
  ghost function AccelerationMask(dydt: seq<real>, signs: seq<int>, left: int, right: int, flat: real): (mask: seq<bool>)
    requires |signs| == |dydt|
    ensures |mask| == |dydt|
    ensures forall i :: 0 <= i < |dydt| && mask[i] ==> SlopeRuns(dydt, signs, left, right, flat, 1)[i]
  {
    var runs := SlopeRuns(dydt, signs, left, right, flat, 1);
    var run := LabelIs(Label(runs), RunCount(runs));
    seq(|dydt|, i requires 0 <= i < |dydt| => RunCount(runs) > 0 && 0 < i && run[i - 1] && run[i])
  }

  /** The first run of falling slopes in [left, right); empty when there is no such run. */
  ghost function RetardationMask(dydt: seq<real>, signs: seq<int>, left: int, right: int, flat: real): (mask: seq<bool>)
    requires |signs| == |dydt|
    ensures |mask| == |dydt|
    ensures forall i :: 0 <= i < |dydt| && mask[i] ==> SlopeRuns(dydt, signs, left, right, flat, -1)[i]
  {
    var runs := SlopeRuns(dydt, signs, left, right, flat, -1);
    var run := LabelIs(Label(runs), 1);
    seq(|dydt|, i requires 0 <= i < |dydt| => RunCount(runs) > 0 && run[i])
  }

  /** The slope runs of a window lie inside it. */
  lemma SlopeRunsWithin(dydt: seq<real>, signs: seq<int>, left: int, right: int, flat: real, sign: int)
    requires |signs| == |dydt| && 0 <= left <= right <= |dydt|
    ensures forall i :: 0 <= i < |dydt| && SlopeRuns(dydt, signs, left, right, flat, sign)[i] ==> left <= i < right
  {
    var window := Between(|dydt|, left, right);
    var selected := seq(|dydt|, i requires 0 <= i < |dydt| => window[i] && Abs(dydt[i]) > flat && signs[i] == sign);
    MedFiltWithin(selected, left, right);
  }

  /**
   * What a full segmentation of the window [lo, hi) around its impulse leaves: the impulse run
   * labelled Impulse when the peak is part of it, the acceleration run left of it (but its first
   * sample) Acceleration and the retardation run right of it Retardation; a later search of a
   * remainder may still turn any of these into Impulse.
   */
  ghost predicate PhasesAroundImpulse(s: seq<int>, offset: nat, dydt: seq<real>, ranks: seq<int>, signs: seq<int>,
                                      lo: int, hi: int, th: Thresholds)
    requires |ranks| == |dydt| && |signs| == |dydt| && 0 <= lo < hi <= |dydt| && |s| == |dydt| + 2 * offset
    requires ImpulseFound(dydt, ranks, lo, hi, th)
  {
    var span := ImpulseSpan(dydt, ranks, lo, hi, th);
    (PeakSurvives(dydt, ranks, lo, hi, th) ==>
       LabelledOrImpulse(s, offset, WindowImpulseRuns(dydt, ranks, lo, hi, th), Impulse.Code())) &&
    LabelledOrImpulse(s, offset, AccelerationMask(dydt, signs, lo, span.left, th.flatlineSlopeRequirement),
                      Acceleration.Code()) &&
    LabelledOrImpulse(s, offset, RetardationMask(dydt, signs, span.right, hi, th.flatlineSlopeRequirement),
                      Retardation.Code())
  }

  /** Only windows smaller than the whole curve were searched without an impulse. */
  predicate OnlyNotHomogeneous(warnings: seq<Warning>) {
    forall w :: w in warnings ==> w.NotHomogeneous?
  }

  /**
   * After `_locate_acceleration` the acceleration run is written; what the mask selects lies
   * right of the returned span's start.
   */
  lemma AccelerationWritten(s0: seq<int>, s1: seq<int>, offset: nat, dydt: seq<real>, signs: seq<int>,
                            left: int, right: int, flat: real, accel: Span)
    requires |signs| == |dydt| && |s0| == |dydt| + 2 * offset && |s1| == |s0|
    requires var runs := SlopeRuns(dydt, signs, left, right, flat, 1);
      if RunCount(runs) > 0 then
        IsRangeMask(LabelIs(Label(runs), RunCount(runs)), accel.left, accel.right) &&
        s1 == Written(s0, offset, LabelIs(Label(runs), RunCount(runs)), Acceleration.Code())
      else
        accel.left == left
    ensures var mask := AccelerationMask(dydt, signs, left, right, flat);
      LabelledOrImpulse(s1, offset, mask, Acceleration.Code()) &&
      forall i :: 0 <= i < |mask| && mask[i] ==> accel.left < i
  {
  }

  /** After `_locate_retardation` the retardation run is written and ends at the span's end. */
  lemma RetardationWritten(s0: seq<int>, s1: seq<int>, offset: nat, dydt: seq<real>, signs: seq<int>,
                           left: int, right: int, flat: real, retard: Span)
    requires |signs| == |dydt| && |s0| == |dydt| + 2 * offset && |s1| == |s0|
    requires var runs := SlopeRuns(dydt, signs, left, right, flat, -1);
      if RunCount(runs) > 0 then
        IsRangeMask(LabelIs(Label(runs), 1), retard.left, retard.right) &&
        s1 == Written(s0, offset, LabelIs(Label(runs), 1), Retardation.Code())
      else
        retard.right == right
    ensures var mask := RetardationMask(dydt, signs, left, right, flat);
      LabelledOrImpulse(s1, offset, mask, Retardation.Code()) &&
      forall i :: 0 <= i < |mask| && mask[i] ==> i < retard.right
  {
  }

  lemma OnlyNotHomogeneousConcat(a: seq<Warning>, b: seq<Warning>)
    requires OnlyNotHomogeneous(a) && OnlyNotHomogeneous(b)
    ensures OnlyNotHomogeneous(a + b)
  {
  }

  /** Labels a later search of a disjoint window cannot take away. */
  lemma LabelledKept(a: seq<int>, b: seq<int>, offset: nat, mask: seq<bool>, code: int, lo: int, hi: int)
    requires |a| == |mask| + 2 * offset && Evolved(a, b, offset, lo, hi)
    requires forall i :: 0 <= i < |mask| && mask[i] ==> !(lo <= i < hi)
    requires LabelledOrImpulse(a, offset, mask, code)
    ensures LabelledOrImpulse(b, offset, mask, code)
  {
    forall i | 0 <= i < |mask| && mask[i]
      ensures b[offset + i] == code || b[offset + i] == Impulse.Code()
    {
      assert offset <= offset + i < |b| - offset;
    }
  }

  /**
   * `_segment`: segments the window [lo, hi) that `filt` selects, writing phase labels into
   * `phases` and recursing on the flat remainders left and right of the impulse.
   */
  method Segment(dydt: seq<real>, ranks: seq<int>, signs: seq<int>, phases: array<int>, filt: array<bool>,
                 offset: nat, thresholds: Option<Thresholds>, ghost lo: nat, ghost hi: nat)
    returns (outcome: SegmentOutcome)
    requires SegmentInputs(dydt, ranks, signs, phases, filt, offset)
    requires IsRangeMask(filt[..], lo, hi)
    modifies phases, filt
    decreases hi - lo, 4
    // Lines 116-119: the window must hold exactly one distinct label.
    ensures outcome.Raised? <==> !Homogeneous(old(phases[..]), offset + lo, offset + hi)
    ensures outcome.Raised? ==> phases[..] == old(phases[..]) && filt[..] == old(filt[..])
    // Only codes 0..4 or copies are written; outside the window only Impulse may appear.
    ensures Evolved(old(phases[..]), phases[..], offset, lo, hi)
    // The caller's filter buffer is reused: it ends selecting only positions of the window.
    ensures forall i :: 0 <= i < filt.Length && filt[i] ==> lo <= i < hi
    // Lines 130-139: below the slope requirement only the left edge band may change.
    ensures (outcome.Finished? && BelowThreshold(dydt, ranks, lo, hi, ResolveThresholds(thresholds))) ==>
      filt[..] == old(filt[..]) &&
      phases[..] == (if lo == 0 then Filled(old(phases[..]), 0, offset, old(phases[offset])) else old(phases[..])) &&
      outcome.warnings ==
        (if lo == 0 && hi == |dydt|
         then [NoImpulse(dydt[Peak(ranks, lo, hi)], ResolveThresholds(thresholds).impulseSlopeRequirement)]
         else [])
    // Lines 142-153: no single impulse run; the impulse write stays, plus the left edge band.
    ensures (outcome.Finished? && !BelowThreshold(dydt, ranks, lo, hi, ResolveThresholds(thresholds)) &&
             !ImpulseFound(dydt, ranks, lo, hi, ResolveThresholds(thresholds))) ==>
      filt[..] == old(filt[..]) &&
      phases[..] == PhasesWithoutImpulse(old(phases[..]), offset, dydt, ranks, lo, hi, ResolveThresholds(thresholds)) &&
      outcome.warnings == WarningsWithoutImpulse(dydt, ranks, lo, hi, ResolveThresholds(thresholds))
    // Lines 178-179: after a full segmentation both edge bands copy their neighbouring label.
    ensures (outcome.Finished? && !BelowThreshold(dydt, ranks, lo, hi, ResolveThresholds(thresholds)) &&
             ImpulseFound(dydt, ranks, lo, hi, ResolveThresholds(thresholds))) ==>
      EdgesCopied(phases[..], offset) &&
      PhasesAroundImpulse(phases[..], offset, dydt, ranks, signs, lo, hi, ResolveThresholds(thresholds)) &&
      OnlyNotHomogeneous(outcome.warnings)
    // The no-impulse warnings are emitted only when the whole curve is searched.
    ensures outcome.Finished? && !(lo == 0 && hi == |dydt|) ==> OnlyNotHomogeneous(outcome.warnings)
  {
    ghost var s0 := phases[..];
    var m := |dydt|;

    var view := phases[offset..offset + m];
    SelectedIsWindow(s0, filt[..], offset, lo, hi);
    assert view == s0[offset..offset + filt.Length];
    if !OneDistinctSelected(view, filt[..]) {
      return Raised;
    }
    assert Homogeneous(s0, offset + lo, offset + hi);

    // 1. The window's borders.
    WindowFacts(ranks, filt[..], lo, hi);
    var located := LocateSegment(filt[..]);
    var left, right := located.span.value.left, located.span.value.right;
    var warnings := SegmentWindow(dydt, ranks, signs, phases, filt, offset, ResolveThresholds(thresholds), left, right);
    return Finished(warnings);
  }

  /**
   * Steps 2 to 7 of `_segment` on the homogeneous window [left, right) that `filt` selects:
   * the peak rate, then either the early exit below the slope requirement or the segmentation
   * around the peak.
   */
  method SegmentWindow(dydt: seq<real>, ranks: seq<int>, signs: seq<int>, phases: array<int>, filt: array<bool>,
                       offset: nat, th: Thresholds, left: nat, right: nat)
    returns (warnings: seq<Warning>)
    requires SegmentInputs(dydt, ranks, signs, phases, filt, offset)
    requires IsRangeMask(filt[..], left, right) && left < right
    modifies phases, filt
    decreases right - left, 3
    ensures Evolved(old(phases[..]), phases[..], offset, left, right)
    ensures forall i :: 0 <= i < filt.Length && filt[i] ==> left <= i < right
    ensures BelowThreshold(dydt, ranks, left, right, th) ==>
      filt[..] == old(filt[..]) &&
      phases[..] == (if left == 0 then Filled(old(phases[..]), 0, offset, old(phases[offset])) else old(phases[..])) &&
      warnings ==
        (if left == 0 && right == |dydt| then [NoImpulse(dydt[Peak(ranks, left, right)], th.impulseSlopeRequirement)] else [])
    ensures (!BelowThreshold(dydt, ranks, left, right, th) && !ImpulseFound(dydt, ranks, left, right, th)) ==>
      filt[..] == old(filt[..]) &&
      phases[..] == PhasesWithoutImpulse(old(phases[..]), offset, dydt, ranks, left, right, th) &&
      warnings == WarningsWithoutImpulse(dydt, ranks, left, right, th)
    ensures (!BelowThreshold(dydt, ranks, left, right, th) && ImpulseFound(dydt, ranks, left, right, th)) ==>
      EdgesCopied(phases[..], offset) &&
      PhasesAroundImpulse(phases[..], offset, dydt, ranks, signs, left, right, th) &&
      OnlyNotHomogeneous(warnings)
    ensures !(left == 0 && right == |dydt|) ==> OnlyNotHomogeneous(warnings)
  {
    ghost var s0 := phases[..];
    WindowFacts(ranks, filt[..], left, right);

    // 2. The window's peak rate.
    var loc := FilterFind(ranks, filt[..])[0];
    var noImpulse := AllSelected(filt[..]);

    // 3. Below the slope requirement there is nothing to segment.
    if dydt[loc] < th.impulseSlopeRequirement {
      warnings := SkipBelowThreshold(phases, offset, left, right, dydt[loc], th.impulseSlopeRequirement, noImpulse);
      if left == 0 {
        assert s0[offset] in s0;
        FilledEvolves(s0, 0, offset, s0[offset], offset, left, right);
      } else {
        EvolvedReflexive(s0, offset, left, right);
      }
      return;
    }

    warnings := SegmentAroundPeak(dydt, ranks, signs, phases, filt, offset, th, left, right, loc, noImpulse);
  }

  /**
   * Lines 130-139 of `_segment`, below the slope requirement: the warning when the whole curve
   * was searched, and the left edge band when the window starts at 0.
   */
  method SkipBelowThreshold(phases: array<int>, offset: nat, left: nat, right: nat, peakRate: real,
                            requirement: real, noImpulse: bool)
    returns (warnings: seq<Warning>)
    requires offset < phases.Length && right < phases.Length
    modifies phases
    ensures phases[..] == (if left == 0 then Filled(old(phases[..]), 0, offset, old(phases[offset])) else old(phases[..]))
    ensures warnings == (if noImpulse then [NoImpulse(peakRate, requirement)] else [])
  {
    warnings := [];
    if noImpulse {
      warnings := [NoImpulse(peakRate, requirement)];
    }
    if left == 0 {
      ExtendLeftEdge(phases, offset);
    }
    // The right edge copy is guarded by `right == phases.size`; right is a derivative
    // index and phases is longer by 2 * offset, so that copy never happens.
    if right == phases.Length {
      assert false;
    }
  }

  /**
   * Steps 4 to 7 of `_segment`, for a homogeneous window [left, right) whose peak rate meets
   * the slope requirement: the impulse, then acceleration and retardation around it with the
   * recursive searches of the flat remainders, then the edge bands.
   */
  method SegmentAroundPeak(dydt: seq<real>, ranks: seq<int>, signs: seq<int>, phases: array<int>,
                           filt: array<bool>, offset: nat, th: Thresholds, left: nat, right: nat,
                           loc: nat, noImpulse: bool)
    returns (warnings: seq<Warning>)
    requires SegmentInputs(dydt, ranks, signs, phases, filt, offset)
    requires IsRangeMask(filt[..], left, right) && left < right
    requires loc == Peak(ranks, left, right)
    requires noImpulse <==> left == 0 && right == |dydt|
    modifies phases, filt
    decreases right - left, 2
    ensures Evolved(old(phases[..]), phases[..], offset, left, right)
    ensures forall i :: 0 <= i < filt.Length && filt[i] ==> left <= i < right
    ensures !ImpulseFound(dydt, ranks, left, right, th) ==>
      filt[..] == old(filt[..]) &&
      phases[..] == PhasesWithoutImpulse(old(phases[..]), offset, dydt, ranks, left, right, th) &&
      warnings == WarningsWithoutImpulse(dydt, ranks, left, right, th)
    ensures ImpulseFound(dydt, ranks, left, right, th) ==>
      EdgesCopied(phases[..], offset) &&
      PhasesAroundImpulse(phases[..], offset, dydt, ranks, signs, left, right, th) &&
      OnlyNotHomogeneous(warnings)
    ensures !(left == 0 && right == |dydt|) ==> OnlyNotHomogeneous(warnings)
  {
    ghost var s0 := phases[..];
    assert filt[..] == Between(|dydt|, left, right);

    // 4. The impulse.
    var impulse := LocateImpulse(dydt, loc, phases, filt[..], offset, th.impulseExtension);
    ghost var s1 := phases[..];
    if impulse.span.None? {
      warnings := FinishWithoutImpulse(dydt, ranks, phases, offset, th, left, right, impulse, noImpulse, s0);
      return;
    }
    var impulseLeft, impulseRight := impulse.span.value.left, impulse.span.value.right;
    assert Span(impulseLeft, impulseRight) == ImpulseSpan(dydt, ranks, left, right, th);
    warnings := SegmentFlanks(dydt, ranks, signs, phases, filt, offset, th, left, right, impulseLeft, impulseRight);
    ImpulsePathKeeps(s0, s1, phases[..], offset, dydt, ranks, signs, left, right, th);
  }

  /**
   * Lines 145-153 after the impulse write of step 4, when the impulse candidates of the window
   * [left, right) do not form one run: the warnings and the left edge band, from the labels `s0`
   * that the window had before the impulse write.
   */
  method FinishWithoutImpulse(dydt: seq<real>, ranks: seq<int>, phases: array<int>, offset: nat, th: Thresholds,
                              left: nat, right: nat, located: Located, noImpulse: bool, ghost s0: seq<int>)
    returns (warnings: seq<Warning>)
    requires |ranks| == |dydt| && 0 <= left < right <= |dydt|
    requires offset >= 1 && phases.Length == |dydt| + 2 * offset && |s0| == phases.Length
    requires located == LocateSegment(WindowImpulseRuns(dydt, ranks, left, right, th)) && located.span.None?
    requires noImpulse <==> left == 0 && right == |dydt|
    requires phases[..] == Written(s0, offset, WindowImpulseMask(dydt, ranks, left, right, th), Impulse.Code())
    modifies phases
    ensures phases[..] == PhasesWithoutImpulse(s0, offset, dydt, ranks, left, right, th)
    ensures warnings == WarningsWithoutImpulse(dydt, ranks, left, right, th)
    ensures Evolved(s0, phases[..], offset, left, right)
    ensures !noImpulse ==> OnlyNotHomogeneous(warnings)
  {
    warnings := ReportMissingImpulse(phases, offset, left, right, located.notHomogeneous, noImpulse);
    MissingImpulseKeeps(s0, phases[..], offset, dydt, ranks, left, right, th);
  }

  /** Chains the guarantees of steps 4 and its exit when the impulse candidates do not form one run. */
  lemma MissingImpulseKeeps(s0: seq<int>, s2: seq<int>, offset: nat, dydt: seq<real>, ranks: seq<int>,
                            left: int, right: int, th: Thresholds)
    requires |ranks| == |dydt| && 0 <= left < right <= |dydt| && |s0| == |dydt| + 2 * offset && offset >= 1
    requires s2 == PhasesWithoutImpulse(s0, offset, dydt, ranks, left, right, th)
    ensures Evolved(s0, s2, offset, left, right)
  {
    var s1 := Written(s0, offset, WindowImpulseMask(dydt, ranks, left, right, th), Impulse.Code());
    WrittenEvolves(s0, offset, WindowImpulseMask(dydt, ranks, left, right, th), Impulse.Code(), left, right);
    if left == 0 {
      assert s1[offset] in s1;
      FilledEvolves(s1, 0, offset, s1[offset], offset, left, right);
      EvolvedTransitive(s0, s1, s2, offset, left, right);
    }
  }

  /** Chains the guarantees of steps 4 to 7 when the impulse candidates form one run. */
  lemma ImpulsePathKeeps(s0: seq<int>, s1: seq<int>, s3: seq<int>, offset: nat, dydt: seq<real>, ranks: seq<int>,
                         signs: seq<int>, left: int, right: int, th: Thresholds)
    requires |ranks| == |dydt| && |signs| == |dydt| && 0 <= left < right <= |dydt| && |s0| == |dydt| + 2 * offset
    requires ImpulseFound(dydt, ranks, left, right, th)
    requires s1 == Written(s0, offset, WindowImpulseMask(dydt, ranks, left, right, th), Impulse.Code())
    requires Evolved(s1, s3, offset, left, right)
    requires var span := ImpulseSpan(dydt, ranks, left, right, th);
      (forall k :: offset + span.left <= k < offset + span.right ==> s3[k] == s1[k] || s3[k] == Impulse.Code()) &&
      LabelledOrImpulse(s3, offset, AccelerationMask(dydt, signs, left, span.left, th.flatlineSlopeRequirement),
                        Acceleration.Code()) &&
      LabelledOrImpulse(s3, offset, RetardationMask(dydt, signs, span.right, right, th.flatlineSlopeRequirement),
                        Retardation.Code())
    ensures Evolved(s0, s3, offset, left, right)
    ensures PhasesAroundImpulse(s3, offset, dydt, ranks, signs, left, right, th)
  {
    WrittenEvolves(s0, offset, WindowImpulseMask(dydt, ranks, left, right, th), Impulse.Code(), left, right);
    EvolvedTransitive(s0, s1, s3, offset, left, right);
    ImpulseKept(s0, s1, s3, offset, dydt, ranks, left, right, th);
  }

  /**
   * When the peak is part of the single impulse run, `_locate_impulse` labels exactly that run,
   * so a run left alone (or relabelled Impulse) by the flank searches ends Impulse.
   */
  lemma ImpulseKept(s0: seq<int>, s1: seq<int>, s3: seq<int>, offset: nat, dydt: seq<real>, ranks: seq<int>,
                    left: int, right: int, th: Thresholds)
    requires |ranks| == |dydt| && 0 <= left < right <= |dydt| && |s0| == |dydt| + 2 * offset
    requires ImpulseFound(dydt, ranks, left, right, th)
    requires s1 == Written(s0, offset, WindowImpulseMask(dydt, ranks, left, right, th), Impulse.Code())
    requires var span := ImpulseSpan(dydt, ranks, left, right, th);
      |s3| == |s1| &&
      forall k :: offset + span.left <= k < offset + span.right ==> s3[k] == s1[k] || s3[k] == Impulse.Code()
    ensures PeakSurvives(dydt, ranks, left, right, th) ==>
      LabelledOrImpulse(s3, offset, WindowImpulseRuns(dydt, ranks, left, right, th), Impulse.Code())
  {
    var runs := WindowImpulseRuns(dydt, ranks, left, right, th);
    var span := ImpulseSpan(dydt, ranks, left, right, th);
    var loc := Peak(ranks, left, right);
    if runs[loc] {
      forall i | 0 <= i < |runs| && runs[i]
        ensures s3[offset + i] == Impulse.Code()
      {
        assert Label(runs)[i] == 1 == Label(runs)[loc];
        assert WindowImpulseMask(dydt, ranks, left, right, th)[i];
        assert s1[offset + i] == Impulse.Code();
      }
    }
  }

  /**
   * Lines 142-153 of `_segment`, when the impulse is not one run: the warnings, and the left
   * edge band when the window starts at 0.
   */
  method ReportMissingImpulse(phases: array<int>, offset: nat, left: nat, right: nat,
                              notHomogeneous: Option<nat>, noImpulse: bool)
    returns (warnings: seq<Warning>)
    requires offset < phases.Length && right < phases.Length
    modifies phases
    ensures phases[..] == (if left == 0 then Filled(old(phases[..]), 0, offset, old(phases[offset])) else old(phases[..]))
    ensures warnings ==
      (if notHomogeneous.Some? then [NotHomogeneous(notHomogeneous.value)] else []) +
      (if noImpulse then [NoContiguousImpulse] else [])
    ensures !noImpulse ==> OnlyNotHomogeneous(warnings)
  {
    warnings := [];
    if notHomogeneous.Some? {
      warnings := [NotHomogeneous(notHomogeneous.value)];
    }
    if noImpulse {
      warnings := warnings + [NoContiguousImpulse];
    }
    if left == 0 {
      ExtendLeftEdge(phases, offset);
    }
    // As in step 3, the right edge copy never happens.
    if right == phases.Length {
      assert false;
    }
  }

  /**
   * Steps 5 to 7 of `_segment` around the impulse [impulseLeft, impulseRight) of the window
   * [left, right): both flanks, then the edge bands.
   */
  method SegmentFlanks(dydt: seq<real>, ranks: seq<int>, signs: seq<int>, phases: array<int>,
                       filt: array<bool>, offset: nat, th: Thresholds, left: nat, right: nat,
                       impulseLeft: nat, impulseRight: nat)
    returns (warnings: seq<Warning>)
    requires SegmentInputs(dydt, ranks, signs, phases, filt, offset)
    requires left <= impulseLeft < impulseRight <= right <= |dydt|
    requires forall i :: 0 <= i < filt.Length && filt[i] ==> left <= i < right
    modifies phases, filt
    decreases right - left, 1
    ensures Evolved(old(phases[..]), phases[..], offset, left, right)
    ensures forall i :: 0 <= i < filt.Length && filt[i] ==> left <= i < right
    ensures EdgesCopied(phases[..], offset)
    // The impulse itself is not searched again: its labels stay or become Impulse.
    ensures forall k :: offset + impulseLeft <= k < offset + impulseRight ==>
      phases[k] == old(phases[k]) || phases[k] == Impulse.Code()
    ensures LabelledOrImpulse(phases[..], offset,
      AccelerationMask(dydt, signs, left, impulseLeft, th.flatlineSlopeRequirement), Acceleration.Code())
    ensures LabelledOrImpulse(phases[..], offset,
      RetardationMask(dydt, signs, impulseRight, right, th.flatlineSlopeRequirement), Retardation.Code())
    ensures OnlyNotHomogeneous(warnings)
  {
    ghost var s0, f0 := phases[..], filt[..];
    // 5. Acceleration, and the flat remainder to its left.
    var leftWarnings := SegmentLeftOfImpulse(dydt, ranks, signs, phases, filt, offset, th, left, impulseLeft);
    ghost var s1, f1 := phases[..], filt[..];

    // 6. Retardation, and the flat remainder to its right.
    var rightWarnings := SegmentRightOfImpulse(dydt, ranks, signs, phases, filt, offset, th, impulseRight, right);
    ghost var s2 := phases[..];

    // 7. The edge bands copy their neighbouring labels.
    ExtendEdges(phases, offset);
    FilterStaysIn(f0, f1, filt[..], left, impulseLeft, impulseRight, right);
    FlanksKeep(s0, s1, s2, phases[..], offset, dydt, signs, left, impulseLeft, impulseRight, right,
               th.flatlineSlopeRequirement);
    OnlyNotHomogeneousConcat(leftWarnings, rightWarnings);
    return leftWarnings + rightWarnings;
  }

  /** The filter buffer stays within the window when each flank search selects only its own range. */
  lemma FilterStaysIn(f0: seq<bool>, f1: seq<bool>, f2: seq<bool>, left: int, impulseLeft: int,
                      impulseRight: int, right: int)
    requires |f1| == |f0| && |f2| == |f0| && left <= impulseLeft <= impulseRight <= right
    requires forall i :: 0 <= i < |f0| && f0[i] ==> left <= i < right
    requires forall i :: 0 <= i < |f1| && f1[i] ==> f0[i] || left <= i < impulseLeft
    requires forall i :: 0 <= i < |f2| && f2[i] ==> f1[i] || impulseRight <= i < right
    ensures forall i :: 0 <= i < |f2| && f2[i] ==> left <= i < right
  {
  }

  /**
   * Chains the guarantees of steps 5 and 5b (or 6 and 6b): the locator's write, then the fill of
   * the remainder and its search keep the changes allowed for the flank, and keep the labels of
   * a run that neither the fill nor the search reaches.
   */
  lemma RemainderKeeps(s0: seq<int>, s1: seq<int>, s3: seq<int>, offset: nat, lo: int, hi: int,
                       fillFrom: int, fillTo: int, innerLo: int, innerHi: int, mask: seq<bool>, code: int)
    requires |s0| == |mask| + 2 * offset && Evolved(s0, s1, offset, lo, hi) && Evolved(s1, s3, offset, lo, hi)
    requires fillFrom <= offset + innerLo && offset + innerHi <= fillTo
    requires forall k :: offset <= k < |s3| - offset && !(fillFrom <= k < fillTo) ==> s3[k] == s1[k] || s3[k] == Impulse.Code()
    requires LabelledOrImpulse(s1, offset, mask, code)
    requires forall i :: 0 <= i < |mask| && mask[i] ==> !(fillFrom <= offset + i < fillTo)
    ensures Evolved(s0, s3, offset, lo, hi)
    ensures LabelledOrImpulse(s3, offset, mask, code)
  {
    EvolvedTransitive(s0, s1, s3, offset, lo, hi);
    forall i | 0 <= i < |mask| && mask[i]
      ensures s3[offset + i] == code || s3[offset + i] == Impulse.Code()
    {
      assert offset <= offset + i < |s3| - offset;
    }
  }

  /**
   * Chains the guarantees of steps 5, 6 and 7: the flank searches touch only their own windows
   * (and may write Impulse), and the edge copies only the bands.
   */
  lemma FlanksKeep(s0: seq<int>, s1: seq<int>, s2: seq<int>, s3: seq<int>, offset: nat, dydt: seq<real>,
                   signs: seq<int>, left: int, impulseLeft: int, impulseRight: int, right: int, flat: real)
    requires |signs| == |dydt| && |s0| == |dydt| + 2 * offset
    requires 0 <= left <= impulseLeft < impulseRight <= right <= |dydt|
    requires Evolved(s0, s1, offset, left, impulseLeft) && Evolved(s1, s2, offset, impulseRight, right)
    requires |s3| == |s2| && forall k :: offset <= k < |s2| - offset ==> s3[k] == s2[k]
    requires forall k :: 0 <= k < |s3| ==> s3[k] in s2
    requires LabelledOrImpulse(s1, offset, AccelerationMask(dydt, signs, left, impulseLeft, flat), Acceleration.Code())
    requires LabelledOrImpulse(s2, offset, RetardationMask(dydt, signs, impulseRight, right, flat), Retardation.Code())
    ensures Evolved(s0, s3, offset, left, right)
    ensures forall k :: offset + impulseLeft <= k < offset + impulseRight ==> s3[k] == s0[k] || s3[k] == Impulse.Code()
    ensures LabelledOrImpulse(s3, offset, AccelerationMask(dydt, signs, left, impulseLeft, flat), Acceleration.Code())
    ensures LabelledOrImpulse(s3, offset, RetardationMask(dydt, signs, impulseRight, right, flat), Retardation.Code())
  {
    EvolvedWiden(s0, s1, offset, left, right, left, impulseLeft);
    EvolvedWiden(s1, s2, offset, left, right, impulseRight, right);
    EvolvedTransitive(s0, s1, s2, offset, left, right);
    EdgesEvolve(s2, s3, offset, left, right);
    EvolvedTransitive(s0, s2, s3, offset, left, right);
    SlopeRunsWithin(dydt, signs, left, impulseLeft, flat, 1);
    LabelledKept(s1, s2, offset, AccelerationMask(dydt, signs, left, impulseLeft, flat), Acceleration.Code(),
                 impulseRight, right);
    EdgesEvolve(s2, s3, offset, 0, 0);
    LabelledKept(s2, s3, offset, AccelerationMask(dydt, signs, left, impulseLeft, flat), Acceleration.Code(), 0, 0);
    LabelledKept(s2, s3, offset, RetardationMask(dydt, signs, impulseRight, right, flat), Retardation.Code(), 0, 0);
    forall k | offset + impulseLeft <= k < offset + impulseRight
      ensures s3[k] == s0[k] || s3[k] == Impulse.Code()
    {
      assert offset <= k < |s3| - offset;
    }
  }

  /**
   * Steps 5 and 5b of `_segment`: locate the acceleration in [left, impulseLeft); when it leaves a
   * remainder, fill [left, accel_left] with the next phase (overwriting the first Acceleration
   * label) and segment [left, accel_left) again, through the caller's filter buffer.
   */
  method SegmentLeftOfImpulse(dydt: seq<real>, ranks: seq<int>, signs: seq<int>, phases: array<int>,
                              filt: array<bool>, offset: nat, th: Thresholds, left: int, impulseLeft: int)
    returns (warnings: seq<Warning>)
    requires SegmentInputs(dydt, ranks, signs, phases, filt, offset)
    requires 0 <= left <= impulseLeft <= |dydt|
    modifies phases, filt
    decreases impulseLeft - left, 0
    ensures Evolved(old(phases[..]), phases[..], offset, left, impulseLeft)
    ensures forall i :: 0 <= i < filt.Length && filt[i] ==> old(filt[i]) || left <= i < impulseLeft
    // The acceleration run but its first sample ends Acceleration (or Impulse).
    ensures LabelledOrImpulse(phases[..], offset,
      AccelerationMask(dydt, signs, left, impulseLeft, th.flatlineSlopeRequirement), Acceleration.Code())
    ensures OnlyNotHomogeneous(warnings)
  {
    ghost var s0 := phases[..];
    var accel, nextPhase := LocateAcceleration(dydt, signs, phases, left, impulseLeft, offset,
                                               th.flatlineSlopeRequirement);
    ghost var s1 := phases[..];
    ghost var runs := SlopeRuns(dydt, signs, left, impulseLeft, th.flatlineSlopeRequirement, 1);
    ghost var accMask := AccelerationMask(dydt, signs, left, impulseLeft, th.flatlineSlopeRequirement);
    if RunCount(runs) > 0 {
      AccelerationIsLastRun(dydt, signs, left, impulseLeft, th.flatlineSlopeRequirement, accel);
      WrittenEvolves(s0, offset, LabelIs(Label(runs), RunCount(runs)), Acceleration.Code(), left, impulseLeft);
    } else {
      WrittenEvolves(s0, offset, Between(|dydt|, left, impulseLeft), Undetermined.Code(), left, impulseLeft);
    }
    AccelerationWritten(s0, s1, offset, dydt, signs, left, impulseLeft, th.flatlineSlopeRequirement, accel);
    warnings := [];
    if left != accel.left {
      warnings := SearchRemainder(dydt, ranks, signs, phases, filt, offset, th, left + offset, accel.left + 1 + offset,
                                  nextPhase, left, accel.left, left, impulseLeft);
      RemainderKeeps(s0, s1, phases[..], offset, left, impulseLeft, left + offset, accel.left + 1 + offset,
                     left, accel.left, accMask, Acceleration.Code());
    }
  }

  /**
   * Steps 5b and 6b of `_segment`: label [fillFrom, fillTo) with the next phase, then segment the
   * remainder [lo, hi) that the fill covers again, through the caller's filter buffer. The
   * remainder and the fill lie in the flank [flankLo, flankHi) being segmented.
   */
  method SearchRemainder(dydt: seq<real>, ranks: seq<int>, signs: seq<int>, phases: array<int>, filt: array<bool>,
                         offset: nat, th: Thresholds, fillFrom: nat, fillTo: nat, next: CurvePhase,
                         lo: nat, hi: nat, ghost flankLo: int, ghost flankHi: int)
    returns (warnings: seq<Warning>)
    requires SegmentInputs(dydt, ranks, signs, phases, filt, offset)
    requires lo < hi <= |dydt| && !(lo == 0 && hi == |dydt|)
    requires fillFrom <= offset + lo && offset + hi <= fillTo
    requires offset + flankLo <= fillFrom && fillTo <= offset + flankHi && 0 <= flankLo <= lo && hi <= flankHi <= |dydt|
    requires next != Multiple
    modifies phases, filt
    decreases hi - lo, 5
    ensures Evolved(old(phases[..]), phases[..], offset, flankLo, flankHi)
    // Outside the fill and the remainder a label stays or becomes Impulse.
    ensures forall k :: offset <= k < phases.Length - offset && !(fillFrom <= k < fillTo) ==>
      phases[k] == old(phases[k]) || phases[k] == Impulse.Code()
    ensures forall i :: 0 <= i < filt.Length && filt[i] ==> lo <= i < hi
    ensures OnlyNotHomogeneous(warnings)
  {
    ghost var s1 := phases[..];
    forall k | fillFrom <= k < fillTo {
      phases[k] := next.Code();
    }
    ghost var s2 := phases[..];
    assert s2 == Filled(s1, fillFrom, fillTo, next.Code());
    FilledEvolves(s1, fillFrom, fillTo, next.Code(), offset, flankLo, flankHi);
    var remainder := GetFilter(Some(lo), Some(hi), filt, |dydt|);
    assert Homogeneous(s2, offset + lo, offset + hi);
    var inner := Segment(dydt, ranks, signs, phases, filt, offset, Some(th), lo, hi);
    warnings := inner.warnings;
    EvolvedWiden(s2, phases[..], offset, flankLo, flankHi, lo, hi);
    EvolvedTransitive(s1, s2, phases[..], offset, flankLo, flankHi);
  }

  /**
   * Steps 6 and 6b of `_segment`: locate the retardation in [impulseRight, right); when it leaves
   * a remainder, fill [retard_right, right) with the next phase and segment it again, through
   * the caller's filter buffer.
   */
  method SegmentRightOfImpulse(dydt: seq<real>, ranks: seq<int>, signs: seq<int>, phases: array<int>,
                               filt: array<bool>, offset: nat, th: Thresholds, impulseRight: int, right: int)
    returns (warnings: seq<Warning>)
    requires SegmentInputs(dydt, ranks, signs, phases, filt, offset)
    requires 0 <= impulseRight <= right <= |dydt|
    modifies phases, filt
    decreases right - impulseRight, 0
    ensures Evolved(old(phases[..]), phases[..], offset, impulseRight, right)
    ensures forall i :: 0 <= i < filt.Length && filt[i] ==> old(filt[i]) || impulseRight <= i < right
    // The retardation run ends Retardation (or Impulse).
    ensures LabelledOrImpulse(phases[..], offset,
      RetardationMask(dydt, signs, impulseRight, right, th.flatlineSlopeRequirement), Retardation.Code())
    ensures OnlyNotHomogeneous(warnings)
  {
    ghost var s0 := phases[..];
    var retard, nextPhase := LocateRetardation(dydt, signs, phases, impulseRight, right, offset,
                                               th.flatlineSlopeRequirement);
    ghost var s1 := phases[..];
    ghost var runs := SlopeRuns(dydt, signs, impulseRight, right, th.flatlineSlopeRequirement, -1);
    ghost var retMask := RetardationMask(dydt, signs, impulseRight, right, th.flatlineSlopeRequirement);
    if RunCount(runs) > 0 {
      RetardationIsFirstRun(dydt, signs, impulseRight, right, th.flatlineSlopeRequirement, retard);
      WrittenEvolves(s0, offset, LabelIs(Label(runs), 1), Retardation.Code(), impulseRight, right);
    } else {
      WrittenEvolves(s0, offset, Between(|dydt|, impulseRight, right), Undetermined.Code(), impulseRight, right);
    }
    RetardationWritten(s0, s1, offset, dydt, signs, impulseRight, right, th.flatlineSlopeRequirement, retard);
    warnings := [];
    if right != retard.right {
      warnings := SearchRemainder(dydt, ranks, signs, phases, filt, offset, th, retard.right + offset, right + offset,
                                  nextPhase, retard.right, right, impulseRight, right);
      RemainderKeeps(s0, s1, phases[..], offset, impulseRight, right, retard.right + offset, right + offset,
                     retard.right, right, retMask, Retardation.Code());
    }
  }
}
