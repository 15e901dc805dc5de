/**
 * Runs of True values in a 1-D boolean mask: the labelling that scipy.ndimage.label
 * performs on one-dimensional input, the width-3 median filter of scipy.signal.medfilt,
 * and the segment locator `_locate_segment` of curve_phase_phenotypes.py, which all
 * other parts of the phase segmentation use as their address primitive.
 */
module Runs {
  import opened Wrappers

  /** A half-open index range [left, right). */
  datatype Span = Span(left: int, right: int)

  /** The one warning `_locate_segment` emits: the mask holds `segments` > 1 runs. */
  datatype Located = Located(span: Option<Span>, notHomogeneous: Option<nat>)

  /** Position i starts a run: it is True and its left neighbour is False or absent. */
  predicate IsRunStart(mask: seq<bool>, i: nat)
    requires i < |mask|
  {
    mask[i] && (i == 0 || !mask[i - 1])
  }

  /** The number of run starts among the first k positions. */
  function RunStarts(mask: seq<bool>, k: nat): nat
    requires k <= |mask|
  {
    if k == 0 then 0
    else RunStarts(mask, k - 1) + (if IsRunStart(mask, k - 1) then 1 else 0)
  }

  /** The number of runs, the `label_count` that scipy's `label` returns. */
  function RunCount(mask: seq<bool>): nat {
    RunStarts(mask, |mask|)
  }

  /** The mask is True exactly on [lo, hi). */
  ghost predicate IsRangeMask(mask: seq<bool>, lo: int, hi: int) {
    0 <= lo <= hi <= |mask| &&
    forall i :: 0 <= i < |mask| ==> (mask[i] <==> lo <= i < hi)
  }

  /**
   * scipy.ndimage.label on one dimension: 0 outside the runs, and inside a run the number
   * of runs that start at or before it, so runs are numbered 1, 2, ... from the left.
   */
  function Label(mask: seq<bool>): (labels: seq<nat>)
    ensures |labels| == |mask|
    ensures forall i :: 0 <= i < |mask| ==> (labels[i] == 0 <==> !mask[i])
    ensures forall i :: 0 <= i < |mask| ==> labels[i] <= RunCount(mask)
  {
    LabelBounds(mask);
    seq(|mask|, i requires 0 <= i < |mask| => if mask[i] then RunStarts(mask, i + 1) else 0)
  }

  /** The mask of the positions that carry a non-zero label. */
  function Nonzero(labels: seq<nat>): (mask: seq<bool>)
    ensures |mask| == |labels|
    ensures forall i :: 0 <= i < |labels| ==> (mask[i] <==> labels[i] != 0)
  {
    seq(|labels|, i requires 0 <= i < |labels| => labels[i] != 0)
  }

  /** The mask of the positions that carry label c. */
  function LabelIs(labels: seq<nat>, c: nat): (mask: seq<bool>)
    ensures |mask| == |labels|
    ensures forall i :: 0 <= i < |labels| ==> (mask[i] <==> labels[i] == c)
  {
    seq(|labels|, i requires 0 <= i < |labels| => labels[i] == c)
  }

  /** The mask value at i, with positions outside the mask counted as False (zero padding). */
  function At(mask: seq<bool>, i: int): bool {
    0 <= i < |mask| && mask[i]
  }

  /**
   * scipy.signal.medfilt(mask, 3) on a boolean mask: position i is True when at least two of
   * positions i-1, i, i+1 are True, out-of-range positions counting as False.
   */
  function MedFilt3(mask: seq<bool>): (r: seq<bool>)
    ensures |r| == |mask|
  {
    seq(|mask|, i requires 0 <= i < |mask| =>
      (if At(mask, i - 1) then 1 else 0) + (if mask[i] then 1 else 0) + (if At(mask, i + 1) then 1 else 0) >= 2)
  }

  /** The first True position at or after `from`. */
  function FirstTrue(mask: seq<bool>, from: nat): (i: nat)
    requires from <= |mask|
    requires exists j :: from <= j < |mask| && mask[j]
    ensures from <= i < |mask| && mask[i]
    ensures forall j :: from <= j < i ==> !mask[j]
    decreases |mask| - from
  {
    if mask[from] then from else FirstTrue(mask, from + 1)
  }

  /** The last True position strictly before `upto`. */
  function LastTrue(mask: seq<bool>, upto: nat): (i: nat)
    requires upto <= |mask|
    requires exists j :: 0 <= j < upto && mask[j]
    ensures i < upto && mask[i]
    ensures forall j :: i < j < upto ==> !mask[j]
  {
    if mask[upto - 1] then upto - 1 else LastTrue(mask, upto - 1)
  }

  /**
   * `_locate_segment`: the bounds (first, last + 1) of the True run when the mask holds exactly
   * one run; no bounds for zero runs, and no bounds plus a "not homogeneous" warning for more.
   */
  function LocateSegment(mask: seq<bool>): (r: Located)
    ensures r.span.Some? <==> RunCount(mask) == 1
    ensures r.span.Some? ==>
      r.span.value.left < r.span.value.right && IsRangeMask(mask, r.span.value.left, r.span.value.right)
    ensures r.notHomogeneous == if RunCount(mask) > 1 then Some(RunCount(mask)) else None
  {
    var n := RunCount(mask);
    if n == 1 then
      var labels := Label(mask);
      var ones := LabelIs(labels, 1);
      LabelIsRange(mask, 1);
      var first := FirstTrue(ones, 0);
      var last := LastTrue(ones, |ones|);
      Located(Some(Span(first, last + 1)), None)
    else if n > 1 then
      Located(None, Some(n))
    else
      Located(None, None)
  }

  // ---------------------------------------------------------------------------------------
  // Lemmas about runs and labels
  // ---------------------------------------------------------------------------------------

  lemma {:induction false} RunStartsMonotone(mask: seq<bool>, j: nat, k: nat)
    requires j <= k <= |mask|
    ensures RunStarts(mask, j) <= RunStarts(mask, k)
    decreases k - j
  {
    if j < k {
      RunStartsMonotone(mask, j, k - 1);
    }
  }

  /** Labels never decrease from left to right across True positions. */
  lemma LabelMonotone(mask: seq<bool>, i: nat, j: nat)
    requires i <= j < |mask| && mask[i] && mask[j]
    ensures Label(mask)[i] <= Label(mask)[j]
  {
    RunStartsMonotone(mask, i + 1, j + 1);
  }

  /** Every True position lies in a run that has started: its label is at least 1. */
  lemma {:induction false} TrueHasStart(mask: seq<bool>, i: nat)
    requires i < |mask| && mask[i]
    ensures RunStarts(mask, i + 1) >= 1
  {
    if !IsRunStart(mask, i) {
      TrueHasStart(mask, i - 1);
    }
  }

  lemma LabelBounds(mask: seq<bool>)
    ensures forall i :: 0 <= i < |mask| && mask[i] ==>
      1 <= RunStarts(mask, i + 1) <= RunStarts(mask, |mask|)
  {
    forall i | 0 <= i < |mask| && mask[i]
      ensures 1 <= RunStarts(mask, i + 1) <= RunStarts(mask, |mask|)
    {
      TrueHasStart(mask, i);
      RunStartsMonotone(mask, i + 1, |mask|);
    }
  }

  /** A False position followed later by a True one means a new run has started in between. */
  lemma {:induction false} GapStartsRun(mask: seq<bool>, k: nat, j: nat)
    requires k < j < |mask| && !mask[k] && mask[j]
    ensures RunStarts(mask, j + 1) >= RunStarts(mask, k + 1) + 1
  {
    if IsRunStart(mask, j) {
      RunStartsMonotone(mask, k + 1, j);
    } else {
      GapStartsRun(mask, k, j - 1);
    }
  }

  /** For 1 <= c <= RunCount(mask), some position carries label c. */
  lemma {:induction false} LabelExists(mask: seq<bool>, c: nat, k: nat)
    requires 1 <= c && k <= |mask| && c <= RunStarts(mask, k)
    ensures exists i :: 0 <= i < k && mask[i] && RunStarts(mask, i + 1) == c
  {
    if RunStarts(mask, k - 1) >= c {
      LabelExists(mask, c, k - 1);
    } else {
      assert mask[k - 1] && RunStarts(mask, k) == c;
    }
  }

  /** Positions that carry the same label c are contiguous. */
  lemma LabelConvex(mask: seq<bool>, c: nat, i: nat, k: nat, j: nat)
    requires i < k < j < |mask|
    requires Label(mask)[i] == c && Label(mask)[j] == c && c != 0
    ensures Label(mask)[k] == c
  {
    var labels := Label(mask);
    if !mask[k] {
      GapStartsRun(mask, k, j);
      RunStartsMonotone(mask, i + 1, k + 1);
      assert false;
    }
    RunStartsMonotone(mask, i + 1, k + 1);
    RunStartsMonotone(mask, k + 1, j + 1);
  }

  /** Where the first and last True positions of a range mask are. */
  lemma RangeMaskEnds(mask: seq<bool>, lo: int, hi: int)
    requires IsRangeMask(mask, lo, hi) && lo < hi
    ensures (exists j :: 0 <= j < |mask| && mask[j])
    ensures FirstTrue(mask, 0) == lo && LastTrue(mask, |mask|) == hi - 1
  {
    assert mask[lo];
    var f := FirstTrue(mask, 0);
    assert lo <= f;
    var l := LastTrue(mask, |mask|);
    assert mask[hi - 1];
    assert l < hi;
  }

  /** A non-empty mask without gaps is True exactly from its first to its last True position. */
  lemma ConvexIsRange(ones: seq<bool>)
    requires exists j :: 0 <= j < |ones| && ones[j]
    requires forall i, k, j :: 0 <= i < k < j < |ones| && ones[i] && ones[j] ==> ones[k]
    ensures FirstTrue(ones, 0) <= LastTrue(ones, |ones|)
    ensures IsRangeMask(ones, FirstTrue(ones, 0), LastTrue(ones, |ones|) + 1)
  {
    var a := FirstTrue(ones, 0);
    var b := LastTrue(ones, |ones|) + 1;
    assert a < b;
    forall i | a < i < b - 1 ensures ones[i] {
      assert ones[a] && ones[b - 1];
    }
  }

  /** The positions labelled c, for 1 <= c <= RunCount(mask), form one non-empty range. */
  lemma LabelIsRange(mask: seq<bool>, c: nat)
    requires 1 <= c <= RunCount(mask)
    ensures var ones := LabelIs(Label(mask), c);
      (exists j :: 0 <= j < |ones| && ones[j]) &&
      FirstTrue(ones, 0) <= LastTrue(ones, |ones|) &&
      IsRangeMask(ones, FirstTrue(ones, 0), LastTrue(ones, |ones|) + 1)
  {
    var labels := Label(mask);
    var ones := LabelIs(labels, c);
    assert exists j :: 0 <= j < |ones| && ones[j] by {
      LabelExists(mask, c, |mask|);
      var w :| 0 <= w < |mask| && mask[w] && RunStarts(mask, w + 1) == c;
      assert labels[w] == c;
      assert ones[w];
    }
    forall i, k, j | 0 <= i < k < j < |ones| && ones[i] && ones[j] ensures ones[k] {
      LabelConvex(mask, c, i, k, j);
    }
    ConvexIsRange(ones);
  }

  /** A labelled range is a maximal run: True inside, False or absent just outside. */
  lemma LabelRunIsMaximal(mask: seq<bool>, c: nat, a: nat, b: nat)
    requires c != 0 && a < b <= |mask|
    requires IsRangeMask(LabelIs(Label(mask), c), a, b)
    ensures forall i :: a <= i < b ==> mask[i]
    ensures a == 0 || !mask[a - 1]
    ensures b == |mask| || !mask[b]
  {
    var labels := Label(mask);
    assert labels[a] == c && labels[b - 1] == c;
    if a > 0 && mask[a - 1] {
      assert false;
    }
    if b < |mask| && mask[b] {
      assert false;
    }
  }

  /** A mask that is exactly one non-empty range holds exactly one run. */
  lemma {:induction false} RangeMaskStarts(mask: seq<bool>, lo: int, hi: int, k: nat)
    requires IsRangeMask(mask, lo, hi) && lo < hi && k <= |mask|
    ensures RunStarts(mask, k) == if k > lo then 1 else 0
  {
    if k > 0 {
      RangeMaskStarts(mask, lo, hi, k - 1);
    }
  }

  lemma RangeMaskOneRun(mask: seq<bool>, lo: int, hi: int)
    requires IsRangeMask(mask, lo, hi) && lo < hi
    ensures RunCount(mask) == 1
    ensures LocateSegment(mask).span == Some(Span(lo, hi))
  {
    RangeMaskStarts(mask, lo, hi, |mask|);
    var ones := LabelIs(Label(mask), 1);
    forall i | 0 <= i < |mask| ensures ones[i] == mask[i] {
      if mask[i] {
        RangeMaskStarts(mask, lo, hi, i + 1);
      }
    }
    assert ones == mask;
    RangeMaskEnds(mask, lo, hi);
  }

  /** A mask with no True position holds no run. */
  lemma {:induction false} NoTrueNoRun(mask: seq<bool>, k: nat)
    requires k <= |mask| && forall i :: 0 <= i < |mask| ==> !mask[i]
    ensures RunStarts(mask, k) == 0
  {
    if k > 0 {
      NoTrueNoRun(mask, k - 1);
    }
  }

  /** RunCount is zero exactly when the mask has no True position. */
  lemma RunCountZero(mask: seq<bool>)
    ensures RunCount(mask) == 0 <==> forall i :: 0 <= i < |mask| ==> !mask[i]
  {
    if forall i :: 0 <= i < |mask| ==> !mask[i] {
      NoTrueNoRun(mask, |mask|);
    } else {
      var i :| 0 <= i < |mask| && mask[i];
      LabelBounds(mask);
    }
  }

  /** Labelling the labels again finds the same runs: label(labels) sees the original mask. */
  lemma NonzeroLabel(mask: seq<bool>)
    ensures Nonzero(Label(mask)) == mask
  {
  }

  /** The median filter never reaches outside a window that contains every True position. */
  lemma MedFiltWithin(mask: seq<bool>, lo: int, hi: int)
    requires forall i :: 0 <= i < |mask| && mask[i] ==> lo <= i < hi
    ensures forall i :: 0 <= i < |mask| && MedFilt3(mask)[i] ==> lo <= i < hi
  {
  }

  /** A True position survives the median filter exactly when one of its neighbours is True. */
  lemma MedFiltKeeps(mask: seq<bool>, i: nat)
    requires i < |mask| && mask[i]
    ensures MedFilt3(mask)[i] <==> At(mask, i - 1) || At(mask, i + 1)
  {
  }

  /** The run labelled RunCount(mask) is the rightmost one: nothing is True after it. */
  lemma LastLabelIsRightmost(mask: seq<bool>, a: int, b: int)
    requires RunCount(mask) >= 1
    requires IsRangeMask(LabelIs(Label(mask), RunCount(mask)), a, b) && a < b
    ensures forall i :: b <= i < |mask| ==> !mask[i]
  {
    var labels := Label(mask);
    forall i | b <= i < |mask| && mask[i] ensures false {
      assert labels[b - 1] == RunCount(mask);
      RunStartsMonotone(mask, b, i + 1);
    }
  }

  /** The run labelled 1 is the leftmost one: nothing is True before it. */
  lemma FirstLabelIsLeftmost(mask: seq<bool>, a: int, b: int)
    requires RunCount(mask) >= 1
    requires IsRangeMask(LabelIs(Label(mask), 1), a, b) && a < b
    ensures forall i :: 0 <= i < a ==> !mask[i]
  {
    var labels := Label(mask);
    forall i | 0 <= i < a && mask[i] ensures false {
      assert labels[a] == 1;
      RunStartsMonotone(mask, i + 1, a + 1);
    }
  }

  /** The positions that carry one existing label form a mask with exactly one run. */
  lemma LabelRunCount(mask: seq<bool>, c: nat)
    requires 1 <= c <= RunCount(mask)
    ensures RunCount(LabelIs(Label(mask), c)) == 1
  {
    var ones := LabelIs(Label(mask), c);
    LabelIsRange(mask, c);
    RangeMaskOneRun(ones, FirstTrue(ones, 0), LastTrue(ones, |ones|) + 1);
  }
}
