/**
 * The array bookkeeping of src/analysis_grid_cell_dissection.py: the offset subtraction of
 * two 2-D arrays, the round kernel, the recipe lists, and the threshold and rectangle masks of
 * a `Blob`. Images are `array2<real>`; a numpy slice assignment becomes a `forall` statement.
 */
module CellDissection {
  import opened Wrappers

  // ---------------------------------------------------------------------------------------
  // Python slices
  // ---------------------------------------------------------------------------------------

  /** Python's normalisation of one slice bound against a length n: negative bounds count from the end, then clamp. */
  function SliceIndex(x: int, n: nat): (r: nat)
    ensures r <= n
    ensures 0 <= x <= n ==> r == x
    ensures x > n ==> r == n
    ensures x < -(n as int) ==> r == 0
    ensures -(n as int) <= x < 0 ==> r == x + n
  {
    if x < 0 then (if x + n < 0 then 0 else x + n)
    else if x > n then n
    else x
  }

  /** The number of elements `s[start:stop]` selects from a sequence of length n. */
  function SliceLength(start: int, stop: int, n: nat): (len: nat)
    ensures len <= n
    ensures 0 <= start <= stop <= n ==> len == stop - start
  {
    var lo := SliceIndex(start, n);
    var hi := SliceIndex(stop, n);
    if hi < lo then 0 else hi - lo
  }

  // ---------------------------------------------------------------------------------------
  // get_array_subtraction
  // ---------------------------------------------------------------------------------------

  /** The bounds `get_array_subtraction` computes in one dimension: `[targetLow:targetHigh]` of A1 and `[sourceLow:sourceHigh]` of A2. */
  datatype Bounds = Bounds(targetLow: int, targetHigh: int, sourceLow: int, sourceHigh: int)

  /**
   * The clipping of one dimension for A2 (length n2) placed at `offset` over A1 (length n1).
   * Both slices have the same extent, and a target index t pairs with the source index t - offset.
   */
  function ClipBounds(offset: int, n1: nat, n2: nat): (b: Bounds)
    ensures b.targetHigh - b.targetLow == b.sourceHigh - b.sourceLow
    ensures b.targetLow - b.sourceLow == offset
    ensures 0 <= b.targetLow && 0 <= b.sourceLow && b.targetHigh <= n1 && b.sourceHigh <= n2
  {
    var targetLow := if offset < 0 then 0 else offset;
    var sourceLow := if offset < 0 then -offset else 0;
    var high := offset + n2;
    if high > n1 then Bounds(targetLow, n1, sourceLow, n2 - (high - n1))
    else Bounds(targetLow, high, sourceLow, n2)
  }

  /** A2 placed at `offset` neither ends before A1 starts nor starts after A1 ends. */
  predicate Reaches(offset: int, n1: nat, n2: nat) {
    -(n2 as int) <= offset <= n1
  }

  /** When A2 reaches A1, both slices are literal ranges: no bound is negative and none is past its end. */
  lemma ClipBoundsLiteral(offset: int, n1: nat, n2: nat)
    requires Reaches(offset, n1, n2)
    ensures var b := ClipBounds(offset, n1, n2);
      b.targetLow <= b.targetHigh && b.sourceLow <= b.sourceHigh &&
      SliceIndex(b.targetLow, n1) == b.targetLow && SliceIndex(b.targetHigh, n1) == b.targetHigh &&
      SliceIndex(b.sourceLow, n2) == b.sourceLow && SliceIndex(b.sourceHigh, n2) == b.sourceHigh
  {
  }

  /**
   * `diff_array[...] -= A2[...]` as written, in one dimension: numpy raises a broadcast
   * ValueError unless the source extent equals the target extent or is 1.
   */
  predicate SubtractionRaisesAsWritten(offset: int, n1: nat, n2: nat) {
    var b := ClipBounds(offset, n1, n2);
    var target := SliceLength(b.targetLow, b.targetHigh, n1);
    var source := SliceLength(b.sourceLow, b.sourceHigh, n2);
    source != target && source != 1
  }

  /**
   * A 4-row A2 placed 5 rows down over a 3-row A1 misses it, yet the source bound 3 - 5 = -2
   * counts from the end of A2, selects 2 rows against an empty target, and the subtraction raises.
   */
  lemma SubtractionAsWrittenRaises()
    ensures !Reaches(5, 3, 4) && SubtractionRaisesAsWritten(5, 3, 4)
    ensures SliceLength(ClipBounds(5, 3, 4).targetLow, ClipBounds(5, 3, 4).targetHigh, 3) == 0
    ensures SliceLength(ClipBounds(5, 3, 4).sourceLow, ClipBounds(5, 3, 4).sourceHigh, 4) == 2
  {
  }

  /** Where A2 reaches A1 in one dimension, the subtraction as written never raises. */
  lemma SubtractionReachingNeverRaises(offset: int, n1: nat, n2: nat)
    requires Reaches(offset, n1, n2)
    ensures !SubtractionRaisesAsWritten(offset, n1, n2)
  {
    ClipBoundsLiteral(offset, n1, n2);
  }

  /** Cell (i, j) of A1 lies under A2 placed at `offset`. */
  predicate Covered(i: int, j: int, offset: (int, int), m0: nat, m1: nat) {
    0 <= i - offset.0 < m0 && 0 <= j - offset.1 < m1
  }

  /** The reference definition: A1 minus A2 placed with its corner at `offset`, A1 itself elsewhere. */
  function ShiftedDifference(a1: array2<real>, a2: array2<real>, offset: (int, int), i: nat, j: nat): real
    requires i < a1.Length0 && j < a1.Length1
    reads a1, a2
  {
    if Covered(i, j, offset, a2.Length0, a2.Length1) then a1[i, j] - a2[i - offset.0, j - offset.1]
    else a1[i, j]
  }

  /** The cells the clipped slices select are exactly the covered cells of A1. */
  lemma ClippedIsCovered(offset: int, n1: nat, n2: nat, t: int)
    requires 0 <= t < n1
    ensures var b := ClipBounds(offset, n1, n2);
      (Reaches(offset, n1, n2) && b.targetLow <= t < b.targetHigh) <==> 0 <= t - offset < n2
  {
  }

  /**
   * `get_array_subtraction(A1, A2, offset)` without an output buffer: a fresh copy of A1 with the
   * overlap reduced by A2. A2 that misses A1 in some dimension subtracts nothing.
   */
  method ArraySubtraction(a1: array2<real>, a2: array2<real>, offset: (int, int)) returns (diff: array2<real>)
    ensures fresh(diff)
    ensures diff.Length0 == a1.Length0 && diff.Length1 == a1.Length1
    ensures forall i, j :: 0 <= i < diff.Length0 && 0 <= j < diff.Length1 ==>
      diff[i, j] == ShiftedDifference(a1, a2, offset, i, j)
  {
    var rows := ClipBounds(offset.0, a1.Length0, a2.Length0);
    var cols := ClipBounds(offset.1, a1.Length1, a2.Length1);
    diff := new real[a1.Length0, a1.Length1]((i, j) reads a1 =>
      if 0 <= i < a1.Length0 && 0 <= j < a1.Length1 then a1[i, j] else 0.0);
    if Reaches(offset.0, a1.Length0, a2.Length0) && Reaches(offset.1, a1.Length1, a2.Length1) {
      forall i, j | rows.targetLow <= i < rows.targetHigh && cols.targetLow <= j < cols.targetHigh {
        diff[i, j] := diff[i, j] - a2[i - offset.0, j - offset.1];
      }
    }
    forall i, j | 0 <= i < diff.Length0 && 0 <= j < diff.Length1
      ensures diff[i, j] == ShiftedDifference(a1, a2, offset, i, j)
    {
      ClippedIsCovered(offset.0, a1.Length0, a2.Length0, i);
      ClippedIsCovered(offset.1, a1.Length1, a2.Length1, j);
    }
  }

  /**
   * `get_array_subtraction(A1, A2, offset, output)`: the overlap cells of `output` receive A1
   * minus A2; every other cell of `output`, and A1 and A2, keep their values.
   */
  method ArraySubtractionInto(a1: array2<real>, a2: array2<real>, offset: (int, int), output: array2<real>)
    requires output.Length0 == a1.Length0 && output.Length1 == a1.Length1
    modifies output
    ensures forall i, j :: 0 <= i < output.Length0 && 0 <= j < output.Length1 ==>
      output[i, j] == if Covered(i, j, offset, a2.Length0, a2.Length1)
                      then old(a1[i, j]) - old(a2[i - offset.0, j - offset.1])
                      else old(output[i, j])
  {
    var rows := ClipBounds(offset.0, a1.Length0, a2.Length0);
    var cols := ClipBounds(offset.1, a1.Length1, a2.Length1);
    if Reaches(offset.0, a1.Length0, a2.Length0) && Reaches(offset.1, a1.Length1, a2.Length1) {
      forall i, j | rows.targetLow <= i < rows.targetHigh && cols.targetLow <= j < cols.targetHigh {
        output[i, j] := a1[i, j] - a2[i - offset.0, j - offset.1];
      }
    }
    forall i, j | 0 <= i < output.Length0 && 0 <= j < output.Length1
      ensures (Covered(i, j, offset, a2.Length0, a2.Length1) <==>
               Reaches(offset.0, a1.Length0, a2.Length0) && Reaches(offset.1, a1.Length1, a2.Length1) &&
               rows.targetLow <= i < rows.targetHigh && cols.targetLow <= j < cols.targetHigh)
    {
      ClippedIsCovered(offset.0, a1.Length0, a2.Length0, i);
      ClippedIsCovered(offset.1, a1.Length1, a2.Length1, j);
    }
  }

  // ---------------------------------------------------------------------------------------
  // get_round_kernel (outline=False)
  // ---------------------------------------------------------------------------------------

  /** The point (y, x) lies within distance r of the origin. */
  predicate InDisc(y: int, x: int, r: nat) {
    x * x + y * y <= r * r
  }

  /**
   * Cell (i, j) of `get_round_kernel(r)` as written: `ogrid[-r:r, -r:r]` covers the offsets
   * -r .. r-1 only, written into rows and columns 1 .. 2r.
   */
  function KernelCellAsWritten(r: nat, i: int, j: int): real {
    if 1 <= i < 2 * r + 1 && 1 <= j < 2 * r + 1 && InDisc(i - 1 - r, j - 1 - r, r) then 1.0 else 0.0
  }

  /** `get_round_kernel(r)` as written: a (2r+3)-square array holding the lopsided disc. */
  method RoundKernelAsWritten(r: nat) returns (kernel: array2<real>)
    ensures fresh(kernel)
    ensures kernel.Length0 == 2 * r + 3 && kernel.Length1 == 2 * r + 3
    ensures forall i, j :: 0 <= i < kernel.Length0 && 0 <= j < kernel.Length1 ==>
      kernel[i, j] == KernelCellAsWritten(r, i, j)
  {
    kernel := new real[2 * r + 3, 2 * r + 3]((i, j) => 0.0);
    forall i, j | 1 <= i < 2 * r + 1 && 1 <= j < 2 * r + 1 && InDisc(i - 1 - r, j - 1 - r, r) {
      kernel[i, j] := 1.0;
    }
  }

  /**
   * With radius 1 the kernel as written holds the cell one row above the centre (2, 2) but not
   * the cell one row below it, although both lie at distance 1.
   */
  lemma RoundKernelAsWrittenLopsided()
    ensures KernelCellAsWritten(1, 1, 2) == 1.0
    ensures KernelCellAsWritten(1, 3, 2) == 0.0
    ensures InDisc(1 - 2, 0, 1) && InDisc(3 - 2, 0, 1)
  {
  }

  /** Cell (i, j) of the round kernel as intended: inside the disc of radius r about the centre (r+1, r+1). */
  function KernelCell(r: nat, i: int, j: int): (v: real)
    ensures v == 1.0 || v == 0.0
  {
    if InDisc(i - (r + 1), j - (r + 1), r) then 1.0 else 0.0
  }

  /** The intended kernel is symmetric about its centre row, its centre column and its diagonal, and its border is empty. */
  lemma KernelCellSymmetric(r: nat, i: int, j: int)
    ensures KernelCell(r, i, j) == KernelCell(r, 2 * r + 2 - i, j)
    ensures KernelCell(r, i, j) == KernelCell(r, i, 2 * r + 2 - j)
    ensures KernelCell(r, i, j) == KernelCell(r, j, i)
    ensures KernelCell(r, i, j) == 1.0 ==> 1 <= i <= 2 * r + 1 && 1 <= j <= 2 * r + 1
  {
    var y, x := i - (r + 1), j - (r + 1);
    assert (2 * r + 2 - i) - (r + 1) == -y;
    assert (2 * r + 2 - j) - (r + 1) == -x;
    if InDisc(y, x, r) {
      SquareBound(y, r);
      SquareBound(x, r);
    }
  }

  /** A number no further than r from zero is all a square no larger than r² can belong to. */
  lemma SquareBound(y: int, r: nat)
    ensures y * y <= r * r ==> -(r as int) <= y <= r
  {
    if y > r {
      SquareGrows(y, r);
    } else if y < -(r as int) {
      SquareGrows(-y, r);
    }
  }

  /** Squares grow past r² beyond r. */
  lemma SquareGrows(y: int, r: nat)
    requires y > r
    ensures y * y > r * r
  {
    assert y * y - r * y == y * (y - r) > 0;
    assert r * y - r * r == r * (y - r) >= 0;
  }

  /** `get_round_kernel(r)` as intended: `ogrid[-r:r+1, -r:r+1]` written into rows and columns 1 .. 2r+1. */
  method RoundKernel(r: nat) returns (kernel: array2<real>)
    ensures fresh(kernel)
    ensures kernel.Length0 == 2 * r + 3 && kernel.Length1 == 2 * r + 3
    ensures forall i, j :: 0 <= i < kernel.Length0 && 0 <= j < kernel.Length1 ==>
      kernel[i, j] == KernelCell(r, i, j)
  {
    kernel := new real[2 * r + 3, 2 * r + 3]((i, j) => 0.0);
    forall i, j | 1 <= i < 2 * r + 2 && 1 <= j < 2 * r + 2 && InDisc(i - (r + 1), j - (r + 1), r) {
      kernel[i, j] := 1.0;
    }
    forall i, j | 0 <= i < kernel.Length0 && 0 <= j < kernel.Length1
      ensures kernel[i, j] == KernelCell(r, i, j)
    {
      KernelCellSymmetric(r, i, j);
    }
  }

  // ---------------------------------------------------------------------------------------
  // Analysis recipes
  // ---------------------------------------------------------------------------------------

  /** `list.insert(pos, a)`'s position: negative positions count from the end, then clamp to the list. */
  function InsertIndex(pos: int, n: nat): (k: nat)
    ensures k <= n
  {
    SliceIndex(pos, n)
  }

  /** The list after `list.insert(pos, a)`: a at the insertion index, the others in their order around it. */
  function Inserted<T>(s: seq<T>, pos: int, a: T): (r: seq<T>)
    ensures |r| == |s| + 1
    ensures r[InsertIndex(pos, |s|)] == a
    ensures r[..InsertIndex(pos, |s|)] == s[..InsertIndex(pos, |s|)]
    ensures r[InsertIndex(pos, |s|) + 1..] == s[InsertIndex(pos, |s|)..]
    ensures multiset(r) == multiset(s) + multiset{a}
  {
    var k := InsertIndex(pos, |s|);
    assert s == s[..k] + s[k..];
    s[..k] + [a] + s[k..]
  }

  /** `list.insert(-1, a)` would put a before the last element; `add_anlysis` reserves -1 for appending instead. */
  lemma InsertMinusOneIsNotAppend<T>(s: seq<T>, a: T)
    requires |s| > 0
    ensures Inserted(s, -1, a) == s[..|s| - 1] + [a, s[|s| - 1]]
    ensures Inserted(s, -1, a)[|s|] == s[|s| - 1]
  {
    assert InsertIndex(-1, |s|) == |s| - 1;
    assert s[|s| - 1..] == [s[|s| - 1]];
  }

  /** `Analysis_Recipe_Abstraction`: an instruction with the ordered list of instructions it runs. */
  class Recipe {
    var analysisOrder: seq<Recipe>
    const parent: Recipe?
    const description: string

    /** `__init__(grid_cell, parent, description)`: the recipe lists itself, and a parent appends it to its own list. */
    constructor (parent: Recipe?, description: string)
      modifies parent
      ensures analysisOrder == [this] && this.parent == parent && this.description == description
      ensures parent != null ==> parent.analysisOrder == old(parent.analysisOrder) + [this]
    {
      this.parent := parent;
      this.description := description;
      analysisOrder := [];
      new;
      analysisOrder := [this];
      if parent != null {
        parent.AddAnalysis(this, -1);
      }
    }

    /** `Analysis_Recipe_Empty(grid_cell, parent)`: appended to the parent like any recipe, then its own list is emptied. */
    constructor Empty(parent: Recipe?)
      modifies parent
      ensures analysisOrder == [] && this.parent == parent && description == "Recipe"
      ensures parent != null ==> parent.analysisOrder == old(parent.analysisOrder) + [this]
    {
      this.parent := parent;
      description := "Recipe";
      analysisOrder := [];
      new;
      analysisOrder := [this];
      if parent != null {
        parent.AddAnalysis(this, -1);
      }
      analysisOrder := [];
    }

    /** `add_anlysis(a, pos)`: appends for pos == -1, otherwise `list.insert(pos, a)`. */
    method AddAnalysis(a: Recipe, pos: int)
      modifies this
      ensures pos == -1 ==> analysisOrder == old(analysisOrder) + [a]
      ensures pos != -1 ==> analysisOrder == Inserted(old(analysisOrder), pos, a)
    {
      if pos == -1 {
        analysisOrder := analysisOrder + [a];
      } else {
        analysisOrder := Inserted(analysisOrder, pos, a);
      }
    }
  }

  // ---------------------------------------------------------------------------------------
  // Blob: thresholds and masks
  // ---------------------------------------------------------------------------------------

  /** The detection test of `threshold_detect`: below the threshold for "inv", above it for any other logic. */
  predicate Detected(colorLogic: string, v: real, threshold: real) {
    if colorLogic == "inv" then v < threshold else v > threshold
  }

  /** Off the threshold itself, the "inv" and "norm" masks are complements; on it, neither detects. */
  lemma DetectedComplement(v: real, threshold: real)
    ensures v != threshold ==> (Detected("inv", v, threshold) <==> !Detected("norm", v, threshold))
    ensures !Detected("inv", threshold, threshold) && !Detected("norm", threshold, threshold)
  {
  }

  /** A corner pair `((r0, c0), (r1, c1))` of `set_blob_from_shape`. */
  datatype Rect = Rect(r0: int, c0: int, r1: int, c1: int)

  /** Cell (i, j) lies in `filter_array[r0:r1, c0:c1]` of an n0 x n1 array. */
  predicate InRect(rect: Rect, n0: nat, n1: nat, i: int, j: int) {
    SliceIndex(rect.r0, n0) <= i < SliceIndex(rect.r1, n0) &&
    SliceIndex(rect.c0, n1) <= j < SliceIndex(rect.c1, n1)
  }

  /** A rectangle whose corners lie within the array covers exactly [r0, r1) x [c0, c1). */
  lemma InRectInside(rect: Rect, n0: nat, n1: nat, i: int, j: int)
    requires 0 <= rect.r0 <= n0 && 0 <= rect.r1 <= n0 && 0 <= rect.c0 <= n1 && 0 <= rect.c1 <= n1
    ensures InRect(rect, n0, n1, i, j) <==> rect.r0 <= i < rect.r1 && rect.c0 <= j < rect.c1
  {
  }

  /** `Blob`: the image section, the mask of the detected colony, the threshold and the colour logic. */
  class Blob {
    const gridArray: array2<real>
    const filterArray: array2<real>
    var threshold: Option<real>
    var colorLogic: string

    /** The mask has the image's shape and is a different array. */
    predicate Valid()
      reads this
    {
      filterArray.Length0 == gridArray.Length0 && filterArray.Length1 == gridArray.Length1 &&
      filterArray != gridArray
    }

    /**
     * `Blob(..., run_detect=False, threshold, image_color_logic)`: its own copy of the image and an
     * empty mask the shape of the image.
     */
    constructor (gridArray: array2<real>, threshold: Option<real>, colorLogic: string)
      ensures Valid() && fresh(filterArray) && fresh(this.gridArray)
      ensures this.gridArray.Length0 == gridArray.Length0 && this.gridArray.Length1 == gridArray.Length1
      ensures forall i, j :: 0 <= i < gridArray.Length0 && 0 <= j < gridArray.Length1 ==>
        this.gridArray[i, j] == gridArray[i, j]
      ensures this.threshold == threshold && this.colorLogic == colorLogic
      ensures forall i, j :: 0 <= i < filterArray.Length0 && 0 <= j < filterArray.Length1 ==> filterArray[i, j] == 0.0
    {
      this.gridArray := new real[gridArray.Length0, gridArray.Length1]((i, j)
        reads gridArray requires 0 <= i < gridArray.Length0 && 0 <= j < gridArray.Length1 => gridArray[i, j]);
      filterArray := new real[gridArray.Length0, gridArray.Length1]((i, j) => 0.0);
      this.threshold := threshold;
      this.colorLogic := colorLogic;
    }

    /**
     * `set_threshold(threshold, relative)`: a relative threshold is added to the current one (false
     * where there is none and Python raises TypeError), an absolute one replaces it, and without
     * one the threshold becomes `otsu`, the Otsu threshold of the image's histogram.
     */
    method SetThreshold(threshold: Option<real>, relative: bool, otsu: real) returns (ok: bool)
      modifies this
      ensures ok <==> !(threshold.Some? && relative && old(this.threshold).None?)
      ensures threshold.Some? && relative && ok ==> this.threshold == Some(old(this.threshold).value + threshold.value)
      ensures threshold.Some? && !relative ==> this.threshold == threshold
      ensures threshold.None? ==> this.threshold == Some(otsu)
      ensures !ok ==> this.threshold == old(this.threshold)
      ensures colorLogic == old(colorLogic)
    {
      ok := true;
      if threshold.Some? {
        if relative {
          if this.threshold.None? {
            return false;
          }
          this.threshold := Some(this.threshold.value + threshold.value);
        } else {
          this.threshold := threshold;
        }
      } else {
        this.threshold := Some(otsu);
      }
    }

    /**
     * `threshold_detect(im, threshold, color_logic)`: without a current threshold, or with an
     * explicit one, the threshold is set first; the mask is then cleared and set to 1 exactly
     * where the image (`im`, or the blob's own image) passes the detection test. An `im` that is
     * the mask itself reads as zeros, since the mask is cleared first.
     */
    method ThresholdDetect(im: array2?<real>, threshold: Option<real>, colorLogic: Option<string>, otsu: real)
      requires Valid()
      requires im != null ==> im.Length0 == filterArray.Length0 && im.Length1 == filterArray.Length1
      modifies this, filterArray
      ensures Valid() && this.colorLogic == old(this.colorLogic)
      ensures this.threshold == if threshold.Some? then threshold
                                else if old(this.threshold).None? then Some(otsu)
                                else old(this.threshold)
      ensures forall i, j :: 0 <= i < filterArray.Length0 && 0 <= j < filterArray.Length1 ==>
        filterArray[i, j] ==
          var source := if im == null then gridArray else im;
          var v := if source == filterArray then 0.0 else old(source[i, j]);
          if Detected(if colorLogic.Some? then colorLogic.value else this.colorLogic, v, this.threshold.value)
          then 1.0 else 0.0
    {
      if this.threshold.None? || threshold.Some? {
        var _ := SetThreshold(threshold, false, otsu);
      }
      var source := if im == null then gridArray else im;
      var logic := if colorLogic.Some? then colorLogic.value else this.colorLogic;
      var t := this.threshold.value;
      forall i, j | 0 <= i < filterArray.Length0 && 0 <= j < filterArray.Length1 {
        filterArray[i, j] := 0.0;
      }
      forall i, j | 0 <= i < filterArray.Length0 && 0 <= j < filterArray.Length1 && Detected(logic, source[i, j], t) {
        filterArray[i, j] := 1.0;
      }
    }

    /** `set_blob_from_shape(rect=...)`: the mask is cleared and set to 1 exactly on the rectangle's slices; without a rectangle it stays clear. */
    method SetBlobFromShape(rect: Option<Rect>)
      requires Valid()
      modifies filterArray
      ensures forall i, j :: 0 <= i < filterArray.Length0 && 0 <= j < filterArray.Length1 ==>
        filterArray[i, j] == if rect.Some? && InRect(rect.value, filterArray.Length0, filterArray.Length1, i, j) then 1.0 else 0.0
    {
      forall i, j | 0 <= i < filterArray.Length0 && 0 <= j < filterArray.Length1 {
        filterArray[i, j] := 0.0;
      }
      if rect.Some? {
        var r := rect.value;
        var top, bottom := SliceIndex(r.r0, filterArray.Length0), SliceIndex(r.r1, filterArray.Length0);
        var left, right := SliceIndex(r.c0, filterArray.Length1), SliceIndex(r.c1, filterArray.Length1);
        forall i, j | top <= i < bottom && left <= j < right {
          filterArray[i, j] := 1.0;
        }
      }
    }
  }
}
