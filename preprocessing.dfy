/**
 * The pure preprocessing of `phase_phenotypes` in curve_phase_phenotypes.py: the ranks
 * `dydt.argsort().argsort()`, the second-derivative signs from a 'valid' convolution with
 * [1, 0, -1] padded by a 0 at each end, and the peak finder `_filter_find`.
 */
module PhasePreprocessing {

  // ---------------------------------------------------------------------------------------
  // Ranks
  // ---------------------------------------------------------------------------------------

  /** The order a stable argsort puts indices in: by value, ties by position. */
  predicate Precedes(d: seq<real>, j: nat, i: nat)
    requires j < |d| && i < |d|
  {
    d[j] < d[i] || (d[j] == d[i] && j < i)
  }

  /** How many of the first k indices precede i. */
  function CountPreceding(d: seq<real>, i: nat, k: nat): nat
    requires i < |d| && k <= |d|
  {
    if k == 0 then 0
    else CountPreceding(d, i, k - 1) + (if Precedes(d, k - 1, i) then 1 else 0)
  }

  /** `dydt.argsort().argsort()`: the position each value takes in sorted order. */
  function Ranks(d: seq<real>): (r: seq<int>)
    ensures |r| == |d|
  {
    seq(|d|, i requires 0 <= i < |d| => CountPreceding(d, i, |d|))
  }

  /** No two positions share a rank. */
  ghost predicate Injective(r: seq<int>) {
    forall i, j :: 0 <= i < |r| && 0 <= j < |r| && i != j ==> r[i] != r[j]
  }

  lemma {:induction false} CountPrecedingBound(d: seq<real>, i: nat, k: nat)
    requires i < |d| && k <= |d|
    ensures CountPreceding(d, i, k) <= (if k > i then k - 1 else k)
  {
    if k > 0 {
      CountPrecedingBound(d, i, k - 1);
    }
  }

  /** Whatever precedes j also precedes i when j precedes i, and j itself is counted for i. */
  lemma {:induction false} CountPrecedingStrict(d: seq<real>, j: nat, i: nat, k: nat)
    requires j < |d| && i < |d| && k <= |d| && Precedes(d, j, i)
    ensures CountPreceding(d, j, k) + (if k > j then 1 else 0) <= CountPreceding(d, i, k)
  {
    if k > 0 {
      CountPrecedingStrict(d, j, i, k - 1);
    }
  }

  /** The ranks are a permutation of 0 .. |d|-1 that orders the values. */
  lemma RanksOrderValues(d: seq<real>)
    ensures forall i :: 0 <= i < |d| ==> 0 <= Ranks(d)[i] < |d|
    ensures Injective(Ranks(d))
    ensures forall i, j :: 0 <= i < |d| && 0 <= j < |d| && d[j] < d[i] ==> Ranks(d)[j] < Ranks(d)[i]
    ensures forall i, j :: 0 <= i < |d| && 0 <= j < |d| && Ranks(d)[j] < Ranks(d)[i] ==> d[j] <= d[i]
  {
    var r := Ranks(d);
    forall i | 0 <= i < |d| ensures 0 <= r[i] < |d| {
      CountPrecedingBound(d, i, |d|);
    }
    forall i, j | 0 <= i < |d| && 0 <= j < |d| && Precedes(d, j, i) ensures r[j] < r[i] {
      CountPrecedingStrict(d, j, i, |d|);
    }
  }

  // ---------------------------------------------------------------------------------------
  // Second-derivative signs
  // ---------------------------------------------------------------------------------------

  /** sum over t < n of a[c - t] * v[t]: one output of a full convolution at position c. */
  function ConvolveAt(a: seq<real>, v: seq<real>, c: int, n: nat): real
    requires n <= |v| && n <= c + 1 && c < |a|
  {
    if n == 0 then 0.0 else ConvolveAt(a, v, c, n - 1) + a[c - (n - 1)] * v[n - 1]
  }

  /** The 'valid' part of the convolution of a with v: the outputs where v overlaps a fully. */
  function ConvolveValid(a: seq<real>, v: seq<real>): (r: seq<real>)
    requires 1 <= |v| <= |a|
    ensures |r| == |a| - |v| + 1
  {
    seq(|a| - |v| + 1, k requires 0 <= k < |a| - |v| + 1 => ConvolveAt(a, v, k + |v| - 1, |v|))
  }

  /** numpy's sign of a real. */
  function Sign(x: real): (s: int)
    ensures s == -1 || s == 0 || s == 1
  {
    if x > 0.0 then 1 else if x < 0.0 then -1 else 0
  }

  /** `np.hstack(([0], np.sign(signal.convolve(dydt, [1, 0, -1], mode='valid')), [0]))`. */
  function Signs(d: seq<real>): (s: seq<int>)
    requires |d| >= 3
    ensures |s| == |d|
  {
    var dd := ConvolveValid(d, [1.0, 0.0, -1.0]);
    [0] + seq(|dd|, k requires 0 <= k < |dd| => Sign(dd[k])) + [0]
  }

  /** The signs are 0 at both ends and sign(d[j+1] - d[j-1]) in between. */
  lemma SignsCentralDifference(d: seq<real>)
    requires |d| >= 3
    ensures Signs(d)[0] == 0 && Signs(d)[|d| - 1] == 0
    ensures forall j :: 0 < j < |d| - 1 ==> Signs(d)[j] == Sign(d[j + 1] - d[j - 1])
  {
    var dd := ConvolveValid(d, [1.0, 0.0, -1.0]);
    forall k | 0 <= k < |dd| ensures dd[k] == d[k + 2] - d[k] {
      var kernel := [1.0, 0.0, -1.0];
      assert ConvolveAt(d, kernel, k + 2, 1) == d[k + 2];
      assert ConvolveAt(d, kernel, k + 2, 2) == d[k + 2];
      assert dd[k] == ConvolveAt(d, kernel, k + 2, 3);
    }
  }

  // ---------------------------------------------------------------------------------------
  // _filter_find
  // ---------------------------------------------------------------------------------------

  /** Some position is selected. */
  predicate AnySelected(filt: seq<bool>) {
    exists i :: 0 <= i < |filt| && filt[i]
  }

  /** `np.max(vector[filt])` over the first k positions. */
  function MaxSelected(v: seq<int>, filt: seq<bool>, k: nat): (m: int)
    requires |v| == |filt| && k <= |filt|
    requires exists i :: 0 <= i < k && filt[i]
    ensures exists i :: 0 <= i < k && filt[i] && v[i] == m
    ensures forall i :: 0 <= i < k && filt[i] ==> v[i] <= m
  {
    if exists i :: 0 <= i < k - 1 && filt[i] then
      var m := MaxSelected(v, filt, k - 1);
      if filt[k - 1] && v[k - 1] > m then v[k - 1] else m
    else
      v[k - 1]
  }

  /** `np.where((vector == x) & filt)[0]` restricted to the first k positions. */
  function WhereEqual(v: seq<int>, filt: seq<bool>, x: int, k: nat): (r: seq<nat>)
    requires |v| == |filt| && k <= |filt|
    ensures forall t :: 0 <= t < |r| ==> r[t] < k && filt[r[t]] && v[r[t]] == x
    ensures forall i :: 0 <= i < k && filt[i] && v[i] == x ==> i in r
  {
    if k == 0 then []
    else WhereEqual(v, filt, x, k - 1) + (if filt[k - 1] && v[k - 1] == x then [k - 1] else [])
  }

  /** `_filter_find(vector, filt)` with the default `np.max`. */
  function FilterFind(v: seq<int>, filt: seq<bool>): (r: seq<nat>)
    requires |v| == |filt| && AnySelected(filt)
    ensures |r| >= 1
  {
    WhereEqual(v, filt, MaxSelected(v, filt, |v|), |v|)
  }

  lemma {:induction false} WhereEqualNone(v: seq<int>, filt: seq<bool>, x: int, k: nat)
    requires |v| == |filt| && k <= |filt|
    requires forall i :: 0 <= i < k ==> !(filt[i] && v[i] == x)
    ensures WhereEqual(v, filt, x, k) == []
  {
    if k > 0 {
      WhereEqualNone(v, filt, x, k - 1);
    }
  }

  lemma {:induction false} WhereEqualInjective(v: seq<int>, filt: seq<bool>, x: int, k: nat, p: nat)
    requires |v| == |filt| && k <= |filt| && Injective(v)
    requires p < k && filt[p] && v[p] == x
    ensures WhereEqual(v, filt, x, k) == [p]
  {
    if k - 1 != p {
      WhereEqualInjective(v, filt, x, k - 1, p);
    } else {
      WhereEqualNone(v, filt, x, k - 1);
    }
  }

  /**
   * With pairwise distinct ranks, `_filter_find` returns exactly one index: a selected position
   * whose rank, and hence whose rate when the ranks order the rates, is the largest selected one.
   */
  lemma FilterFindPeak(v: seq<int>, filt: seq<bool>)
    requires |v| == |filt| && AnySelected(filt) && Injective(v)
    ensures |FilterFind(v, filt)| == 1
    ensures var p := FilterFind(v, filt)[0];
      p < |filt| && filt[p] && forall i :: 0 <= i < |filt| && filt[i] ==> v[i] <= v[p]
  {
    var m := MaxSelected(v, filt, |v|);
    var p :| 0 <= p < |v| && filt[p] && v[p] == m;
    WhereEqualInjective(v, filt, m, |v|, p);
  }

  /** The peak by rank is the peak by rate: no selected rate exceeds the rate at the peak. */
  lemma PeakHasMaximalRate(d: seq<real>, filt: seq<bool>)
    requires |d| == |filt| && AnySelected(filt)
    ensures Injective(Ranks(d))
    ensures var p := FilterFind(Ranks(d), filt)[0];
      p < |d| && filt[p] && forall i :: 0 <= i < |d| && filt[i] ==> d[i] <= d[p]
  {
    RanksOrderValues(d);
    FilterFindPeak(Ranks(d), filt);
  }
}
