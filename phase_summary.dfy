/**
 * `_phenotype_phases` of curve_phase_phenotypes.py, on its discrete side: every run of every
 * phase in the final label array becomes one (phase, phenotypes) entry, enumerated phase by
 * phase in CurvePhases order and run by run from the left, and the entries are then sorted
 * stably on the run's start time, entries without phenotypes last (key 9999).
 */
module PhaseSummary {
  import opened Wrappers
  import opened Runs
  import opened CurvePhases

  /** The CurvePhasePhenotypes enumeration. */
  datatype PhasePhenotype =
    | PopulationDoublingTime | Duration | FractionYield | Start
    | LinearModelSlope | LinearModelIntercept | AsymptoteAngle | AsymptoteIntersection

  /** The phenotype dictionary of one phase run. */
  type Phenotypes = map<PhasePhenotype, real>

  /** One `(phase, phenotypes-or-None)` pair of the phase vector. */
  datatype PhaseEntry = PhaseEntry(phase: CurvePhase, phenotypes: Option<Phenotypes>)

  /** `phases == phase.value`. */
  function PhaseMask(phases: seq<int>, p: CurvePhase): (mask: seq<bool>)
    ensures |mask| == |phases|
    ensures forall i :: 0 <= i < |phases| ==> (mask[i] <==> phases[i] == p.Code())
  {
    seq(|phases|, i requires 0 <= i < |phases| => phases[i] == p.Code())
  }

  /** `_locate_segment(labels == c)`: the bounds of run c, a maximal run of the mask. */
  function RunSpan(mask: seq<bool>, c: nat): (sp: Span)
    requires 1 <= c <= RunCount(mask)
    ensures 0 <= sp.left < sp.right <= |mask|
    ensures IsRangeMask(LabelIs(Label(mask), c), sp.left, sp.right)
    ensures forall i :: sp.left <= i < sp.right ==> mask[i]
    ensures sp.left == 0 || !mask[sp.left - 1]
    ensures sp.right == |mask| || !mask[sp.right]
  {
    LabelRunCount(mask, c);
    var sp := LocateSegment(LabelIs(Label(mask), c)).span.value;
    LabelRunIsMaximal(mask, c, sp.left, sp.right);
    sp
  }

  /** Runs are numbered from the left: run c ends before run c + 1 begins. */
  lemma RunSpansOrdered(mask: seq<bool>, c: nat)
    requires 1 <= c < RunCount(mask)
    ensures RunSpan(mask, c).right <= RunSpan(mask, c + 1).left
  {
    var a, b := RunSpan(mask, c), RunSpan(mask, c + 1);
    var labels := Label(mask);
    var x, y := a.right - 1, b.left;
    assert LabelIs(labels, c)[x];
    assert LabelIs(labels, c + 1)[y];
    if y <= x {
      LabelMonotone(mask, y, x);
      assert false;
    }
  }

  /**
   * The phenotypes of a determined run that need no floating-point fitting: its duration and
   * its start time. The fitted and logarithmic phenotypes are not part of this model.
   */
  function RunPhenotypes(times: seq<real>, sp: Span): (ph: Phenotypes)
    requires 0 <= sp.left < sp.right <= |times|
    ensures Start in ph && ph[Start] == times[sp.left]
    ensures Duration in ph && ph[Duration] == times[sp.right - 1] - times[sp.left]
  {
    map[Duration := times[sp.right - 1] - times[sp.left], Start := times[sp.left]]
  }

  /** Undetermined and Multiple runs are listed without phenotypes. */
  predicate Measured(p: CurvePhase) {
    p != Undetermined && p != Multiple
  }

  /** The entry of run c of phase p: the phase, and for a determined phase its phenotypes. */
  function RunEntry(times: seq<real>, mask: seq<bool>, p: CurvePhase, c: nat): (e: PhaseEntry)
    requires |times| == |mask| && 1 <= c <= RunCount(mask)
    ensures e.phase == p && Keyed(e)
    ensures e.phenotypes.Some? <==> Measured(p)
    ensures Measured(p) ==> e.phenotypes.value[Start] == times[RunSpan(mask, c).left]
  {
    if Measured(p) then PhaseEntry(p, Some(RunPhenotypes(times, RunSpan(mask, c)))) else PhaseEntry(p, None)
  }

  /** The entries of the runs of phase p, from the left. */
  function RunEntries(phases: seq<int>, times: seq<real>, p: CurvePhase): (entries: seq<PhaseEntry>)
    requires |times| == |phases|
    ensures |entries| == RunCount(PhaseMask(phases, p)) && AllKeyed(entries)
    ensures forall k :: 0 <= k < |entries| ==> entries[k].phase == p
  {
    var mask := PhaseMask(phases, p);
    seq(RunCount(mask), k requires 0 <= k < RunCount(mask) => RunEntry(times, mask, p, k + 1))
  }

  /** The entries of every phase of `ps`, phase by phase. */
  function Enumerate(phases: seq<int>, times: seq<real>, ps: seq<CurvePhase>): (entries: seq<PhaseEntry>)
    requires |times| == |phases|
    ensures AllKeyed(entries)
  {
    if ps == [] then []
    else Enumerate(phases, times, ps[..|ps| - 1]) + RunEntries(phases, times, ps[|ps| - 1])
  }

  /**
   * The enumeration loop of `_phenotype_phases`: for each phase in CurvePhases order, the
   * entries of its runs are appended.
   */
  method CollectPhaseEntries(phases: seq<int>, times: seq<real>) returns (entries: seq<PhaseEntry>)
    requires |times| == |phases|
    ensures entries == Enumerate(phases, times, AllPhases)
  {
    entries := [];
    var i := 0;
    while i < |AllPhases|
      invariant 0 <= i <= |AllPhases|
      invariant entries == Enumerate(phases, times, AllPhases[..i])
    {
      var runEntries := CollectRunEntries(phases, times, AllPhases[i]);
      entries := entries + runEntries;
      assert AllPhases[..i + 1][..i] == AllPhases[..i];
      i := i + 1;
    }
    assert AllPhases[..i] == AllPhases;
  }

  /**
   * The inner loop of `_phenotype_phases` for one phase: label the runs of the phase and take
   * one entry per label 1, 2, ..., with the run's phenotypes unless the phase is Undetermined
   * or Multiple.
   */
  method CollectRunEntries(phases: seq<int>, times: seq<real>, p: CurvePhase) returns (entries: seq<PhaseEntry>)
    requires |times| == |phases|
    ensures entries == RunEntries(phases, times, p)
  {
    var mask := PhaseMask(phases, p);
    var count := RunCount(mask);
    entries := [];
    var c := 1;
    while c <= count
      invariant 1 <= c <= count + 1
      invariant entries == RunEntries(phases, times, p)[..c - 1]
    {
      if p == Undetermined || p == Multiple {
        entries := entries + [PhaseEntry(p, None)];
      } else {
        var span := RunSpan(mask, c);
        entries := entries + [PhaseEntry(p, Some(RunPhenotypes(times, span)))];
      }
      assert RunEntries(phases, times, p)[..c] == RunEntries(phases, times, p)[..c - 1] + [RunEntry(times, mask, p, c)];
      c := c + 1;
    }
    assert RunEntries(phases, times, p)[..c - 1] == RunEntries(phases, times, p);
  }

  // ---------------------------------------------------------------------------------------
  // The stable sort on start time
  // ---------------------------------------------------------------------------------------

  /** An entry the sort key can read: no phenotypes, or phenotypes with a Start. */
  predicate Keyed(e: PhaseEntry) {
    e.phenotypes.None? || Start in e.phenotypes.value
  }

  predicate AllKeyed(s: seq<PhaseEntry>) {
    forall i :: 0 <= i < |s| ==> Keyed(s[i])
  }

  /** The sort key: the Start phenotype, or 9999 for an entry without phenotypes. */
  function Key(e: PhaseEntry): real
    requires Keyed(e)
  {
    if e.phenotypes.None? then 9999.0 else e.phenotypes.value[Start]
  }

  predicate SortedByKey(s: seq<PhaseEntry>)
    requires AllKeyed(s)
  {
    forall i, j :: 0 <= i < j < |s| ==> Key(s[i]) <= Key(s[j])
  }

  /** Places e before the first entry whose key is not below e's. */
  function Insert(e: PhaseEntry, s: seq<PhaseEntry>): (r: seq<PhaseEntry>)
    requires Keyed(e) && AllKeyed(s)
    ensures AllKeyed(r) && |r| == |s| + 1
    ensures multiset(r) == multiset(s) + multiset{e}
  {
    if s == [] || Key(e) <= Key(s[0]) then [e] + s
    else
      var tail := Insert(e, s[1..]);
      assert s == [s[0]] + s[1..];
      [s[0]] + tail
  }

  /** `sorted(entries, key=...)`, Python's stable sort, as an insertion sort from the right. */
  function SortByStart(s: seq<PhaseEntry>): (r: seq<PhaseEntry>)
    requires AllKeyed(s)
    ensures AllKeyed(r) && |r| == |s|
    ensures multiset(r) == multiset(s)
  {
    if s == [] then []
    else
      assert s == [s[0]] + s[1..];
      Insert(s[0], SortByStart(s[1..]))
  }

  lemma {:induction false} InsertSorted(e: PhaseEntry, s: seq<PhaseEntry>)
    requires Keyed(e) && AllKeyed(s) && SortedByKey(s)
    ensures SortedByKey(Insert(e, s))
    ensures Insert(e, s)[0] == e || Insert(e, s)[0] == s[0]
  {
    if s != [] && Key(e) > Key(s[0]) {
      InsertSorted(e, s[1..]);
      var r := Insert(e, s);
      var tail := Insert(e, s[1..]);
      assert r == [s[0]] + tail;
      forall i, j | 0 <= i < j < |r| ensures Key(r[i]) <= Key(r[j]) {
        if i == 0 {
          if tail[j - 1] != e {
            assert tail[j - 1] in multiset(tail);
            assert tail[j - 1] in multiset(s[1..]);
            var k :| 0 <= k < |s[1..]| && s[1..][k] == tail[j - 1];
            assert s[k + 1] == tail[j - 1];
          }
        }
      }
    }
  }

  /** The entries come out in non-decreasing key order. */
  lemma {:induction false} SortByStartSorted(s: seq<PhaseEntry>)
    requires AllKeyed(s)
    ensures SortedByKey(SortByStart(s))
  {
    if s != [] {
      SortByStartSorted(s[1..]);
      InsertSorted(s[0], SortByStart(s[1..]));
    }
  }

  /** The entries whose key equals k, in order. */
  function WithKey(s: seq<PhaseEntry>, k: real): (r: seq<PhaseEntry>)
    requires AllKeyed(s)
    ensures AllKeyed(r)
  {
    if s == [] then []
    else (if Key(s[0]) == k then [s[0]] else []) + WithKey(s[1..], k)
  }

  lemma {:induction false} InsertStable(e: PhaseEntry, s: seq<PhaseEntry>, k: real)
    requires Keyed(e) && AllKeyed(s)
    ensures WithKey(Insert(e, s), k) == (if Key(e) == k then [e] else []) + WithKey(s, k)
  {
    var r := Insert(e, s);
    if s == [] || Key(e) <= Key(s[0]) {
      assert r == [e] + s;
      assert r[0] == e && r[1..] == s;
    } else {
      var tail := Insert(e, s[1..]);
      InsertStable(e, s[1..], k);
      assert r[0] == s[0] && r[1..] == tail;
      assert WithKey(r, k) == (if Key(s[0]) == k then [s[0]] else []) + WithKey(tail, k);
      assert WithKey(s, k) == (if Key(s[0]) == k then [s[0]] else []) + WithKey(s[1..], k);
    }
  }

  /** Stability: entries with equal keys keep their enumeration order. */
  lemma {:induction false} SortByStartStable(s: seq<PhaseEntry>, k: real)
    requires AllKeyed(s)
    ensures WithKey(SortByStart(s), k) == WithKey(s, k)
  {
    if s != [] {
      SortByStartStable(s[1..], k);
      InsertStable(s[0], SortByStart(s[1..]), k);
    }
  }

  // ---------------------------------------------------------------------------------------
  // The phase vector
  // ---------------------------------------------------------------------------------------

  /** The phase vector `_phenotype_phases` returns for the label array and the sample times. */
  function PhaseVector(phases: seq<int>, times: seq<real>): (entries: seq<PhaseEntry>)
    requires |times| == |phases|
    ensures AllKeyed(entries)
  {
    SortByStart(Enumerate(phases, times, AllPhases))
  }

  /** `_phenotype_phases`: the entries of every run, sorted on their start time. */
  method PhenotypePhases(phases: seq<int>, times: seq<real>) returns (entries: seq<PhaseEntry>)
    requires |times| == |phases|
    ensures entries == PhaseVector(phases, times)
  {
    var collected := CollectPhaseEntries(phases, times);
    entries := SortByStart(collected);
  }

  /** The number of entries of phase p. */
  function CountPhase(s: seq<PhaseEntry>, p: CurvePhase): nat {
    if s == [] then 0 else (if s[0].phase == p then 1 else 0) + CountPhase(s[1..], p)
  }

  lemma {:induction false} CountPhaseAppend(a: seq<PhaseEntry>, b: seq<PhaseEntry>, p: CurvePhase)
    ensures CountPhase(a + b, p) == CountPhase(a, p) + CountPhase(b, p)
  {
    if a == [] {
      assert a + b == b;
    } else {
      assert (a + b)[0] == a[0];
      assert (a + b)[1..] == a[1..] + b;
      CountPhaseAppend(a[1..], b, p);
    }
  }

  lemma {:induction false} CountPhaseInsert(e: PhaseEntry, s: seq<PhaseEntry>, p: CurvePhase)
    requires Keyed(e) && AllKeyed(s)
    ensures CountPhase(Insert(e, s), p) == CountPhase([e], p) + CountPhase(s, p)
  {
    if s != [] && Key(e) > Key(s[0]) {
      CountPhaseInsert(e, s[1..], p);
      assert Insert(e, s)[1..] == Insert(e, s[1..]);
    }
  }

  lemma {:induction false} CountPhaseSort(s: seq<PhaseEntry>, p: CurvePhase)
    requires AllKeyed(s)
    ensures CountPhase(SortByStart(s), p) == CountPhase(s, p)
  {
    if s != [] {
      CountPhaseSort(s[1..], p);
      CountPhaseInsert(s[0], SortByStart(s[1..]), p);
    }
  }

  lemma {:induction false} CountPhaseUniform(s: seq<PhaseEntry>, p: CurvePhase, q: CurvePhase)
    requires forall k :: 0 <= k < |s| ==> s[k].phase == p
    ensures CountPhase(s, q) == if p == q then |s| else 0
  {
    if s != [] {
      CountPhaseUniform(s[1..], p, q);
    }
  }

  lemma {:induction false} CountEnumerate(phases: seq<int>, times: seq<real>, ps: seq<CurvePhase>, q: CurvePhase)
    requires |times| == |phases|
    requires forall i, j :: 0 <= i < j < |ps| ==> ps[i] != ps[j]
    ensures CountPhase(Enumerate(phases, times, ps), q) == if q in ps then RunCount(PhaseMask(phases, q)) else 0
  {
    if ps != [] {
      var init, last := ps[..|ps| - 1], ps[|ps| - 1];
      CountEnumerate(phases, times, init, q);
      CountPhaseUniform(RunEntries(phases, times, last), last, q);
      CountPhaseAppend(Enumerate(phases, times, init), RunEntries(phases, times, last), q);
      assert ps == init + [last];
      if last == q {
        assert q !in init;
      } else {
        assert q in ps <==> q in init;
      }
    }
  }

  /** The phase vector holds exactly one entry per run of each phase. */
  lemma EntriesPerPhase(phases: seq<int>, times: seq<real>, p: CurvePhase)
    requires |times| == |phases|
    ensures CountPhase(PhaseVector(phases, times), p) == RunCount(PhaseMask(phases, p))
  {
    CountPhaseSort(Enumerate(phases, times, AllPhases), p);
    AllPhasesDistinct();
    CountEnumerate(phases, times, AllPhases, p);
  }

  /** The phase vector is a stable reordering of the enumeration by start time. */
  lemma PhaseVectorOrdered(phases: seq<int>, times: seq<real>)
    requires |times| == |phases|
    ensures var entries := PhaseVector(phases, times);
      SortedByKey(entries) &&
      multiset(entries) == multiset(Enumerate(phases, times, AllPhases)) &&
      forall k :: WithKey(entries, k) == WithKey(Enumerate(phases, times, AllPhases), k)
  {
    var s := Enumerate(phases, times, AllPhases);
    SortByStartSorted(s);
    forall k {
      SortByStartStable(s, k);
    }
  }
}
