/**
 * The meta-phenotype layer of curve_phase_phenotypes.py over phase vectors:
 * `phase_selector_critera_filter`, the per-position filter of `filter_plate_custom_filter`
 * and `_impulse_counter`.
 */
module MetaPhenotypes {
  import opened Wrappers
  import opened Runs
  import opened CurvePhases
  import opened PhaseSummary

  // ---------------------------------------------------------------------------------------
  // phase_selector_critera_filter
  // ---------------------------------------------------------------------------------------

  /** Every phase holds the criteria value (otherwise Python raises KeyError). */
  predicate AllHave(phases: seq<Phenotypes>, criteria: PhasePhenotype) {
    forall i :: 0 <= i < |phases| ==> criteria in phases[i]
  }

  /** `phase[criteria] for phase in phases`. */
  function CriteriaValues(phases: seq<Phenotypes>, criteria: PhasePhenotype): (vals: seq<real>)
    requires AllHave(phases, criteria)
    ensures |vals| == |phases|
    ensures forall i :: 0 <= i < |phases| ==> vals[i] == phases[i][criteria]
  {
    seq(|phases|, i requires 0 <= i < |phases| => phases[i][criteria])
  }

  /** The index of the first phase whose criteria value is v, if any. */
  function FirstWith(phases: seq<Phenotypes>, criteria: PhasePhenotype, v: real, from: nat): (r: Option<nat>)
    requires AllHave(phases, criteria) && from <= |phases|
    ensures r.Some? ==> from <= r.value < |phases| && phases[r.value][criteria] == v
    ensures r.Some? ==> forall j :: from <= j < r.value ==> phases[j][criteria] != v
    ensures r.None? ==> forall j :: from <= j < |phases| ==> phases[j][criteria] != v
    decreases |phases| - from
  {
    if from == |phases| then None
    else if phases[from][criteria] == v then Some(from)
    else FirstWith(phases, criteria, v, from + 1)
  }

  /**
   * `phase_selector_critera_filter(phases, criteria, func)`: the first phase whose criteria value
   * equals `func` of all criteria values. None where Python raises: a phase lacks the criteria
   * (KeyError), `func` raises (its None), or no value equals the aggregate (IndexError).
   */
  function SelectByCriteria(phases: seq<Phenotypes>, criteria: PhasePhenotype,
                            func: seq<real> -> Option<real>): (r: Option<Phenotypes>)
    ensures r.Some? ==> AllHave(phases, criteria) && func(CriteriaValues(phases, criteria)).Some?
    ensures r.Some? ==>
      exists i :: (0 <= i < |phases| && r.value == phases[i] &&
                   phases[i][criteria] == func(CriteriaValues(phases, criteria)).value &&
                   forall j :: 0 <= j < i ==> phases[j][criteria] != phases[i][criteria])
  {
    if !AllHave(phases, criteria) then None
    else
      match func(CriteriaValues(phases, criteria))
      case None => None
      case Some(v) =>
        match FirstWith(phases, criteria, v, 0)
        case None => None
        case Some(i) => Some(phases[i])
  }

  /** Python's `max` over a sequence of numbers; None (ValueError) when it is empty. */
  function Max(vals: seq<real>): (m: Option<real>)
    ensures m.Some? <==> |vals| > 0
    ensures m.Some? ==> m.value in vals && forall i :: 0 <= i < |vals| ==> vals[i] <= m.value
  {
    if |vals| == 0 then None
    else
      var rest := Max(vals[1..]);
      if rest.None? || vals[0] >= rest.value then Some(vals[0])
      else
        assert forall i :: 1 <= i < |vals| ==> vals[i] == vals[1..][i - 1];
        rest
  }

  /**
   * With the default `func=max`, a non-empty tuple of phases that all hold the criteria yields
   * the first phase with the largest criteria value.
   */
  lemma {:induction false} SelectByMaxIsFirstMaximal(phases: seq<Phenotypes>, criteria: PhasePhenotype)
    requires |phases| > 0 && AllHave(phases, criteria)
    ensures var r := SelectByCriteria(phases, criteria, Max);
      r.Some? &&
      exists i :: 0 <= i < |phases| && r.value == phases[i] &&
        (forall j :: 0 <= j < |phases| ==> phases[j][criteria] <= phases[i][criteria]) &&
        (forall j :: 0 <= j < i ==> phases[j][criteria] < phases[i][criteria])
  {
    var vals := CriteriaValues(phases, criteria);
    var m := Max(vals);
    var k :| 0 <= k < |vals| && vals[k] == m.value;
    var found := FirstWith(phases, criteria, m.value, 0);
    assert found.Some?;
    var i := found.value;
    assert forall j :: 0 <= j < |phases| ==> phases[j][criteria] <= phases[i][criteria] by {
      assert forall j :: 0 <= j < |phases| ==> vals[j] <= m.value;
    }
  }

  // ---------------------------------------------------------------------------------------
  // filter_plate_custom_filter
  // ---------------------------------------------------------------------------------------

  /** `tuple(d for t, d in v if t == phase)`: the phenotypes of the entries of one phase, in order. */
  function OfPhase(v: seq<PhaseEntry>, phase: CurvePhase): (ds: seq<Option<Phenotypes>>)
    ensures |ds| == CountPhase(v, phase)
  {
    if v == [] then []
    else (if v[0].phase == phase then [v[0].phenotypes] else []) + OfPhase(v[1..], phase)
  }

  /** What the per-position function `f` yields: a measure, NaN, or an exception. */
  datatype CellValue = Measured(value: real) | NotANumber | Fails

  /**
   * The per-position function `f`: when the entries of the phase meet the requirement, the
   * measure of the phenotypes the selector picks (Fails for a missing dictionary, which the
   * selector's None stands for, or a missing key); NaN otherwise.
   */
  function CustomFilterCell(v: seq<PhaseEntry>, phase: CurvePhase, measure: PhasePhenotype,
                            requirement: seq<Option<Phenotypes>> -> bool,
                            selector: seq<Option<Phenotypes>> -> Option<Phenotypes>): (cell: CellValue)
    ensures cell.NotANumber? <==> !requirement(OfPhase(v, phase))
    ensures cell.Measured? <==>
      requirement(OfPhase(v, phase)) && selector(OfPhase(v, phase)).Some? &&
      measure in selector(OfPhase(v, phase)).value
    ensures cell.Measured? ==> cell.value == selector(OfPhase(v, phase)).value[measure]
  {
    var ds := OfPhase(v, phase);
    if !requirement(ds) then NotANumber
    else
      match selector(ds)
      case None => Fails
      case Some(d) => if measure in d then Measured(d[measure]) else Fails
  }

  /** The default requirement `len(phases) == 1`. */
  function ExactlyOne(ds: seq<Option<Phenotypes>>): bool {
    |ds| == 1
  }

  /** The default selector `phases[0]`: None for an empty tuple (IndexError) or a None entry. */
  function FirstPhase(ds: seq<Option<Phenotypes>>): Option<Phenotypes> {
    if |ds| == 0 then None else ds[0]
  }

  /**
   * With the defaults, a position yields the measure exactly when it holds one entry of the
   * phase, with phenotypes that include the measure; NaN when it holds none or several.
   */
  lemma DefaultCustomFilter(v: seq<PhaseEntry>, phase: CurvePhase, measure: PhasePhenotype)
    ensures var cell := CustomFilterCell(v, phase, measure, ExactlyOne, FirstPhase);
      (cell.NotANumber? <==> CountPhase(v, phase) != 1) &&
      (cell.Measured? <==> CountPhase(v, phase) == 1 && OfPhase(v, phase)[0].Some? &&
                           measure in OfPhase(v, phase)[0].value)
  {
  }

  /** `f` raises at some position of the plate. */
  predicate SomeCellFails(plate: seq<seq<seq<PhaseEntry>>>, phase: CurvePhase, measure: PhasePhenotype,
                          requirement: seq<Option<Phenotypes>> -> bool,
                          selector: seq<Option<Phenotypes>> -> Option<Phenotypes>)
  {
    exists i, j ::
      0 <= i < |plate| && 0 <= j < |plate[i]| &&
      CustomFilterCell(plate[i][j], phase, measure, requirement, selector).Fails?
  }

  /**
   * `filter_plate_custom_filter` over a plate of positions: None when `f` raises at some
   * position (`phase_selector(phases)[measure]` fails inside `np.frompyfunc`, before any
   * conversion to float), otherwise each position's measure, with NaN masked out as None.
   */
  function CustomFilterPlate(plate: seq<seq<seq<PhaseEntry>>>, phase: CurvePhase, measure: PhasePhenotype,
                             requirement: seq<Option<Phenotypes>> -> bool,
                             selector: seq<Option<Phenotypes>> -> Option<Phenotypes>): (r: Option<seq<seq<Option<real>>>>)
    ensures r.None? <==> SomeCellFails(plate, phase, measure, requirement, selector)
    ensures r.Some? ==> |r.value| == |plate| && forall i :: 0 <= i < |plate| ==>
      |r.value[i]| == |plate[i]| && forall j :: 0 <= j < |plate[i]| ==>
        r.value[i][j] == match CustomFilterCell(plate[i][j], phase, measure, requirement, selector)
          case Measured(x) => Some(x)
          case _ => None
  {
    if SomeCellFails(plate, phase, measure, requirement, selector) then None
    else Some(seq(|plate|, i requires 0 <= i < |plate| =>
      seq(|plate[i]|, j requires 0 <= j < |plate[i]| =>
        match CustomFilterCell(plate[i][j], phase, measure, requirement, selector)
        case Measured(x) => Some(x)
        case _ => None)))
  }

  // ---------------------------------------------------------------------------------------
  // _impulse_counter
  // ---------------------------------------------------------------------------------------

  /** `_impulse_counter`: the number of Impulse entries of a phase vector. */
  function ImpulseCounter(v: seq<PhaseEntry>): (n: nat)
    ensures n <= |v|
  {
    if v == [] then 0 else (if v[0].phase == Impulse then 1 else 0) + ImpulseCounter(v[1..])
  }

  lemma {:induction false} ImpulseCounterCounts(v: seq<PhaseEntry>)
    ensures ImpulseCounter(v) == CountPhase(v, Impulse)
  {
    if v != [] {
      ImpulseCounterCounts(v[1..]);
    }
  }

  /** The impulse count of a curve's phase vector is the number of Impulse runs of its labels. */
  lemma ImpulseCountIsRunCount(phases: seq<int>, times: seq<real>)
    requires |times| == |phases|
    ensures ImpulseCounter(PhaseVector(phases, times)) == RunCount(PhaseMask(phases, Impulse))
  {
    ImpulseCounterCounts(PhaseVector(phases, times));
    EntriesPerPhase(phases, times, Impulse);
  }
}
