/**
 * The phase vocabulary of curve_phase_phenotypes.py: the CurvePhases enumeration with its
 * integer codes, and the three segmentation thresholds with their defaults.
 */
module CurvePhases {
  import opened Wrappers

  /** A growth-curve phase; `Code` is the integer stored in the phase-label array. */
  datatype CurvePhase = Multiple | Undetermined | Flat | Acceleration | Retardation | Impulse {

    function Code(): (v: int)
      ensures -1 <= v <= 4
      ensures v == -1 <==> this == Multiple
    {
      match this
      case Multiple => -1
      case Undetermined => 0
      case Flat => 1
      case Acceleration => 2
      case Retardation => 3
      case Impulse => 4
    }
  }

  /** The enumeration members in declaration order, the order in which Python iterates them. */
  const AllPhases: seq<CurvePhase> := [Multiple, Undetermined, Flat, Acceleration, Retardation, Impulse]

  /** AllPhases lists every phase exactly once. */
  lemma AllPhasesDistinct()
    ensures forall i, j :: 0 <= i < j < |AllPhases| ==> AllPhases[i] != AllPhases[j]
    ensures forall p: CurvePhase :: p in AllPhases
  {
    forall i | 0 <= i < |AllPhases| ensures AllPhases[i].Code() == i - 1 {
    }
    forall p: CurvePhase ensures p in AllPhases {
      assert AllPhases[p.Code() + 1] == p;
    }
  }

  /** The member with a given code, as `CurvePhases(v)` looks it up; None where Python raises. */
  function FromCode(v: int): (p: Option<CurvePhase>)
    ensures p.Some? <==> -1 <= v <= 4
    ensures p.Some? ==> p.value.Code() == v
  {
    if v == -1 then Some(Multiple)
    else if v == 0 then Some(Undetermined)
    else if v == 1 then Some(Flat)
    else if v == 2 then Some(Acceleration)
    else if v == 3 then Some(Retardation)
    else if v == 4 then Some(Impulse)
    else None
  }

  /** Codes identify phases: decoding a phase's code gives the phase back. */
  lemma CodeRoundTrip(p: CurvePhase)
    ensures FromCode(p.Code()) == Some(p)
  {
  }

  /** The thresholds dictionary keyed by the Thresholds enumeration. */
  datatype Thresholds = Thresholds(
    impulseExtension: real,
    impulseSlopeRequirement: real,
    flatlineSlopeRequirement: real)

  /** DEFAULT_THRESHOLDS. */
  const DefaultThresholds: Thresholds := Thresholds(0.75, 0.1, 0.02)

  /** A missing thresholds argument means the defaults. */
  function ResolveThresholds(thresholds: Option<Thresholds>): (t: Thresholds)
    ensures thresholds.None? ==> t == DefaultThresholds
    ensures thresholds.Some? ==> t == thresholds.value
  {
    thresholds.GetOr(DefaultThresholds)
  }
}
