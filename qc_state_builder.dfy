/**
 * scanomatic/ui_server_data/js/src/qc/StateBuilder.js: a builder for the state of the quality
 * control page. Each setter replaces the builder's `plate` or `settings` object with a new one and
 * returns the builder; some setters do nothing unless the state allows them. A property a plain
 * object does not have is None.
 */
module QcStateBuilder {
  import opened Wrappers

  /** A phenotype's name. */
  type Phenotype = string

  /** A plate's values, row by row. */
  type PlateValues = seq<seq<real>>

  /** Plate positions as the two arrays of their rows and their columns. */
  type PlateCoordinates = seq<seq<int>>

  /** A time series per colony, row by row. */
  type PlateOfTimeSeries = seq<seq<seq<real>>>

  /** The positions of a quality-index queue, each a row and a column. */
  type QualityIndexQueue = seq<(int, int)>

  /** The quality-control marks of one phenotype. */
  datatype QcMarks = QcMarks(badData: PlateCoordinates, empty: PlateCoordinates, noGrowth: PlateCoordinates,
                             undecidedProblem: PlateCoordinates)

  datatype Plate = Plate(
    number: int,
    qIndex: int,
    phenotypes: Option<map<Phenotype, PlateValues>>,
    qcmarks: Option<map<Phenotype, QcMarks>>,
    times: Option<seq<real>>,
    raw: Option<PlateOfTimeSeries>,
    smooth: Option<PlateOfTimeSeries>,
    qIndexQueue: Option<QualityIndexQueue>)

  datatype Settings = Settings(project: Option<string>, phenotype: Option<Phenotype>)

  datatype State = State(plate: Plate, settings: Settings)

  /** The plate object `{ number, qIndex: 0 }` and nothing else. */
  function FreshPlate(number: int): Plate {
    Plate(number, 0, None, None, None, None, None, None)
  }

  /** A JavaScript string property is truthy when it is there and not empty. */
  predicate Truthy(s: Option<string>) {
    s.Some? && s.value != ""
  }

  /** The entries of an object property; a missing one spreads as no entries in `Object.assign`. */
  function Entries<V>(o: Option<map<Phenotype, V>>): map<Phenotype, V> {
    o.GetOr(map[])
  }

  class StateBuilder {
    var plate: Plate
    var settings: Settings

    /**
     * What the setters keep true: a quality index other than 0 needs a queue, and a phenotype is
     * chosen only within a project.
     */
    ghost predicate Valid()
      reads this
    {
      (plate.qIndexQueue.None? ==> plate.qIndex == 0) && (settings.phenotype.Some? ==> Truthy(settings.project))
    }

    /** `new StateBuilder()`: plate 0 at index 0, and empty settings. */
    constructor ()
      ensures plate == FreshPlate(0) && settings == Settings(None, None) && Valid()
    {
      plate := FreshPlate(0);
      settings := Settings(None, None);
    }

    /** `setProject(project)`: settings hold only the project, and the plate starts over at plate 0. */
    method SetProject(project: string) returns (self: StateBuilder)
      requires Valid()
      modifies this
      ensures self == this && Valid()
      ensures settings == Settings(Some(project), None) && plate == FreshPlate(0)
    {
      settings := Settings(Some(project), None);
      plate := FreshPlate(0);
      self := this;
    }

    /** `setPhenotype(phenotype)`: adds the phenotype to the settings, and does nothing without a project. */
    method SetPhenotype(phenotype: Phenotype) returns (self: StateBuilder)
      requires Valid()
      modifies this
      ensures self == this && Valid() && plate == old(plate)
      ensures settings == if Truthy(old(settings.project)) then old(settings).(phenotype := Some(phenotype)) else old(settings)
    {
      self := this;
      if !Truthy(settings.project) {
        return;
      }
      settings := settings.(phenotype := Some(phenotype));
    }

    /** `setPlatePhenotypeData(phenotype, phenotypes)`: sets that phenotype's values and keeps the others. */
    method SetPlatePhenotypeData(phenotype: Phenotype, values: PlateValues) returns (self: StateBuilder)
      requires Valid()
      modifies this
      ensures self == this && Valid() && settings == old(settings)
      ensures plate == old(plate).(phenotypes := Some(Entries(old(plate.phenotypes))[phenotype := values]))
    {
      plate := plate.(phenotypes := Some(Entries(plate.phenotypes)[phenotype := values]));
      self := this;
    }

    /** `setPhenotypeQCMarks(phenotype, ...)`: sets that phenotype's four kinds of marks and keeps the others. */
    method SetPhenotypeQCMarks(phenotype: Phenotype, badData: PlateCoordinates, empty: PlateCoordinates,
                               noGrowth: PlateCoordinates, undecidedProblem: PlateCoordinates) returns (self: StateBuilder)
      requires Valid()
      modifies this
      ensures self == this && Valid() && settings == old(settings)
      ensures plate == old(plate).(qcmarks := Some(Entries(old(plate.qcmarks))[phenotype := QcMarks(badData, empty, noGrowth, undecidedProblem)]))
    {
      plate := plate.(qcmarks := Some(Entries(plate.qcmarks)[phenotype := QcMarks(badData, empty, noGrowth, undecidedProblem)]));
      self := this;
    }

    /** `setPlate(plate)`: a new plate object with only the number and index 0; everything about the old plate goes. */
    method SetPlate(number: int) returns (self: StateBuilder)
      requires Valid()
      modifies this
      ensures self == this && Valid() && settings == old(settings)
      ensures plate == FreshPlate(number)
    {
      plate := FreshPlate(number);
      self := this;
    }

    /** `setPlateGrowthData(plate, times, raw, smooth)`: stores the curves, and does nothing for another plate than the current one. */
    method SetPlateGrowthData(number: int, times: seq<real>, raw: PlateOfTimeSeries, smooth: PlateOfTimeSeries)
      returns (self: StateBuilder)
      requires Valid()
      modifies this
      ensures self == this && Valid() && settings == old(settings)
      ensures plate == if number != old(plate.number) then old(plate)
                       else old(plate).(times := Some(times), raw := Some(raw), smooth := Some(smooth))
    {
      self := this;
      if number != plate.number {
        return;
      }
      plate := plate.(times := Some(times), raw := Some(raw), smooth := Some(smooth));
    }

    /** `setQualityIndexQueue(queue)`: stores the queue and keeps the index. */
    method SetQualityIndexQueue(queue: QualityIndexQueue) returns (self: StateBuilder)
      requires Valid()
      modifies this
      ensures self == this && Valid() && settings == old(settings)
      ensures plate == old(plate).(qIndexQueue := Some(queue))
    {
      plate := plate.(qIndexQueue := Some(queue));
      self := this;
    }

    /** `setQualityIndex(index)`: moves the index, and does nothing without a queue. */
    method SetQualityIndex(index: int) returns (self: StateBuilder)
      requires Valid()
      modifies this
      ensures self == this && Valid() && settings == old(settings)
      ensures plate == if old(plate.qIndexQueue).None? then old(plate) else old(plate).(qIndex := index)
    {
      self := this;
      if plate.qIndexQueue.None? {
        return;
      }
      plate := plate.(qIndex := index);
    }

    /** `build()`: the state made of the current plate and settings. */
    function Build(): (s: State)
      reads this
      ensures s.plate == plate && s.settings == settings
    {
      State(plate, settings)
    }
  }
}
