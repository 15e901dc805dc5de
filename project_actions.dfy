/**
 * scanomatic/ui_server_data/js/src/projects/actions.js: the action creators of the projects page,
 * the field-type check of `changeNewExperiment`, and the two submit thunks. A thunk's `dispatch` is
 * a `Store` that records the actions in order. What `getState` and the selectors return (the new
 * project or experiment, and the number of errors after the submit) and the clock behind
 * `new Date().getTime()` are parameters.
 */
module ProjectActions {
  import opened Wrappers
  import opened JsNumbers

  /** A JavaScript value, as far as `typeof` tells values apart. */
  datatype JsValue =
    | Str(s: string)
    | Num(n: real)
    | Arr(items: seq<JsValue>)
    | Obj(fields: map<string, JsValue>)
    | Null
    | Undefined
    | Bool(b: bool)

  /** The `typeof` operator; arrays and null are objects. */
  function TypeOf(v: JsValue): string {
    match v
    case Str(_) => "string"
    case Num(_) => "number"
    case Arr(_) => "object"
    case Obj(_) => "object"
    case Null => "object"
    case Undefined => "undefined"
    case Bool(_) => "boolean"
  }

  datatype Action =
    | NewProjectSubmit
    | NewProjectClear
    | ProjectsAdd(id: string, name: string, description: string)
    | NewExperimentChange(field: string, value: JsValue)
    | NewExperimentSubmit
    | NewExperimentClear
    | ExperimentsAdd(id: string, projectId: string, name: string, description: string,
                     duration: real, interval: real, scannerId: string, pinning: seq<string>)

  /** What a JavaScript `throw` raises here. */
  datatype Thrown = TypeError(message: string) | Error(message: string)

  /** An action creator returns an action or throws. */
  datatype Outcome = Returns(action: Action) | Throws(thrown: Thrown)

  // ---------------------------------------------------------------------------------------
  // changeNewExperiment
  // ---------------------------------------------------------------------------------------

  /** The message of the TypeError for a value of the wrong type. */
  function InvalidType(value: JsValue, field: string): string {
    "Invalid type " + TypeOf(value) + " for field " + field
  }

  /** `changeNewExperiment(field, value)`: the switch over the field name and its `typeof` checks. */
  function ChangeNewExperiment(field: string, value: JsValue): Outcome {
    if field == "description" || field == "name" || field == "scannerId" then
      if TypeOf(value) != "string" then Throws(TypeError(InvalidType(value, field)))
      else Returns(NewExperimentChange(field, value))
    else if field == "duration" || field == "interval" then
      if TypeOf(value) == "number" then Returns(NewExperimentChange(field, value))
      else Throws(TypeError(InvalidType(value, field)))
    else if field == "pinning" then
      if TypeOf(value) == "object" then Returns(NewExperimentChange(field, value))
      else Throws(TypeError(InvalidType(value, field)))
    else Throws(Error("Unknown field " + field))
  }

  /** The `typeof` each field of a new experiment takes; None for a field the form does not have. */
  function FieldType(field: string): Option<string> {
    var types := map["description" := "string", "name" := "string", "scannerId" := "string",
                     "duration" := "number", "interval" := "number", "pinning" := "object"];
    if field in types then Some(types[field]) else None
  }

  /**
   * `changeNewExperiment` passes the value on unchanged exactly when the field is known and the
   * value has the field's type; a known field with a value of another type raises a TypeError, an
   * unknown field an Error.
   */
  lemma ChangeNewExperimentChecksType(field: string, value: JsValue)
    ensures var r := ChangeNewExperiment(field, value);
      (r.Returns? <==> FieldType(field) == Some(TypeOf(value))) &&
      (r.Returns? ==> r.action == NewExperimentChange(field, value)) &&
      (r.Throws? && FieldType(field).Some? ==> r.thrown == TypeError(InvalidType(value, field))) &&
      (FieldType(field).None? ==> r == Throws(Error("Unknown field " + field)))
  {
    assert "description" != "name" && "description" != "scannerId" && "name" != "scannerId";
  }

  /** `typeof null` is "object", so pinning accepts null as well as arrays. */
  lemma PinningAcceptsNull()
    ensures ChangeNewExperiment("pinning", Null) == Returns(NewExperimentChange("pinning", Null))
    ensures ChangeNewExperiment("pinning", Str("1536")).Throws?
  {
  }

  // ---------------------------------------------------------------------------------------
  // Action creators and the submit thunks
  // ---------------------------------------------------------------------------------------

  /** `addProject(name, description)`, with the id the clock's milliseconds as a string. */
  function AddProject(name: string, description: string, now: int): Action {
    ProjectsAdd(JsString(now), name, description)
  }

  /** A new project as the selector returns it. */
  datatype NewProject = NewProject(name: string, description: string)

  /** A new experiment as the selector returns it. */
  datatype NewExperiment = NewExperiment(projectId: string, name: string, description: string,
                                         duration: real, interval: real, scannerId: string, pinning: seq<string>)

  /** `addExperiment(...)`, with the id the clock's milliseconds as a string. */
  function AddExperiment(e: NewExperiment, now: int): Action {
    ExperimentsAdd(JsString(now), e.projectId, e.name, e.description, e.duration, e.interval, e.scannerId, e.pinning)
  }

  /** The Redux store, seen as the actions dispatched to it. */
  class Store {
    var dispatched: seq<Action>

    constructor ()
      ensures dispatched == []
    {
      dispatched := [];
    }

    /** `dispatch(action)`. */
    method Dispatch(a: Action)
      modifies this
      ensures dispatched == old(dispatched) + [a]
    {
      dispatched := dispatched + [a];
    }
  }

  /** The actions `submitNewProject` dispatches, in order. */
  function NewProjectActions(newProject: Option<NewProject>, errorsAfterSubmit: nat, now: int): seq<Action> {
    if newProject.None? then []
    else if errorsAfterSubmit > 0 then [NewProjectSubmit]
    else [NewProjectSubmit, AddProject(newProject.value.name, newProject.value.description, now), NewProjectClear]
  }

  /**
   * `submitNewProject()(dispatch, getState)`: nothing without a new project; otherwise SUBMIT, and
   * when the state after it has no errors, the new project and then CLEAR.
   */
  method SubmitNewProject(store: Store, newProject: Option<NewProject>, errorsAfterSubmit: nat, now: int)
    modifies store
    ensures store.dispatched == old(store.dispatched) + NewProjectActions(newProject, errorsAfterSubmit, now)
  {
    if newProject.None? {
      return;
    }
    store.Dispatch(NewProjectSubmit);
    if errorsAfterSubmit > 0 {
      return;
    }
    store.Dispatch(AddProject(newProject.value.name, newProject.value.description, now));
    store.Dispatch(NewProjectClear);
  }

  /**
   * `submitNewProject` dispatches nothing without a new project and otherwise starts with SUBMIT;
   * the project is added, with its own name and description, exactly when there are no errors,
   * and CLEAR comes only after the addition.
   */
  lemma SubmitNewProjectOrder(newProject: Option<NewProject>, errorsAfterSubmit: nat, now: int)
    ensures var acts := NewProjectActions(newProject, errorsAfterSubmit, now);
      (acts == [] <==> newProject.None?) &&
      (acts != [] ==> acts[0] == NewProjectSubmit) &&
      ((exists k :: 0 <= k < |acts| && acts[k].ProjectsAdd?) <==> newProject.Some? && errorsAfterSubmit == 0) &&
      (forall k :: 0 <= k < |acts| && acts[k] == NewProjectClear ==>
        k == 2 && acts[1] == ProjectsAdd(JsString(now), newProject.value.name, newProject.value.description))
  {
    var acts := NewProjectActions(newProject, errorsAfterSubmit, now);
    if newProject.Some? && errorsAfterSubmit == 0 {
      assert acts[1].ProjectsAdd?;
    }
  }

  /** The actions `submitNewExperiment` dispatches, in order. */
  function NewExperimentActions(newExperiment: Option<NewExperiment>, errorsAfterSubmit: nat, now: int): seq<Action> {
    if newExperiment.None? || errorsAfterSubmit > 0 then [NewExperimentSubmit]
    else [NewExperimentSubmit, AddExperiment(newExperiment.value, now), NewExperimentClear]
  }

  /**
   * `submitNewExperiment()(dispatch, getState)`: SUBMIT first; then, when the state after it holds a
   * new experiment and no errors, the experiment and then CLEAR.
   */
  method SubmitNewExperiment(store: Store, newExperiment: Option<NewExperiment>, errorsAfterSubmit: nat, now: int)
    modifies store
    ensures store.dispatched == old(store.dispatched) + NewExperimentActions(newExperiment, errorsAfterSubmit, now)
  {
    store.Dispatch(NewExperimentSubmit);
    if newExperiment.None? {
      return;
    }
    if errorsAfterSubmit > 0 {
      return;
    }
    store.Dispatch(AddExperiment(newExperiment.value, now));
    store.Dispatch(NewExperimentClear);
  }

  /**
   * `submitNewExperiment` always starts with SUBMIT; the experiment is added, with every field the
   * selector gave, exactly when it exists and has no errors, and CLEAR follows it.
   */
  lemma SubmitNewExperimentOrder(newExperiment: Option<NewExperiment>, errorsAfterSubmit: nat, now: int)
    ensures var acts := NewExperimentActions(newExperiment, errorsAfterSubmit, now);
      |acts| > 0 && acts[0] == NewExperimentSubmit &&
      ((exists k :: 0 <= k < |acts| && acts[k].ExperimentsAdd?) <==> newExperiment.Some? && errorsAfterSubmit == 0) &&
      (forall k :: 0 <= k < |acts| && acts[k] == NewExperimentClear ==> k == 2 && acts[1].ExperimentsAdd?) &&
      (forall k :: 0 <= k < |acts| && acts[k].ExperimentsAdd? ==>
        var e := newExperiment.value; var a := acts[k];
        a.projectId == e.projectId && a.name == e.name && a.description == e.description && a.duration == e.duration &&
        a.interval == e.interval && a.scannerId == e.scannerId && a.pinning == e.pinning)
  {
    var acts := NewExperimentActions(newExperiment, errorsAfterSubmit, now);
    if newExperiment.Some? && errorsAfterSubmit == 0 {
      assert acts[1].ExperimentsAdd?;
    }
  }
}
