/**
 * src/controller_generic.py: the generic GUI `Controller`. A controller knows the parent it was
 * built under, holds the "friendly remove" flag that marks its content as saved, collects the
 * subcontrollers added to it, and installs its specific model lazily. The parent chain is fixed at
 * construction; the ghost `depth` counts its links. The ghost `Repr` holds the controllers
 * reachable through subcontrollers, so that `get_saved` terminates.
 */
module GenericController {
  import opened PyValues

  /** The dictionary `get_specific_model` installs; its identity matters, not just its contents. */
  class SpecificModel {
    var entries: map<string, Value>

    constructor ()
      ensures entries == map[]
    {
      entries := map[];
    }
  }

  class Controller {
    const parent: Controller?
    ghost const depth: nat
    var allowFriendlyRemove: bool
    var controllers: seq<Controller>
    var specificModel: SpecificModel?
    ghost var Repr: set<Controller>

    /** The parent chain is finite: every parent sits one link closer to the root. */
    ghost predicate Chained()
      decreases depth
    {
      parent != null ==> parent.depth < depth && parent.Chained()
    }

    /** The subcontrollers form a tree-like structure below this controller, with no cycle through it. */
    ghost predicate Valid()
      reads this, Repr
      decreases Repr
    {
      this in Repr &&
      forall c :: c in controllers ==> c in Repr && c.Repr <= Repr && this !in c.Repr && c.Valid()
    }

    /** `__init__(window, parent_controller, specific_model=...)`: saved, with no subcontrollers. */
    constructor (parentController: Controller?, specificModel: SpecificModel?)
      requires parentController != null ==> parentController.Chained()
      ensures parent == parentController && Chained() && Valid()
      ensures allowFriendlyRemove && controllers == [] && this.specificModel == specificModel
      ensures Repr == {this}
    {
      parent := parentController;
      depth := if parentController == null then 0 else parentController.depth + 1;
      this.specificModel := specificModel;
      allowFriendlyRemove := true;
      controllers := [];
      Repr := {this};
    }

    /** The controllers above this one, nearest first. */
    ghost function Ancestors(): (chain: seq<Controller>)
      requires Chained()
      decreases depth
      ensures parent == null <==> chain == []
    {
      if parent == null then [] else [parent] + parent.Ancestors()
    }

    /** `get_top_controller`: itself when it has no parent, otherwise its parent's top. */
    function GetTopController(): (top: Controller)
      requires Chained()
      decreases depth
      ensures top.parent == null && top.Chained()
      ensures top == this <==> parent == null
    {
      if parent == null then this else parent.GetTopController()
    }

    /** The top controller is the root that ends the parent chain. */
    lemma {:induction false} TopIsRoot()
      requires Chained()
      ensures var chain := Ancestors();
        GetTopController() == if chain == [] then this else chain[|chain| - 1]
      decreases depth
    {
      if parent != null {
        parent.TopIsRoot();
      }
    }

    /** `set_unsaved`: only the flag changes, and the controller no longer counts as saved. */
    method SetUnsaved()
      requires Valid()
      modifies this
      ensures !allowFriendlyRemove && Valid() && !GetSaved()
      ensures controllers == old(controllers) && specificModel == old(specificModel) && Repr == old(Repr)
    {
      allowFriendlyRemove := false;
    }

    /** `set_saved`: only the flag changes; whether the controller counts as saved now rests on its subcontrollers. */
    method SetSaved()
      requires Valid()
      modifies this
      ensures allowFriendlyRemove && Valid()
      ensures GetSaved() <==> forall c :: c in controllers ==> c.GetSaved()
      ensures controllers == old(controllers) && specificModel == old(specificModel) && Repr == old(Repr)
    {
      allowFriendlyRemove := true;
    }

    /**
     * `add_subcontroller(controller)`: appends. The structure stays valid when the new
     * subcontroller is valid and does not reach back to this one.
     */
    method AddSubcontroller(c: Controller)
      modifies this
      ensures controllers == old(controllers) + [c]
      ensures allowFriendlyRemove == old(allowFriendlyRemove) && specificModel == old(specificModel)
      ensures old(Valid()) && c.Valid() && this !in c.Repr ==> Valid()
    {
      controllers := controllers + [c];
      Repr := Repr + {c} + c.Repr;
    }

    /** `get_saved`: its own flag is set and every subcontroller is saved. */
    function GetSaved(): bool
      requires Valid()
      reads this, Repr
      decreases Repr
    {
      allowFriendlyRemove && forall c :: c in controllers ==> c.GetSaved()
    }

    /** The controllers reachable from this one through subcontrollers, itself included. */
    ghost function Reachable(): (r: set<Controller>)
      requires Valid()
      reads this, Repr
      decreases Repr
      ensures this in r && r <= Repr
    {
      {this} + (set c, d | c in controllers && d in c.Reachable() :: d)
    }

    /** A controller is saved exactly when every controller reachable from it has its flag set. */
    lemma {:induction false} SavedIffAllFlagsSet()
      requires Valid()
      ensures GetSaved() <==> forall d :: d in Reachable() ==> d.allowFriendlyRemove
      decreases Repr
    {
      forall c | c in controllers
        ensures c.GetSaved() <==> forall d :: d in c.Reachable() ==> d.allowFriendlyRemove
      {
        c.SavedIffAllFlagsSet();
      }
    }

    /** `get_specific_model`: installs an empty dictionary when there is none, and returns the installed one. */
    method GetSpecificModel() returns (m: SpecificModel)
      modifies this
      ensures specificModel == m
      ensures old(specificModel) != null ==> m == old(specificModel)
      ensures old(specificModel) == null ==> fresh(m) && m.entries == map[]
      ensures allowFriendlyRemove == old(allowFriendlyRemove) && controllers == old(controllers) && Repr == old(Repr)
    {
      if specificModel == null {
        specificModel := new SpecificModel();
      }
      m := specificModel;
    }
  }
}
