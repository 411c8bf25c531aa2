/** The procedure editor (src/renderer/plans/procedure-details.tsx). Its
    step list is a JavaScript array of step objects shared with the parent:
    the working list copies the array but not the objects, so a keystroke
    in a row writes through into the parent's step, and a confirm splices
    or assigns the parent's array in place before calling `onUpdate`. */
module ProcedureDetails {
  import opened Models
  import Text
  import Collection

  /** A `{ action }` step object. */
  class StepObject {
    var action: string

    constructor(action: string)
      ensures this.action == action
    {
      this.action := action;
    }
  }

  /** A JavaScript array of step objects (`procedure.steps`). */
  class StepArray {
    var items: seq<StepObject>

    constructor(items: seq<StepObject>)
      ensures this.items == items
    {
      this.items := items;
    }
  }

  /** The steps a list of step objects holds at this moment. */
  function Actions(objs: seq<StepObject>): (r: seq<ProcedureStep>)
    reads set o | o in objs
    ensures |r| == |objs|
    ensures forall i | 0 <= i < |objs| :: r[i] == ProcedureStep(objs[i].action)
  {
    if objs == [] then [] else [ProcedureStep(objs[0].action)] + Actions(objs[1..])
  }

  /** Splicing the objects out splices their steps out. */
  lemma ActionsSpliceOut(objs: seq<StepObject>, idx: nat)
    ensures Actions(Collection.SpliceOut(objs, idx)) == Collection.SpliceOut(Actions(objs), idx)
  {
  }

  /** Storing an object stores its step. */
  lemma ActionsAssign(objs: seq<StepObject>, idx: nat, o: StepObject)
    requires idx <= |objs|
    ensures Actions(Collection.Assign(objs, idx, o)) == Collection.Assign(Actions(objs), idx, ProcedureStep(o.action))
  {
  }

  /** The `ProcedureDetails` component. */
  class Details {
    /** The `procedure` prop; its `steps` are read from `shared`. */
    const procedure: PlannedProcedure
    /** `procedure.steps`: the array the parent holds too. */
    const shared: StepArray
    /** Whether an `onUpdate` callback was supplied. */
    const editable: bool
    /** The working list (`steps` state). */
    var steps: seq<StepObject>
    /** The name being edited (`name` state). */
    var name: string
    /** The procedures handed to `onUpdate`, as they stood when handed over. */
    var published: seq<PlannedProcedure>

    /** The working list shares the parent's step objects, row for row, and
        has one extra row while editable. */
    ghost predicate Synced()
      reads this, shared
    {
      |steps| == |shared.items| + (if editable then 1 else 0) &&
      (forall i | 0 <= i < |shared.items| :: steps[i] == shared.items[i]) &&
      (editable ==> steps[|shared.items|] !in shared.items)
    }

    /** The procedure as `onUpdate` sees it: the prop with the shared steps. */
    function Current(): PlannedProcedure
      reads this, shared, set o | o in shared.items
    {
      procedure.(steps := Actions(shared.items))
    }

    /** The first render: both states start empty. */
    constructor(procedure: PlannedProcedure, shared: StepArray, editable: bool)
      ensures this.procedure == procedure && this.shared == shared && this.editable == editable
      ensures steps == [] && name == "" && published == []
    {
      this.procedure := procedure;
      this.shared := shared;
      this.editable := editable;
      steps := [];
      name := "";
      published := [];
    }

    /** The effect on the serialized steps: the working list becomes the
        shared step objects, plus a fresh blank step while editable. */
    method SyncSteps()
      modifies this
      ensures Synced()
      ensures steps[..|shared.items|] == shared.items
      ensures editable ==> fresh(steps[|shared.items|]) && steps[|shared.items|].action == ""
      ensures name == old(name) && published == old(published)
    {
      if editable {
        var blank := new StepObject("");
        steps := shared.items + [blank];
      } else {
        steps := shared.items;
      }
    }

    /** The effect on the procedure's name. */
    method SyncName()
      modifies this
      ensures name == procedure.name && steps == old(steps) && published == old(published)
    {
      name := procedure.name;
    }

    /** A keystroke in row `idx` (`newSteps[idx].action = val`): the object
        is shared, so every list holding it sees the new text, the parent's
        array included. */
    method OnChangeStep(idx: nat, val: string)
      requires idx < |steps|
      modifies steps[idx]
      ensures steps[idx].action == val
      ensures forall o | o in shared.items :: o.action == (if o == steps[idx] then val else old(o.action))
    {
      steps[idx].action := val;
    }

    /** `handleStepDeletion`: splices the parent's array in place and hands
        the procedure to `onUpdate`. */
    method HandleStepDeletion(idx: nat)
      modifies shared, this
      ensures shared.items == Collection.SpliceOut(old(shared.items), idx)
      ensures steps == old(steps) && name == old(name)
      ensures published == old(published) + (if editable then [Current()] else [])
    {
      shared.items := Collection.SpliceOut(shared.items, idx);
      if editable {
        published := published + [Current()];
      }
    }

    /** `handleStepEdit`: a blank action deletes the step; any other action
        is stored at `idx` of the parent's array (one past the end appends). */
    method HandleStepEdit(idx: nat, newStep: StepObject)
      requires idx <= |shared.items|
      modifies shared, this
      ensures Text.IsBlank(newStep.action) ==> shared.items == Collection.SpliceOut(old(shared.items), idx)
      ensures !Text.IsBlank(newStep.action) ==> shared.items == Collection.Assign(old(shared.items), idx, newStep)
      ensures steps == old(steps) && name == old(name)
      ensures published == old(published) + (if editable then [Current()] else [])
    {
      if Text.IsBlank(newStep.action) {
        HandleStepDeletion(idx);
      } else {
        shared.items := Collection.Assign(shared.items, idx, newStep);
        if editable {
          published := published + [Current()];
        }
      }
    }

    /** A step's `onConfirm`: the trimmed action replaces step `idx`, or
        the step is deleted when the action is blank. */
    method OnConfirmStep(idx: nat, val: string)
      requires idx <= |shared.items|
      modifies shared, this
      ensures Text.IsBlank(val) ==> Actions(shared.items) == Collection.SpliceOut(old(Actions(shared.items)), idx)
      ensures !Text.IsBlank(val) ==> Actions(shared.items) == Collection.Assign(old(Actions(shared.items)), idx, ProcedureStep(Text.Trim(val)))
      ensures steps == old(steps) && name == old(name)
      ensures published == old(published) + (if editable then [Current()] else [])
    {
      Text.TrimmedBlankIsEmpty(val);
      ghost var before := shared.items;
      var step := new StepObject(Text.Trim(val));
      HandleStepEdit(idx, step);
      ActionsSpliceOut(before, idx);
      ActionsAssign(before, idx, step);
    }

    /** The name's `onConfirm`: hands over the procedure with the trimmed
        name when editable. */
    method OnConfirmName(val: string)
      modifies this
      ensures steps == old(steps) && name == old(name)
      ensures published == old(published) + (if editable then [Current().(name := Text.Trim(val))] else [])
    {
      if editable {
        published := published + [Current().(name := Text.Trim(val))];
      }
    }
  }

  /** After the effect, typing into an existing row also rewrites that step
      in the parent's procedure, while typing into the trailing blank row
      leaves the parent's steps as they were. */
  method KeystrokeWritesThrough(d: Details, idx: nat, val: string)
    requires d.Synced() && idx < |d.steps|
    modifies d.steps[idx]
    ensures idx < |d.shared.items| ==> d.shared.items[idx].action == val
    ensures idx == |d.shared.items| ==> Actions(d.shared.items) == old(Actions(d.shared.items))
  {
    ghost var before := Actions(d.shared.items);
    d.OnChangeStep(idx, val);
    if idx == |d.shared.items| {
      assert forall i | 0 <= i < |d.shared.items| :: d.shared.items[i].action == before[i].action;
    }
  }
}
