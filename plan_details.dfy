/** The plan editor (src/renderer/plans/plan-details.tsx): which revision
    and which procedure are selected, the routing of the criteria, roles and
    resources panels to the selected procedure or to the revision, adding,
    deleting and replacing procedures, and the rule that only revision 0 can
    be edited. The plan's `revisions` array is shared with the parent: an
    update writes its element 0 in place before calling `onUpdate`. */
module PlanDetails {
  import opened Wrappers
  import opened Models
  import Collection

  // ---- routing on revision values ------------------------------------------

  /** `revision.procedures || []`. */
  function Procedures(rev: PlanRevision): seq<PlannedProcedure> {
    rev.procedures.GetOr([])
  }

  /** `selectedProcedure`: the procedure at the selected index, if there is one. */
  function SelectedProcedure(rev: PlanRevision, sel: Option<nat>): (r: Option<PlannedProcedure>)
    ensures r.Some? <==> sel.Some? && sel.value < |Procedures(rev)|
    ensures r.Some? ==> r.value == Procedures(rev)[sel.value]
  {
    if sel.Some? && sel.value < |Procedures(rev)| then Some(Procedures(rev)[sel.value]) else None
  }

  /** The value one of the three dual-owned panels hands up. */
  datatype Field = Criteria(criteria: Criterion) | Roles(roles: seq<Role>) | Resources(resources: seq<Resource>)

  function SetOnProcedure(p: PlannedProcedure, f: Field): PlannedProcedure {
    match f
    case Criteria(c) => p.(activationCriteria := c)
    case Roles(rs) => p.(roles := Some(rs))
    case Resources(rs) => p.(requiredResources := rs)
  }

  function SetOnRevision(rev: PlanRevision, f: Field): PlanRevision {
    match f
    case Criteria(c) => rev.(activationCriteria := c)
    case Roles(rs) => rev.(roles := Some(rs))
    case Resources(rs) => rev.(requiredResources := rs)
  }

  /** `handleUpdateProcedure`: the revision with the selected procedure
      replaced, or `None` (nothing written) when none is selected. */
  function ReplaceProcedure(rev: PlanRevision, sel: Option<nat>, p: PlannedProcedure): (r: Option<PlanRevision>)
    ensures r.Some? <==> SelectedProcedure(rev, sel).Some?
    ensures r.Some? ==> r.value == rev.(procedures := Some(Procedures(rev)[sel.value := p]))
  {
    if SelectedProcedure(rev, sel).Some? && rev.procedures.Some? && sel.Some?
    then Some(rev.(procedures := Some(rev.procedures.value[sel.value := p])))
    else None
  }

  /** `handleUpdateRoles/Criteria/Resources`: to the selected procedure when
      there is one, otherwise to the revision. */
  function Route(rev: PlanRevision, sel: Option<nat>, f: Field): PlanRevision {
    match SelectedProcedure(rev, sel)
    case Some(p) => ReplaceProcedure(rev, sel, SetOnProcedure(p, f)).value
    case None => SetOnRevision(rev, f)
  }

  /** What the three dual-owned panels are shown: the selected procedure's
      values, or the revision's; the criteria panel also gets the revision's
      criteria as implied ones when a procedure is selected. */
  datatype Shown = Shown(implied: Option<Criterion>, criteria: Criterion, roles: seq<Role>, resources: seq<Resource>)

  function ShownFor(rev: PlanRevision, sel: Option<nat>): (s: Shown)
    ensures s.implied.Some? <==> SelectedProcedure(rev, sel).Some?
    ensures s.implied.Some? ==> s.implied.value == rev.activationCriteria
  {
    match SelectedProcedure(rev, sel)
    case Some(p) => Shown(Some(rev.activationCriteria), p.activationCriteria, p.roles.GetOr([]), p.requiredResources)
    case None => Shown(None, rev.activationCriteria, rev.roles.GetOr([]), rev.requiredResources)
  }

  /** A routed update writes to exactly one owner: with a procedure selected
      only that procedure changes, and the revision's own criteria, roles
      and resources stay; without one only the revision's field changes and
      the procedures stay. */
  lemma RouteTouchesOneOwner(rev: PlanRevision, sel: Option<nat>, f: Field)
    ensures var r := Route(rev, sel, f);
      r.timeCreated == rev.timeCreated &&
      (SelectedProcedure(rev, sel).Some? ==>
        r.activationCriteria == rev.activationCriteria && r.roles == rev.roles &&
        r.requiredResources == rev.requiredResources &&
        |Procedures(r)| == |Procedures(rev)| &&
        (forall i | 0 <= i < |Procedures(rev)| && i != sel.value :: Procedures(r)[i] == Procedures(rev)[i]) &&
        Procedures(r)[sel.value] == SetOnProcedure(Procedures(rev)[sel.value], f)) &&
      (SelectedProcedure(rev, sel).None? ==> r.procedures == rev.procedures && r == SetOnRevision(rev, f))
  {
  }

  /** Whatever a dual-owned panel hands up is what it is shown next: the
      update lands where the panel's value was read from, and the selection
      still picks the same procedure. */
  lemma RouteRoundTrip(rev: PlanRevision, sel: Option<nat>, f: Field)
    ensures var s := ShownFor(Route(rev, sel, f), sel);
      SelectedProcedure(Route(rev, sel, f), sel).Some? == SelectedProcedure(rev, sel).Some? &&
      s.implied == ShownFor(rev, sel).implied &&
      match f
      case Criteria(c) => s.criteria == c
      case Roles(rs) => s.roles == rs
      case Resources(rs) => s.resources == rs
  {
  }

  /** `handleAddProcedure`: the revision with the procedure appended, and the
      index the selection then moves to. */
  function AddProcedure(rev: PlanRevision, p: PlannedProcedure): (PlanRevision, nat) {
    (rev.(procedures := Some(Procedures(rev) + [p])), |Procedures(rev)|)
  }

  /** After adding, the new selection picks the added procedure, and the
      earlier procedures keep their indices. */
  lemma AddThenSelect(rev: PlanRevision, p: PlannedProcedure)
    ensures var (r, idx) := AddProcedure(rev, p);
      SelectedProcedure(r, Some(idx)) == Some(p) &&
      Procedures(r)[..idx] == Procedures(rev)
  {
  }

  /** `handleDeleteProcedure`: the revision without procedure `idx`. */
  function DeleteProcedure(rev: PlanRevision, idx: nat): PlanRevision {
    rev.(procedures := Some(Collection.SpliceOut(Procedures(rev), idx)))
  }

  /** Deleting and then adding the same procedure at the end restores the
      list when it was the last one. */
  lemma DeleteLastThenAddRestores(rev: PlanRevision)
    requires |Procedures(rev)| > 0
    ensures var n := |Procedures(rev)| - 1;
      Procedures(AddProcedure(DeleteProcedure(rev, n), Procedures(rev)[n]).0) == Procedures(rev)
  {
    var ps := Procedures(rev);
    assert Collection.SpliceOut(ps, |ps| - 1) + [ps[|ps| - 1]] == ps;
  }

  // ---- the component --------------------------------------------------------

  /** The `PlanDetails` component's state. */
  class Details {
    const planId: string
    const planName: string
    /** `plan.revisions`, the array the parent holds too. */
    const revisions: array<PlanRevision>
    var selectedProcedureIdx: Option<nat>
    var selectedRevisionIdx: nat
    /** The plans handed to `onUpdate`, as they stood when handed over. */
    var published: seq<Plan>

    constructor(planId: string, planName: string, revisions: array<PlanRevision>)
      ensures this.planId == planId && this.planName == planName && this.revisions == revisions
      ensures selectedProcedureIdx == None && selectedRevisionIdx == 0 && published == []
    {
      this.planId := planId;
      this.planName := planName;
      this.revisions := revisions;
      selectedProcedureIdx := None;
      selectedRevisionIdx := 0;
      published := [];
    }

    /** The revision shown (`plan.revisions[selectedRevisionIdx]`). */
    function Revision(): PlanRevision
      reads this, revisions
      requires selectedRevisionIdx < revisions.Length
    {
      revisions[selectedRevisionIdx]
    }

    /** `isLatestRevision`: the children get their update callbacks (and
        the summary its `onRevisionUpdate`) only while the working revision
        is shown, so every handler below requires it. */
    predicate Editable()
      reads this
    {
      selectedRevisionIdx == 0
    }

    /** The plan as `onUpdate` sees it. */
    function Current(): Plan
      reads this, revisions
    {
      Plan(planId, planName, revisions[..])
    }

    /** `onUpdateRevision`: writes element 0 of the shared array and hands
        the plan over. */
    method OnUpdateRevision(rev: PlanRevision)
      requires Editable() && revisions.Length > 0
      modifies this, revisions
      ensures revisions[0] == rev
      ensures forall i | 1 <= i < revisions.Length :: revisions[i] == old(revisions[i])
      ensures published == old(published) + [Current()]
      ensures selectedProcedureIdx == old(selectedProcedureIdx) && selectedRevisionIdx == old(selectedRevisionIdx)
    {
      revisions[0] := rev;
      published := published + [Current()];
    }

    /** A dual-owned panel's `onUpdate` (wired only on revision 0). */
    method HandleUpdate(f: Field)
      requires Editable() && revisions.Length > 0
      modifies this, revisions
      ensures revisions[0] == Route(old(revisions[0]), selectedProcedureIdx, f)
      ensures forall i | 1 <= i < revisions.Length :: revisions[i] == old(revisions[i])
      ensures published == old(published) + [Current()]
      ensures selectedProcedureIdx == old(selectedProcedureIdx) && selectedRevisionIdx == 0
    {
      var rev := revisions[0];
      match SelectedProcedure(rev, selectedProcedureIdx)
      case Some(p) =>
        HandleUpdateProcedure(SetOnProcedure(p, f));
      case None =>
        OnUpdateRevision(SetOnRevision(rev, f));
    }

    /** `handleUpdateProcedure` (the procedure editor's `onUpdate`): replaces
        the selected procedure; writes nothing without a selection. */
    method HandleUpdateProcedure(p: PlannedProcedure)
      requires Editable() && revisions.Length > 0
      modifies this, revisions
      ensures var r := ReplaceProcedure(old(revisions[0]), selectedProcedureIdx, p);
        (r.Some? ==> revisions[0] == r.value && published == old(published) + [Current()]) &&
        (r.None? ==> revisions[0] == old(revisions[0]) && published == old(published))
      ensures forall i | 1 <= i < revisions.Length :: revisions[i] == old(revisions[i])
      ensures selectedProcedureIdx == old(selectedProcedureIdx) && selectedRevisionIdx == 0
    {
      var rev := revisions[0];
      if SelectedProcedure(rev, selectedProcedureIdx).Some? && rev.procedures.Some? && selectedProcedureIdx.Some? {
        var procedures := rev.procedures.value[selectedProcedureIdx.value := p];
        OnUpdateRevision(rev.(procedures := Some(procedures)));
      }
    }

    /** `handleAddProcedure`: appends and (deferred) selects the new index. */
    method HandleAddProcedure(p: PlannedProcedure)
      requires Editable() && revisions.Length > 0
      modifies this, revisions
      ensures revisions[0] == AddProcedure(old(revisions[0]), p).0
      ensures selectedProcedureIdx == Some(AddProcedure(old(revisions[0]), p).1)
      ensures forall i | 1 <= i < revisions.Length :: revisions[i] == old(revisions[i])
      ensures published == old(published) + [Current()] && selectedRevisionIdx == 0
    {
      var rev := revisions[0];
      var procs := Procedures(rev) + [p];
      var idx := |procs| - 1;
      OnUpdateRevision(rev.(procedures := Some(procs)));
      selectedProcedureIdx := Some(idx);
    }

    /** `handleDeleteProcedure`: removes procedure `idx` and (deferred)
        clears the procedure selection. */
    method HandleDeleteProcedure(idx: nat)
      requires Editable() && revisions.Length > 0
      modifies this, revisions
      ensures revisions[0] == DeleteProcedure(old(revisions[0]), idx)
      ensures selectedProcedureIdx == None
      ensures forall i | 1 <= i < revisions.Length :: revisions[i] == old(revisions[i])
      ensures published == old(published) + [Current()] && selectedRevisionIdx == 0
    {
      var rev := revisions[0];
      var procs := Collection.SpliceOut(Procedures(rev), idx);
      OnUpdateRevision(rev.(procedures := Some(procs)));
      selectedProcedureIdx := None;
    }

    /** The procedures panel's `onSelect` and the sheet's close button. */
    method SelectProcedure(idx: Option<nat>)
      modifies this
      ensures selectedProcedureIdx == idx && selectedRevisionIdx == old(selectedRevisionIdx) && published == old(published)
    {
      selectedProcedureIdx := idx;
    }

    /** The revision list's `onSelect`. */
    method SelectRevision(idx: nat)
      modifies this
      ensures selectedRevisionIdx == idx && selectedProcedureIdx == old(selectedProcedureIdx) && published == old(published)
    {
      selectedRevisionIdx := idx;
    }

    /** The effect on `plan.id`: a different plan clears the procedure selection. */
    method OnPlanChanged()
      modifies this
      ensures selectedProcedureIdx == None && selectedRevisionIdx == old(selectedRevisionIdx) && published == old(published)
    {
      selectedProcedureIdx := None;
    }

    /** The effect on `plan.revisions.length`: back to the working revision. */
    method OnRevisionCountChanged()
      modifies this
      ensures selectedRevisionIdx == 0 && selectedProcedureIdx == old(selectedProcedureIdx) && published == old(published)
    {
      selectedRevisionIdx := 0;
    }
  }
}
