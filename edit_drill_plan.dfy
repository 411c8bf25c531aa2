/** The drill-plan editor (src/renderer/plans/edit-drill-plan.tsx): a
    working revision with a trailing blank in each of its three lists,
    the sanitised revision a commit stores, and the choice between saving
    a new revision (numbered one past the edited one) and amending the
    latest revision in place. ISO 8601 durations are read through an
    abstract `minutesOf`, standing for moment's `.minutes()` component. */
module EditDrillPlan {
  import opened Wrappers
  import opened Models
  import Text
  import Collection

  /** `makeBlankDrillPlanRevision(id)`; the creation time is a parameter. */
  function MakeBlank(id: int, now: string): (r: DrillPlanRevision)
    ensures r.resourceRequirements == [] && r.preparationSteps == [] && r.steps == []
    ensures r.revisionID == id && r.timeCreated == now
  {
    DrillPlanRevision([], [], [], now, id)
  }

  // ---- sanitising -------------------------------------------------------------

  function RequirementIsBlank(): ResourceRequirement -> bool {
    (rr: ResourceRequirement) => Text.IsBlank(rr.description)
  }

  function PrepStepIsBlank(): PreparationStep -> bool {
    (ps: PreparationStep) => Text.IsBlank(ps.description)
  }

  /** A step is dropped when its description is blank or it is allowed less
      than one minute. */
  function StepIsBlank(minutesOf: string -> int): DrillStepPlan -> bool {
    (s: DrillStepPlan) => Text.IsBlank(s.description) || minutesOf(s.timeAllowed) < 1
  }

  /** `sanitizeEntry`: the revision with blank entries dropped from all three
      lists, or `None` (`undefined`) when no step survives. */
  function SanitizeEntry(entry: DrillPlanRevision, minutesOf: string -> int): (r: Option<DrillPlanRevision>)
    ensures r.None? <==> Collection.Sanitize(entry.steps, StepIsBlank(minutesOf)) == []
    ensures r.Some? ==> (|r.value.steps| >= 1 &&
      r.value.timeCreated == entry.timeCreated && r.value.revisionID == entry.revisionID)
  {
    var steps := Collection.Sanitize(entry.steps, StepIsBlank(minutesOf));
    if |steps| < 1 then None
    else Some(entry.(
      steps := steps,
      resourceRequirements := Collection.Sanitize(entry.resourceRequirements, RequirementIsBlank()),
      preparationSteps := Collection.Sanitize(entry.preparationSteps, PrepStepIsBlank())))
  }

  /** A sanitised revision holds exactly the entries of the original that
      are not blank: every kept step has a non-blank description and at
      least one minute, every such step is kept, and likewise for the
      requirements and preparation steps. */
  lemma SanitizeEntryKeepsExactlyNonBlank(entry: DrillPlanRevision, minutesOf: string -> int)
    requires SanitizeEntry(entry, minutesOf).Some?
    ensures var r := SanitizeEntry(entry, minutesOf).value;
      (forall s :: s in r.steps <==> s in entry.steps && !Text.IsBlank(s.description) && minutesOf(s.timeAllowed) >= 1) &&
      (forall rr :: rr in r.resourceRequirements <==> rr in entry.resourceRequirements && !Text.IsBlank(rr.description)) &&
      (forall ps :: ps in r.preparationSteps <==> ps in entry.preparationSteps && !Text.IsBlank(ps.description))
  {
    Collection.SanitizeKeepsExactlyNonBlank(entry.steps, StepIsBlank(minutesOf));
    Collection.SanitizeKeepsExactlyNonBlank(entry.resourceRequirements, RequirementIsBlank());
    Collection.SanitizeKeepsExactlyNonBlank(entry.preparationSteps, PrepStepIsBlank());
  }

  /** Sanitising a sanitised revision changes nothing. */
  lemma SanitizeEntryIdempotent(entry: DrillPlanRevision, minutesOf: string -> int)
    requires SanitizeEntry(entry, minutesOf).Some?
    ensures SanitizeEntry(SanitizeEntry(entry, minutesOf).value, minutesOf) == SanitizeEntry(entry, minutesOf)
  {
    Collection.SanitizeIdempotent(entry.steps, StepIsBlank(minutesOf));
    Collection.SanitizeIdempotent(entry.resourceRequirements, RequirementIsBlank());
    Collection.SanitizeIdempotent(entry.preparationSteps, PrepStepIsBlank());
  }

  // ---- the trailing-blank effect ------------------------------------------------

  const BlankStep := DrillStepPlan("", "PT0M")

  /** Each list needs a blank appended when it is empty or its last entry is
      filled in; the test is on the untrimmed text, and a step only counts
      as filled in when it has both a description and a time other than
      `PT0M`. */
  predicate RequirementsNeedBlank(rs: seq<ResourceRequirement>) {
    rs == [] || rs[|rs| - 1].description != ""
  }

  predicate PrepStepsNeedBlank(ps: seq<PreparationStep>) {
    ps == [] || ps[|ps| - 1].description != ""
  }

  predicate StepsNeedBlank(ss: seq<DrillStepPlan>) {
    ss == [] || (ss[|ss| - 1].description != "" && ss[|ss| - 1].timeAllowed != "PT0M")
  }

  predicate Settled(rev: DrillPlanRevision) {
    !RequirementsNeedBlank(rev.resourceRequirements) && !PrepStepsNeedBlank(rev.preparationSteps) &&
    !StepsNeedBlank(rev.steps)
  }

  /** One run of the effect on `revision`: it calls `setRevision` up to three
      times, each time on the revision it started from, so the last call made
      wins and only one list gains its blank per run. `None` when it makes no
      call. */
  function TrailingBlank(rev: DrillPlanRevision): (r: Option<DrillPlanRevision>)
    ensures r.None? <==> Settled(rev)
  {
    if StepsNeedBlank(rev.steps) then Some(rev.(steps := rev.steps + [BlankStep]))
    else if PrepStepsNeedBlank(rev.preparationSteps) then
      Some(rev.(preparationSteps := rev.preparationSteps + [PreparationStep("")]))
    else if RequirementsNeedBlank(rev.resourceRequirements) then
      Some(rev.(resourceRequirements := rev.resourceRequirements + [ResourceRequirement("")]))
    else None
  }

  /** Each `setRevision` spreads the revision the run started from, so a
      later call overwrites the earlier ones: a run that adds the steps'
      blank loses the blanks the other two lists needed, and one that adds
      the preparation steps' blank loses the requirements' blank. */
  lemma EarlierCallsLost(rev: DrillPlanRevision)
    ensures StepsNeedBlank(rev.steps) ==>
      var next := TrailingBlank(rev).value;
      next.steps == rev.steps + [BlankStep] &&
      next.preparationSteps == rev.preparationSteps && next.resourceRequirements == rev.resourceRequirements
    ensures !StepsNeedBlank(rev.steps) && PrepStepsNeedBlank(rev.preparationSteps) ==>
      var next := TrailingBlank(rev).value;
      next.steps == rev.steps && next.preparationSteps == rev.preparationSteps + [PreparationStep("")] &&
      next.resourceRequirements == rev.resourceRequirements
  {
  }

  /** The effect re-runs as long as it changes the revision. */
  function Rerun(rev: DrillPlanRevision, runs: nat): DrillPlanRevision
    decreases runs
  {
    if runs == 0 then rev
    else match TrailingBlank(rev)
      case None => rev
      case Some(next) => Rerun(next, runs - 1)
  }

  /** Where the effect comes to rest: each list gains one blank if it needs one. */
  function Settle(rev: DrillPlanRevision): DrillPlanRevision {
    rev.(
      steps := if StepsNeedBlank(rev.steps) then rev.steps + [BlankStep] else rev.steps,
      preparationSteps := if PrepStepsNeedBlank(rev.preparationSteps)
        then rev.preparationSteps + [PreparationStep("")] else rev.preparationSteps,
      resourceRequirements := if RequirementsNeedBlank(rev.resourceRequirements)
        then rev.resourceRequirements + [ResourceRequirement("")] else rev.resourceRequirements)
  }

  /** How many lists still need their blank. */
  function Needs(rev: DrillPlanRevision): nat {
    (if StepsNeedBlank(rev.steps) then 1 else 0) +
    (if PrepStepsNeedBlank(rev.preparationSteps) then 1 else 0) +
    (if RequirementsNeedBlank(rev.resourceRequirements) then 1 else 0)
  }

  /** One run fixes one list and heads for the same resting point. */
  lemma RunProgresses(rev: DrillPlanRevision)
    requires TrailingBlank(rev).Some?
    ensures Needs(TrailingBlank(rev).value) + 1 == Needs(rev)
    ensures Settle(TrailingBlank(rev).value) == Settle(rev)
  {
    assert !StepsNeedBlank(rev.steps + [BlankStep]);
    assert !PrepStepsNeedBlank(rev.preparationSteps + [PreparationStep("")]);
    assert !RequirementsNeedBlank(rev.resourceRequirements + [ResourceRequirement("")]);
  }

  /** As many runs as there are lists needing a blank reach `Settle(rev)`. */
  lemma {:induction false} RerunSettles(rev: DrillPlanRevision, runs: nat)
    requires runs >= Needs(rev)
    ensures Rerun(rev, runs) == Settle(rev)
    decreases runs
  {
    if TrailingBlank(rev).Some? {
      RunProgresses(rev);
      RerunSettles(TrailingBlank(rev).value, runs - 1);
    }
  }

  /** Three runs of the effect reach `Settle(rev)`, where it stops. */
  lemma EffectSettles(rev: DrillPlanRevision)
    ensures Rerun(rev, 3) == Settle(rev)
    ensures Settled(Settle(rev))
  {
    RerunSettles(rev, 3);
    assert !StepsNeedBlank(rev.steps + [BlankStep]);
    assert !PrepStepsNeedBlank(rev.preparationSteps + [PreparationStep("")]);
    assert !RequirementsNeedBlank(rev.resourceRequirements + [ResourceRequirement("")]);
  }

  /** The blanks the effect appends never reach what a commit stores. */
  lemma SettleKeepsSanitized(rev: DrillPlanRevision, minutesOf: string -> int)
    ensures SanitizeEntry(Settle(rev), minutesOf) == SanitizeEntry(rev, minutesOf)
  {
    Text.BlankIffAllSpace("");
    var st := Settle(rev);
    if StepsNeedBlank(rev.steps) {
      Collection.SanitizeWorking(rev.steps, true, BlankStep, StepIsBlank(minutesOf));
    }
    if PrepStepsNeedBlank(rev.preparationSteps) {
      Collection.SanitizeWorking(rev.preparationSteps, true, PreparationStep(""), PrepStepIsBlank());
    }
    if RequirementsNeedBlank(rev.resourceRequirements) {
      Collection.SanitizeWorking(rev.resourceRequirements, true, ResourceRequirement(""), RequirementIsBlank());
    }
  }

  // ---- committing ---------------------------------------------------------------

  /** `canAmendRevision`: the selected id is that of the latest revision,
      and there is one. */
  predicate CanAmendRevision(selected: Option<int>, count: nat) {
    selected.Some? && selected.value == count && selected.value > 0
  }

  /** `revisions.find(rev => rev.revisionID === id)`. */
  function FindRevision(revisions: seq<DrillPlanRevision>, id: int): (r: Option<nat>)
    ensures r.Some? ==> (r.value < |revisions| && revisions[r.value].revisionID == id &&
      forall j | 0 <= j < r.value :: revisions[j].revisionID != id)
    ensures r.None? ==> forall j | 0 <= j < |revisions| :: revisions[j].revisionID != id
  {
    if revisions == [] then None
    else if revisions[0].revisionID == id then Some(0)
    else match FindRevision(revisions[1..], id)
      case None => None
      case Some(j) => Some(j + 1)
  }

  /** `revisions.map(r => r.revisionID === id ? sanitized : r)`. */
  function ReplaceByID(revisions: seq<DrillPlanRevision>, id: int, s: DrillPlanRevision): seq<DrillPlanRevision> {
    seq(|revisions|, i requires 0 <= i < |revisions| => if revisions[i].revisionID == id then s else revisions[i])
  }

  /** `commitChanges(silentlyAmendLatest)`: the plan handed to the store, or
      `None` when nothing is stored (no plan loaded, nothing to store,
      amendment not allowed, or the revision to amend missing). */
  function CommitPlan(plan: Option<BCPlan>, selected: Option<int>, sanitized: Option<DrillPlanRevision>, amend: bool): (r: Option<BCPlan>)
    ensures r.Some? ==> (plan.Some? && sanitized.Some? && r.value.drillPlan.Some? &&
      r.value.(drillPlan := plan.value.drillPlan) == plan.value)
    ensures !amend ==> (r.Some? <==> plan.Some? && sanitized.Some?)
    ensures amend ==> (r.Some? <==> (plan.Some? && sanitized.Some? &&
      CanAmendRevision(selected, |plan.value.drillPlan.GetOr([])|) &&
      exists j | 0 <= j < |plan.value.drillPlan.GetOr([])| :: plan.value.drillPlan.GetOr([])[j].revisionID == selected.value))
    ensures r.Some? && !amend ==>
      r.value.drillPlan == Some(plan.value.drillPlan.GetOr([]) + [sanitized.value.(revisionID := sanitized.value.revisionID + 1)])
    ensures r.Some? && amend ==>
      r.value.drillPlan == Some(ReplaceByID(plan.value.drillPlan.GetOr([]), selected.value, sanitized.value))
  {
    if plan.None? || sanitized.None? then None
    else
      var revisions := plan.value.drillPlan.GetOr([]);
      if amend then
        if !CanAmendRevision(selected, |revisions|) then None
        else match FindRevision(revisions, selected.value)
          case None => None
          case Some(_) => Some(plan.value.(drillPlan := Some(ReplaceByID(revisions, selected.value, sanitized.value))))
      else
        Some(plan.value.(drillPlan := Some(revisions + [sanitized.value.(revisionID := sanitized.value.revisionID + 1)])))
  }

  /** Revisions numbered 1, 2, … in order, as commits leave them. */
  predicate Numbered(revisions: seq<DrillPlanRevision>) {
    forall i | 0 <= i < |revisions| :: revisions[i].revisionID == i + 1
  }

  /** Saving a new revision from the latest one (or from the blank revision
      numbered with the count) appends it with the next number and keeps the
      earlier revisions as they were. */
  lemma NewRevisionKeepsNumbering(plan: BCPlan, selected: Option<int>, s: DrillPlanRevision)
    requires Numbered(plan.drillPlan.GetOr([])) && s.revisionID == |plan.drillPlan.GetOr([])|
    ensures var r := CommitPlan(Some(plan), selected, Some(s), false);
      r.Some? && Numbered(r.value.drillPlan.value) &&
      r.value.drillPlan.value[..|plan.drillPlan.GetOr([])|] == plan.drillPlan.GetOr([]) &&
      r.value.drillPlan.value[|plan.drillPlan.GetOr([])|] == s.(revisionID := s.revisionID + 1)
  {
  }

  /** On numbered revisions, an amend replaces exactly the latest revision. */
  lemma AmendReplacesLatest(plan: BCPlan, selected: Option<int>, s: DrillPlanRevision)
    requires Numbered(plan.drillPlan.GetOr([]))
    requires CommitPlan(Some(plan), selected, Some(s), true).Some?
    ensures var revs := plan.drillPlan.GetOr([]); var r := CommitPlan(Some(plan), selected, Some(s), true);
      |revs| > 0 && r.value.drillPlan.value == revs[..|revs| - 1] + [s]
  {
    var revs := plan.drillPlan.GetOr([]);
    var r := CommitPlan(Some(plan), selected, Some(s), true);
    assert r.value.drillPlan.value == ReplaceByID(revs, |revs|, s);
    assert ReplaceByID(revs, |revs|, s) == revs[..|revs| - 1] + [s];
  }

  // ---- the delete buttons -----------------------------------------------------

  /** The rule the requirement and preparation-step rows follow: a delete
      button on every row but the last, and only while the list has more
      than one entry (`handleItemDeletion` hands out no handler otherwise). */
  predicate RowDeleteShown(len: nat, idx: nat) {
    idx as int != len - 1 && len > 1
  }

  /** The steps' delete button as written: its "not the last row" test
      compares with the length of the preparation steps. */
  predicate StepDeleteShownAsWritten(rev: DrillPlanRevision, idx: nat) {
    idx as int != |rev.preparationSteps| - 1 && |rev.steps| > 1
  }

  /** The intended steps' delete button: the same rule on the steps' own length. */
  predicate StepDeleteShown(rev: DrillPlanRevision, idx: nat) {
    RowDeleteShown(|rev.steps|, idx)
  }

  /** A settled revision with one real step and an empty preparation list:
      as written the real step has no delete button and the trailing blank
      step has one. */
  lemma StepDeleteGuardMisplaced()
    ensures var rev := Settle(MakeBlank(0, "").(steps := [DrillStepPlan("Call the team", "PT5M")]));
      rev.steps == [DrillStepPlan("Call the team", "PT5M"), BlankStep] &&
      rev.preparationSteps == [PreparationStep("")] &&
      !StepDeleteShownAsWritten(rev, 0) && StepDeleteShownAsWritten(rev, 1) &&
      StepDeleteShown(rev, 0) && !StepDeleteShown(rev, 1)
  {
    var rev := Settle(MakeBlank(0, "").(steps := [DrillStepPlan("Call the team", "PT5M")]));
    assert StepsNeedBlank([DrillStepPlan("Call the team", "PT5M")]);
    assert rev.steps == [DrillStepPlan("Call the team", "PT5M")] + [BlankStep];
    assert rev.preparationSteps == [] + [PreparationStep("")];
  }

  /** On a settled revision every list's delete buttons sit on exactly the
      rows before its trailing blank, which is never deletable. */
  lemma DeleteShownOnRealRows(rev: DrillPlanRevision, idx: nat)
    requires Settled(rev)
    ensures idx < |rev.steps| ==> (StepDeleteShown(rev, idx) <==> idx < |rev.steps| - 1)
    ensures idx < |rev.preparationSteps| ==> (RowDeleteShown(|rev.preparationSteps|, idx) <==> idx < |rev.preparationSteps| - 1)
    ensures idx < |rev.resourceRequirements| ==>
      (RowDeleteShown(|rev.resourceRequirements|, idx) <==> idx < |rev.resourceRequirements| - 1)
    ensures rev.steps[|rev.steps| - 1].description == "" || rev.steps[|rev.steps| - 1].timeAllowed == "PT0M"
    ensures rev.preparationSteps[|rev.preparationSteps| - 1].description == ""
    ensures rev.resourceRequirements[|rev.resourceRequirements| - 1].description == ""
  {
  }

  // ---- the component ---------------------------------------------------------

  /** The three lists of a revision. */
  datatype ListField = Requirements | PrepSteps | Steps

  function ListLength(rev: DrillPlanRevision, field: ListField): nat {
    match field
    case Requirements => |rev.resourceRequirements|
    case PrepSteps => |rev.preparationSteps|
    case Steps => |rev.steps|
  }

  /** A `Partial<BCDrillStepPlan>`. */
  datatype StepPatch = StepPatch(description: Option<string>, timeAllowed: Option<string>)

  /** `{ ...step, ...patch }`. */
  function MergeStep(s: DrillStepPlan, patch: StepPatch): (m: DrillStepPlan)
    ensures m.description == (if patch.description.Some? then patch.description.value else s.description)
    ensures m.timeAllowed == (if patch.timeAllowed.Some? then patch.timeAllowed.value else s.timeAllowed)
  {
    DrillStepPlan(patch.description.GetOr(s.description), patch.timeAllowed.GetOr(s.timeAllowed))
  }

  /** The `EditDrillPlan` component's state. */
  class DrillPlanEditor {
    const minutesOf: string -> int
    var revision: DrillPlanRevision
    var selectedRevisionID: Option<int>
    var sanitized: Option<DrillPlanRevision>

    constructor(minutesOf: string -> int, now: string)
      ensures this.minutesOf == minutesOf
      ensures revision == MakeBlank(0, now) && selectedRevisionID == None && sanitized == None
    {
      this.minutesOf := minutesOf;
      revision := MakeBlank(0, now);
      selectedRevisionID := None;
      sanitized := None;
    }

    /** The effect on `revision`: records the sanitised revision and makes
        the trailing-blank call that wins. */
    method OnRevisionChanged()
      modifies this
      ensures sanitized == SanitizeEntry(old(revision), minutesOf)
      ensures revision == TrailingBlank(old(revision)).GetOr(old(revision))
      ensures selectedRevisionID == old(selectedRevisionID)
    {
      sanitized := SanitizeEntry(revision, minutesOf);
      var next := TrailingBlank(revision);
      if next.Some? {
        revision := next.value;
      }
    }

    /** The effect on the revision count: once the plan is loaded, selects the
        id one past the last index, the id of the latest revision. */
    method OnRevisionCountChanged(loaded: bool, count: nat)
      modifies this
      ensures selectedRevisionID == (if loaded then Some(count as int) else old(selectedRevisionID))
      ensures revision == old(revision) && sanitized == old(sanitized)
    {
      if loaded {
        selectedRevisionID := Some(count);
      }
    }

    /** The effect on the revisions and the selected id: loads the selected
        revision, drops a selection that names no revision, and starts a
        blank revision numbered with the count when nothing is selected. */
    method OnSelectionChanged(revisions: seq<DrillPlanRevision>, now: string)
      modifies this
      ensures old(selectedRevisionID).None? ==>
        revision == MakeBlank(|revisions|, now) && selectedRevisionID == None
      ensures old(selectedRevisionID).Some? ==>
        match FindRevision(revisions, old(selectedRevisionID).value)
        case Some(j) => revision == revisions[j] && selectedRevisionID == old(selectedRevisionID)
        case None => revision == old(revision) && selectedRevisionID == None
      ensures sanitized == old(sanitized)
    {
      if selectedRevisionID.Some? {
        var found := FindRevision(revisions, selectedRevisionID.value);
        if found.Some? {
          revision := revisions[found.value];
        } else {
          selectedRevisionID := None;
        }
      } else {
        revision := MakeBlank(|revisions|, now);
      }
    }

    /** `handleItemDeletion(field)(idx)`: a handler exists only while the
        list has more than one entry; it removes entry `idx`. */
    method DeleteItem(field: ListField, idx: nat) returns (offered: bool)
      modifies this
      ensures offered <==> ListLength(old(revision), field) > 1
      ensures offered ==> match field
        case Requirements => revision == old(revision).(resourceRequirements := Collection.SpliceOut(old(revision).resourceRequirements, idx))
        case PrepSteps => revision == old(revision).(preparationSteps := Collection.SpliceOut(old(revision).preparationSteps, idx))
        case Steps => revision == old(revision).(steps := Collection.SpliceOut(old(revision).steps, idx))
      ensures !offered ==> revision == old(revision)
      ensures selectedRevisionID == old(selectedRevisionID) && sanitized == old(sanitized)
    {
      offered := ListLength(revision, field) > 1;
      if offered {
        match field
        case Requirements =>
          revision := revision.(resourceRequirements := Collection.SpliceOut(revision.resourceRequirements, idx));
        case PrepSteps =>
          revision := revision.(preparationSteps := Collection.SpliceOut(revision.preparationSteps, idx));
        case Steps =>
          revision := revision.(steps := Collection.SpliceOut(revision.steps, idx));
      }
    }

    /** `handleRequirementEdit`. */
    method EditRequirement(idx: nat, req: ResourceRequirement)
      requires idx <= |revision.resourceRequirements|
      modifies this
      ensures revision == old(revision).(resourceRequirements := Collection.Assign(old(revision).resourceRequirements, idx, req))
      ensures selectedRevisionID == old(selectedRevisionID) && sanitized == old(sanitized)
    {
      revision := revision.(resourceRequirements := Collection.Assign(revision.resourceRequirements, idx, req));
    }

    /** `handlePrepStepEdit`. */
    method EditPrepStep(idx: nat, step: PreparationStep)
      requires idx <= |revision.preparationSteps|
      modifies this
      ensures revision == old(revision).(preparationSteps := Collection.Assign(old(revision).preparationSteps, idx, step))
      ensures selectedRevisionID == old(selectedRevisionID) && sanitized == old(sanitized)
    {
      revision := revision.(preparationSteps := Collection.Assign(revision.preparationSteps, idx, step));
    }

    /** `handleStepEdit`: merges the patch into step `idx` only. */
    method EditStep(idx: nat, patch: StepPatch)
      requires idx < |revision.steps|
      modifies this
      ensures |revision.steps| == |old(revision).steps|
      ensures revision.steps[idx] == MergeStep(old(revision).steps[idx], patch)
      ensures forall j | 0 <= j < |revision.steps| && j != idx :: revision.steps[j] == old(revision).steps[j]
      ensures revision == old(revision).(steps := revision.steps)
      ensures selectedRevisionID == old(selectedRevisionID) && sanitized == old(sanitized)
    {
      revision := revision.(steps := revision.steps[idx := MergeStep(revision.steps[idx], patch)]);
    }
  }
}
