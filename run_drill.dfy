/** Running a drill (src/renderer/plans/run-drill.tsx): which drill plan is
    in effect, which drill is in progress and which are past, the report a
    new drill starts with, the editing of that report step by step, and the
    per-step Start/End buttons. The clock, the store and the id format are
    parameters: times and drill ids are handed in by the caller. */
module RunDrill {
  import opened Wrappers
  import opened Models
  import Collection

  /** The drill plan in effect: the last revision of the plan's drill plan. */
  function DrillPlanInEffect(plan: Option<BCPlan>): (r: Option<DrillPlanRevision>)
    ensures r.Some? <==> plan.Some? && |plan.value.drillPlan.GetOr([])| > 0
    ensures r.Some? ==> r.value == plan.value.drillPlan.GetOr([])[|plan.value.drillPlan.GetOr([])| - 1]
  {
    if plan.None? then None
    else
      var revisions := plan.value.drillPlan.GetOr([]);
      if |revisions| == 0 then None else Some(revisions[|revisions| - 1])
  }

  /** A drill of this plan, on the given revision, not yet ended. */
  predicate Running(d: Drill, planID: string, revisionID: int) {
    d.bcPlanID == planID && d.revisionID == revisionID && d.endTime.None?
  }

  /** `drills.find(...)`: the first running drill of the plan in effect;
      none without a plan in effect. */
  function DrillInProgress(planID: string, drillPlan: Option<DrillPlanRevision>, drills: seq<Drill>): (r: Option<Drill>)
    ensures drillPlan.None? ==> r.None?
    ensures r.Some? ==> r.value in drills && Running(r.value, planID, drillPlan.value.revisionID)
    ensures drillPlan.Some? && r.None? ==> forall d | d in drills :: !Running(d, planID, drillPlan.value.revisionID)
  {
    if drillPlan.None? || drills == [] then None
    else if Running(drills[0], planID, drillPlan.value.revisionID) then Some(drills[0])
    else DrillInProgress(planID, drillPlan, drills[1..])
  }

  /** The first running drill is the one found. */
  lemma {:induction false} DrillInProgressIsFirst(planID: string, drillPlan: Option<DrillPlanRevision>, drills: seq<Drill>, i: nat)
    requires drillPlan.Some? && i < |drills| && Running(drills[i], planID, drillPlan.value.revisionID)
    requires forall j | 0 <= j < i :: !Running(drills[j], planID, drillPlan.value.revisionID)
    ensures DrillInProgress(planID, drillPlan, drills) == Some(drills[i])
  {
    if i > 0 {
      DrillInProgressIsFirst(planID, drillPlan, drills[1..], i - 1);
    }
  }

  function Ended(planID: string): Drill -> bool {
    (d: Drill) => d.bcPlanID == planID && d.endTime.Some?
  }

  /** `filter(...)` then `reverse()`: the plan's ended drills, latest stored first. */
  function PastDrills(planID: string, drills: seq<Drill>): (r: seq<Drill>) {
    var kept := Collection.Sanitize(drills, (d: Drill) => !Ended(planID)(d));
    seq(|kept|, i requires 0 <= i < |kept| => kept[|kept| - 1 - i])
  }

  /** Past drills are exactly the plan's ended drills, in reverse store order. */
  lemma PastDrillsAreEndedReversed(planID: string, drills: seq<Drill>)
    ensures forall d :: d in PastDrills(planID, drills) <==> d in drills && d.bcPlanID == planID && d.endTime.Some?
    ensures var kept := Collection.Sanitize(drills, (d: Drill) => !Ended(planID)(d));
      |PastDrills(planID, drills)| == |kept| &&
      forall i | 0 <= i < |kept| :: PastDrills(planID, drills)[i] == kept[|kept| - 1 - i]
  {
    var kept := Collection.Sanitize(drills, (d: Drill) => !Ended(planID)(d));
    Collection.SanitizeKeepsExactlyNonBlank(drills, (d: Drill) => !Ended(planID)(d));
    var r := PastDrills(planID, drills);
    forall d ensures d in r <==> d in drills && d.bcPlanID == planID && d.endTime.Some? {
      if d in kept {
        var i :| 0 <= i < |kept| && kept[i] == d;
        assert r[|kept| - 1 - i] == d;
        assert Ended(planID)(d);
      }
      if d in r {
        var i :| 0 <= i < |r| && r[i] == d;
        assert kept[|kept| - 1 - i] == d;
      }
      if d in drills && Ended(planID)(d) {
        assert d in kept;
      }
    }
  }

  // ---- starting and ending -------------------------------------------------------

  datatype DrillError = NoDrillPlan | NoActiveDrill | NoReport

  /** The report a new drill starts with: one untouched step report per
      planned step. */
  function NewStepReport(p: DrillStepPlan): DrillStepReport {
    DrillStepReport(p, [], [], "", Discussion, None, None)
  }

  /** `handleStartDrill`: the drill it stores; throws without a drill plan. */
  function NewDrill(planID: string, drillPlan: Option<DrillPlanRevision>, drillID: string, startTime: Time): (r: Result<Drill, DrillError>)
    ensures r.Err? <==> drillPlan.None?
    ensures r.Ok? ==> (
      var d := r.value;
      d.id == drillID && d.bcPlanID == planID && d.revisionID == drillPlan.value.revisionID &&
      d.startTime == startTime && d.endTime.None? &&
      d.report.followUpAction == "" && d.report.authors == [] &&
      |d.report.steps| == |drillPlan.value.steps| &&
      forall i | 0 <= i < |d.report.steps| ::
        d.report.steps[i].plan == drillPlan.value.steps[i] &&
        d.report.steps[i].responsible == [] && d.report.steps[i].participants == [] &&
        d.report.steps[i].result == "" && d.report.steps[i].activityType == Discussion &&
        d.report.steps[i].startTime.None? && d.report.steps[i].endTime.None?)
  {
    if drillPlan.None? then Err(NoDrillPlan)
    else
      var steps := drillPlan.value.steps;
      Ok(Drill(drillID, planID, drillPlan.value.revisionID, startTime, None,
        DrillReport("", seq(|steps|, i requires 0 <= i < |steps| => NewStepReport(steps[i])), [])))
  }

  /** Start is enabled only with a plan in effect and no drill in progress. */
  predicate StartEnabled(drillPlan: Option<DrillPlanRevision>, inProgress: Option<Drill>) {
    drillPlan.Some? && inProgress.None?
  }

  /** Starting from an enabled button does not throw, and once the new drill
      is stored it is the drill in progress. */
  lemma StartedDrillIsInProgress(planID: string, drillPlan: Option<DrillPlanRevision>, drills: seq<Drill>, drillID: string, startTime: Time)
    requires StartEnabled(drillPlan, DrillInProgress(planID, drillPlan, drills))
    ensures NewDrill(planID, drillPlan, drillID, startTime).Ok?
    ensures DrillInProgress(planID, drillPlan, drills + [NewDrill(planID, drillPlan, drillID, startTime).value])
      == Some(NewDrill(planID, drillPlan, drillID, startTime).value)
  {
    var d := NewDrill(planID, drillPlan, drillID, startTime).value;
    var all := drills + [d];
    forall j | 0 <= j < |drills| ensures !Running(all[j], planID, drillPlan.value.revisionID) {
      assert all[j] == drills[j] && drills[j] in drills;
    }
    DrillInProgressIsFirst(planID, drillPlan, all, |drills|);
  }

  /** `handleEndDrill`: the stored active drill with the local report if
      there is one and the end time set; throws without an active drill. */
  function EndDrill(active: Option<Drill>, report: Option<DrillReport>, endTime: Time): (r: Result<Drill, DrillError>)
    ensures r.Err? <==> active.None?
    ensures r.Ok? ==> (r.value.endTime == Some(endTime) &&
      r.value.report == (if report.Some? then report.value else active.value.report) &&
      r.value.(report := active.value.report, endTime := active.value.endTime) == active.value)
  {
    if active.None? then Err(NoActiveDrill)
    else Ok(active.value.(report := report.GetOr(active.value.report), endTime := Some(endTime)))
  }

  /** An ended drill no longer runs and counts among the plan's past drills
      once stored. */
  lemma EndedDrillIsPast(planID: string, active: Drill, report: Option<DrillReport>, endTime: Time, drills: seq<Drill>)
    requires active.bcPlanID == planID
    requires EndDrill(Some(active), report, endTime).value in drills
    ensures forall rev :: !Running(EndDrill(Some(active), report, endTime).value, planID, rev)
    ensures EndDrill(Some(active), report, endTime).value in PastDrills(planID, drills)
  {
    PastDrillsAreEndedReversed(planID, drills);
  }

  /** `handleSaveReport`: the drill in progress with the local report;
      throws without either. */
  function SaveReport(inProgress: Option<Drill>, report: Option<DrillReport>): (r: Result<Drill, DrillError>)
    ensures r.Err? <==> inProgress.None? || report.None?
    ensures r.Ok? ==> r.value.report == report.value && r.value.(report := inProgress.value.report) == inProgress.value
  {
    if report.None? || inProgress.None? then Err(NoReport)
    else Ok(inProgress.value.(report := report.value))
  }

  // ---- step reports ---------------------------------------------------------------

  /** A `Partial<BCDrillStepReport>` as the step handlers build them. */
  datatype StepPatch = StepPatch(
    responsible: Option<seq<Participant>>, participants: Option<seq<Participant>>,
    result: Option<string>, activityType: Option<ActivityType>,
    startTime: Option<Time>, endTime: Option<Time>)

  const NoChange := StepPatch(None, None, None, None, None, None)

  /** `{ ...step, ...patch }`. */
  function MergeStep(s: DrillStepReport, p: StepPatch): (m: DrillStepReport)
    ensures m.plan == s.plan
    ensures m.responsible == p.responsible.GetOr(s.responsible) && m.participants == p.participants.GetOr(s.participants)
    ensures m.result == p.result.GetOr(s.result) && m.activityType == p.activityType.GetOr(s.activityType)
    ensures m.startTime == (if p.startTime.Some? then p.startTime else s.startTime)
    ensures m.endTime == (if p.endTime.Some? then p.endTime else s.endTime)
  {
    DrillStepReport(s.plan, p.responsible.GetOr(s.responsible), p.participants.GetOr(s.participants),
      p.result.GetOr(s.result), p.activityType.GetOr(s.activityType),
      if p.startTime.Some? then p.startTime else s.startTime,
      if p.endTime.Some? then p.endTime else s.endTime)
  }

  /** A step's Start button: wired (a drill is in progress) and the step
      neither started nor ended. */
  predicate StepStartEnabled(wired: bool, s: DrillStepReport) {
    wired && s.startTime.None? && s.endTime.None?
  }

  /** A step's End button: wired, started and not yet ended. */
  predicate StepEndEnabled(wired: bool, s: DrillStepReport) {
    wired && s.startTime.Some? && s.endTime.None?
  }

  /** A step goes fresh, started, ended: only Start on a fresh step, only
      End on a started one, neither on an ended one. */
  lemma StepLifecycle(p: DrillStepPlan, start: Time, end: Time)
    ensures var initial := NewStepReport(p);
      var started := MergeStep(initial, NoChange.(startTime := Some(start)));
      var ended := MergeStep(started, NoChange.(endTime := Some(end)));
      StepStartEnabled(true, initial) && !StepEndEnabled(true, initial) &&
      !StepStartEnabled(true, started) && StepEndEnabled(true, started) &&
      !StepStartEnabled(true, ended) && !StepEndEnabled(true, ended) &&
      ended.startTime == Some(start) && ended.endTime == Some(end)
  {
  }

  /** What the two handlers do to the buttons of any step: starting a step
      whose Start is enabled leaves only End enabled, and ending a step
      whose End is enabled leaves neither, keeping its start time. */
  lemma StepButtonsFollowHandlers(s: DrillStepReport, now: Time)
    ensures StepStartEnabled(true, s) ==>
      var started := MergeStep(s, NoChange.(startTime := Some(now)));
      !StepStartEnabled(true, started) && StepEndEnabled(true, started)
    ensures StepEndEnabled(true, s) ==>
      var ended := MergeStep(s, NoChange.(endTime := Some(now)));
      !StepStartEnabled(true, ended) && !StepEndEnabled(true, ended) && ended.startTime == s.startTime
  {
  }

  /** `nameToParticipant`; `slug` stands for `slugify(name, {strict, lower})`. */
  function NameToParticipant(slug: string -> string, name: string): (p: Participant)
    ensures p.name == name && p.id == slug(name)
  {
    Participant(slug(name), name)
  }

  /** The `RunDrill` component's report state. */
  class ReportEditor {
    var drillReport: Option<DrillReport>

    constructor()
      ensures drillReport == None
    {
      drillReport := None;
    }

    /** The effect on the drill in progress: loads its report. */
    method OnDrillInProgressChanged(inProgress: Option<Drill>)
      modifies this
      ensures drillReport == (if inProgress.Some? then Some(inProgress.value.report) else old(drillReport))
    {
      if inProgress.Some? {
        drillReport := Some(inProgress.value.report);
      }
    }

    /** The effect on the plan id: drops the report. */
    method OnPlanChanged()
      modifies this
      ensures drillReport == None
    {
      drillReport := None;
    }

    /** Clicking a past drill shows its report. */
    method ShowPastReport(d: Drill)
      modifies this
      ensures drillReport == Some(d.report)
    {
      drillReport := Some(d.report);
    }

    /** `updateStep`: merges the patch into step `idx` only; nothing without
        a report. */
    method UpdateStep(idx: nat, patch: StepPatch)
      requires drillReport.Some? ==> idx < |drillReport.value.steps|
      modifies this
      ensures old(drillReport).None? ==> drillReport == None
      ensures old(drillReport).Some? ==> (
        var before := old(drillReport).value;
        drillReport.Some? && |drillReport.value.steps| == |before.steps| &&
        drillReport.value.steps[idx] == MergeStep(before.steps[idx], patch) &&
        (forall j | 0 <= j < |before.steps| && j != idx :: drillReport.value.steps[j] == before.steps[j]) &&
        drillReport.value.followUpAction == before.followUpAction && drillReport.value.authors == before.authors)
    {
      if drillReport.Some? {
        var steps := drillReport.value.steps;
        steps := steps[idx := MergeStep(steps[idx], patch)];
        drillReport := Some(drillReport.value.(steps := steps));
      }
    }

    /** `handleStepStart`. */
    method HandleStepStart(idx: nat, now: Time)
      requires drillReport.Some? ==> idx < |drillReport.value.steps|
      modifies this
      ensures old(drillReport).None? ==> drillReport == None
      ensures old(drillReport).Some? ==> (drillReport.Some? &&
        drillReport.value == old(drillReport).value.(steps := drillReport.value.steps) &&
        drillReport.value.steps == old(drillReport).value.steps[idx := MergeStep(old(drillReport).value.steps[idx], NoChange.(startTime := Some(now)))])
    {
      UpdateStep(idx, NoChange.(startTime := Some(now)));
    }

    /** `handleStepEnd`. */
    method HandleStepEnd(idx: nat, now: Time)
      requires drillReport.Some? ==> idx < |drillReport.value.steps|
      modifies this
      ensures old(drillReport).None? ==> drillReport == None
      ensures old(drillReport).Some? ==> (drillReport.Some? &&
        drillReport.value == old(drillReport).value.(steps := drillReport.value.steps) &&
        drillReport.value.steps == old(drillReport).value.steps[idx := MergeStep(old(drillReport).value.steps[idx], NoChange.(endTime := Some(now)))])
    {
      UpdateStep(idx, NoChange.(endTime := Some(now)));
    }

    /** `handleAuthorsChange`. */
    method HandleAuthorsChange(slug: string -> string, names: seq<string>)
      modifies this
      ensures old(drillReport).None? ==> drillReport == None
      ensures old(drillReport).Some? ==> (drillReport.Some? &&
        drillReport.value == old(drillReport).value.(authors := drillReport.value.authors) &&
        |drillReport.value.authors| == |names| &&
        forall i | 0 <= i < |names| :: drillReport.value.authors[i] == NameToParticipant(slug, names[i]))
    {
      if drillReport.Some? {
        var authors := seq(|names|, i requires 0 <= i < |names| => NameToParticipant(slug, names[i]));
        drillReport := Some(drillReport.value.(authors := authors));
      }
    }

    /** `handleFollowUpActionUpdate`. */
    method HandleFollowUpActionUpdate(description: string)
      modifies this
      ensures old(drillReport).None? ==> drillReport == None
      ensures old(drillReport).Some? ==> drillReport == Some(old(drillReport).value.(followUpAction := description))
    {
      if drillReport.Some? {
        drillReport := Some(drillReport.value.(followUpAction := description));
      }
    }
  }
}
