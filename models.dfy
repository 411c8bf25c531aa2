/** The records the plan editor works on. The business-continuity drill
    records follow src/models.ts; the plan, revision, procedure, role,
    resource and criteria types are imported by the core from a models
    module that is not part of this model, so they are given here with the
    fields the core reads and writes, and no more. */
module Models {
  import opened Wrappers

  // ---- activation criteria -------------------------------------------------

  /** The composition operator of a criteria group ('all', 'any', 'none'). */
  datatype Operator = All | Any | NoneOf

  /** `CriteriaGroup | string`: a group combining its children with an
      operator, or a free-text leaf predicate. */
  datatype Criterion = Group(require: Operator, criteria: seq<Criterion>) | Leaf(text: string)

  // ---- plans -----------------------------------------------------------------

  /** The resource types, as keyed by the resource panel's icon table. */
  datatype ResourceType = Information | People | Utility | Equipment | Funds | Transportation | Other

  datatype Resource = Resource(rtype: ResourceType, description: string)

  /** A role; a blank responsibility is stored as `undefined`. */
  datatype Role = Role(role: string, responsibility: Option<string>)

  datatype ProcedureStep = ProcedureStep(action: string)

  /** Procedure types are plain strings (the list of them is configuration). */
  type ProcedureType = string

  datatype PlannedProcedure = PlannedProcedure(
    ptype: ProcedureType,
    name: string,
    steps: seq<ProcedureStep>,
    activationCriteria: Criterion,
    requiredResources: seq<Resource>,
    roles: Option<seq<Role>>)

  datatype PlanRevision = PlanRevision(
    timeCreated: string,
    activationCriteria: Criterion,
    requiredResources: seq<Resource>,
    roles: Option<seq<Role>>,
    procedures: Option<seq<PlannedProcedure>>)

  /** A plan; `revisions[0]` is the working (newest) revision. */
  datatype Plan = Plan(id: string, name: string, revisions: seq<PlanRevision>)

  // ---- business-continuity activities, plans and drills (src/models.ts) ------

  /** An instant, as produced by the clock. */
  type Time = int

  datatype Activity = Activity(id: string, description: string, retired: bool)

  datatype ResourceRequirement = ResourceRequirement(description: string)

  datatype PreparationStep = PreparationStep(description: string)

  /** A drill step; `timeAllowed` is an ISO 8601 duration string. */
  datatype DrillStepPlan = DrillStepPlan(description: string, timeAllowed: string)

  datatype DrillPlanRevision = DrillPlanRevision(
    resourceRequirements: seq<ResourceRequirement>,
    preparationSteps: seq<PreparationStep>,
    steps: seq<DrillStepPlan>,
    timeCreated: string,
    revisionID: int)

  datatype BCPlan = BCPlan(
    id: string,
    activityID: string,
    purpose: string,
    drillPlan: Option<seq<DrillPlanRevision>>,
    retired: bool)

  datatype Participant = Participant(id: string, name: string)

  datatype ActivityType = Discussion | Tabletop | Live

  datatype DrillStepReport = DrillStepReport(
    plan: DrillStepPlan,
    responsible: seq<Participant>,
    participants: seq<Participant>,
    result: string,
    activityType: ActivityType,
    startTime: Option<Time>,
    endTime: Option<Time>)

  datatype DrillReport = DrillReport(
    followUpAction: string,
    steps: seq<DrillStepReport>,
    authors: seq<Participant>)

  datatype Drill = Drill(
    id: string,
    bcPlanID: string,
    revisionID: int,
    startTime: Time,
    endTime: Option<Time>,
    report: DrillReport)
}
