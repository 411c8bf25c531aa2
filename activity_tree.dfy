/** The plans window (src/renderer/plans/index.tsx): a tree of business
    activities, each with its continuity plans under it, every list ending
    in an "add" placeholder; path-based selection; the click handler that
    selects a node, enters edit mode on a second click, and picks the plan
    shown in the main pane; and the guards that keep placeholder text from
    being stored. `localeCompare` is an abstract comparison `leq`, and
    `slugify` an abstract `slug` function. */
module ActivityTree {
  import opened Wrappers
  import opened Models
  import Text
  import Collection

  const NewIdPlaceholder := "__new"
  const NewTextPlaceholder := "Add"

  /** The main-pane modules the plan buttons switch between. */
  datatype Module = ShowHistory | RunDrill | EditPlan

  const PlaceholderActivity := Activity(NewIdPlaceholder, "Add activity", false)

  function PlaceholderPlan(activityID: string): BCPlan {
    BCPlan(NewIdPlaceholder, activityID, "Add continuity plan", None, false)
  }

  // ---- ordering ------------------------------------------------------------------

  function ActivityKey(): Activity -> string {
    (a: Activity) => a.id
  }

  function PlanKey(): BCPlan -> string {
    (p: BCPlan) => p.purpose
  }

  /** `orderedActivities`: the activities sorted by id, then the placeholder. */
  function OrderedActivities(activities: seq<Activity>, leq: (string, string) -> bool): (r: seq<Activity>)
    ensures |r| == |activities| + 1 && r[|activities|] == PlaceholderActivity
    ensures multiset(r[..|activities|]) == multiset(activities)
    ensures Collection.Total(leq) ==> Collection.SortedBy(r[..|activities|], ActivityKey(), leq)
  {
    var sorted := Collection.SortBy(activities, ActivityKey(), leq);
    assert (sorted + [PlaceholderActivity])[..|activities|] == sorted;
    sorted + [PlaceholderActivity]
  }

  /** `getPlansForActivity`: the plans of the activity in purpose order,
      then the placeholder. */
  function PlansFor(orderedPlans: seq<BCPlan>, activityID: string): (r: seq<BCPlan>)
    ensures |r| >= 1 && r[|r| - 1] == PlaceholderPlan(activityID)
  {
    Collection.Sanitize(orderedPlans, (p: BCPlan) => p.activityID != activityID) + [PlaceholderPlan(activityID)]
  }

  /** The plans listed under an activity are exactly its own plans (before
      the placeholder). */
  lemma PlansForAreTheActivitysPlans(plans: seq<BCPlan>, leq: (string, string) -> bool, activityID: string)
    ensures var listed := PlansFor(Collection.SortBy(plans, PlanKey(), leq), activityID);
      forall p :: p in listed[..|listed| - 1] <==> p in plans && p.activityID == activityID
  {
    var ordered := Collection.SortBy(plans, PlanKey(), leq);
    var own := Collection.Sanitize(ordered, (p: BCPlan) => p.activityID != activityID);
    Collection.SanitizeKeepsExactlyNonBlank(ordered, (p: BCPlan) => p.activityID != activityID);
    var listed := PlansFor(ordered, activityID);
    assert listed[..|listed| - 1] == own;
    forall p ensures p in own <==> p in plans && p.activityID == activityID {
      assert p in ordered <==> multiset(ordered)[p] > 0;
      assert p in plans <==> multiset(plans)[p] > 0;
    }
  }

  // ---- selection -----------------------------------------------------------------

  predicate ActivityIsSelected(path: seq<int>, idx: nat) {
    |path| == 1 && path[0] == idx
  }

  predicate PlanIsSelected(path: seq<int>, activityIdx: nat, idx: nat) {
    |path| == 2 && path[0] == activityIdx && path[1] == idx
  }

  // ---- nodes ------------------------------------------------------------------------

  /** `nodeData` of a plan node. */
  datatype NodeData = NodeData(bcActivityID: string, bcPlanID: string)

  /** A plan node. `editDefault` is the text the editor opens with; the
      drill, history and edit buttons exist on real plans only, and
      `activeModule` is the one shown pressed. */
  datatype PlanNode = PlanNode(
    id: string, isSelected: bool, isEditing: bool, isPlaceholder: bool, icon: string,
    nodeData: NodeData, caption: string, editDefault: string,
    hasActions: bool, startDrillDisabled: bool, activeModule: Option<Module>)

  /** An activity node; the placeholder has no children. */
  datatype ActivityNode = ActivityNode(
    id: string, isSelected: bool, isEditing: bool, isPlaceholder: bool, icon: string,
    hasCaret: bool, caption: string, editDefault: string, hasActions: bool,
    children: Option<seq<PlanNode>>)

  function PlanNodeFor(activity: Activity, activityIdx: nat, plan: BCPlan, idx: nat, path: seq<int>, editMode: bool, mod: Module): PlanNode {
    var selected := PlanIsSelected(path, activityIdx, idx);
    var placeholder := plan.id == NewIdPlaceholder;
    PlanNode(plan.id, selected, selected && editMode, placeholder,
      if placeholder then "add" else "clipboard",
      NodeData(activity.id, plan.id), plan.purpose,
      if placeholder then "" else plan.purpose,
      !placeholder, |plan.drillPlan.GetOr([])| < 1,
      if selected then Some(mod) else None)
  }

  function ActivityNodeFor(activity: Activity, activityIdx: nat, orderedPlans: seq<BCPlan>, path: seq<int>, editMode: bool, mod: Module): ActivityNode {
    var selected := ActivityIsSelected(path, activityIdx);
    var placeholder := activity.id == NewIdPlaceholder;
    var plans := PlansFor(orderedPlans, activity.id);
    ActivityNode(activity.id, selected, selected && editMode, placeholder,
      if placeholder then "add" else "pulse",
      !placeholder && |plans| > 0, activity.description,
      if placeholder then "" else activity.description, !placeholder,
      if placeholder then None
      else Some(seq(|plans|, j requires 0 <= j < |plans| => PlanNodeFor(activity, activityIdx, plans[j], j, path, editMode, mod))))
  }

  /** `buildAcitvityNodes`. */
  function BuildActivityNodes(activities: seq<Activity>, plans: seq<BCPlan>, path: seq<int>, editMode: bool, mod: Module,
                              leq: (string, string) -> bool): (ns: seq<ActivityNode>)
    ensures |ns| == |activities| + 1
  {
    var ordered := OrderedActivities(activities, leq);
    var orderedPlans := Collection.SortBy(plans, PlanKey(), leq);
    seq(|ordered|, i requires 0 <= i < |ordered| => ActivityNodeFor(ordered[i], i, orderedPlans, path, editMode, mod))
  }

  /** The tree lists every activity once, in id order, then a placeholder
      without children; a real activity always shows its caret, and its
      children end in a placeholder and carry the plan's id in `nodeData`. */
  lemma TreeShape(activities: seq<Activity>, plans: seq<BCPlan>, path: seq<int>, editMode: bool, mod: Module, leq: (string, string) -> bool)
    ensures var ns := BuildActivityNodes(activities, plans, path, editMode, mod, leq);
      var ordered := OrderedActivities(activities, leq);
      ns[|activities|].isPlaceholder && ns[|activities|].children.None? && !ns[|activities|].hasActions &&
      (forall i | 0 <= i < |ns| :: ns[i].id == ordered[i].id) &&
      (forall i | 0 <= i < |ns| && !ns[i].isPlaceholder ::
        ns[i].hasCaret && ns[i].children.Some? &&
        |ns[i].children.value| >= 1 &&
        ns[i].children.value[|ns[i].children.value| - 1].isPlaceholder &&
        forall j | 0 <= j < |ns[i].children.value| ::
          ns[i].children.value[j].nodeData.bcActivityID == ns[i].id &&
          ns[i].children.value[j].nodeData.bcPlanID == ns[i].children.value[j].id)
  {
  }

  /** Selecting by path: the node at `[i]`, or the plan at `[i, j]`, is the
      only node shown selected, and it is being edited exactly in edit mode. */
  lemma SelectionFollowsPath(activities: seq<Activity>, plans: seq<BCPlan>, path: seq<int>, editMode: bool, mod: Module, leq: (string, string) -> bool)
    ensures var ns := BuildActivityNodes(activities, plans, path, editMode, mod, leq);
      (forall i | 0 <= i < |ns| :: (ns[i].isSelected <==> path == [i]) && (ns[i].isEditing <==> path == [i] && editMode)) &&
      (forall i | 0 <= i < |ns| && ns[i].children.Some? ::
        forall j | 0 <= j < |ns[i].children.value| ::
          (ns[i].children.value[j].isSelected <==> path == [i, j]) &&
          (ns[i].children.value[j].isEditing <==> path == [i, j] && editMode))
  {
  }

  /** At most one node of the whole tree is selected. */
  lemma AtMostOneSelected(activities: seq<Activity>, plans: seq<BCPlan>, path: seq<int>, editMode: bool, mod: Module, leq: (string, string) -> bool)
    ensures var ns := BuildActivityNodes(activities, plans, path, editMode, mod, leq);
      (forall i, k | 0 <= i < k < |ns| :: !(ns[i].isSelected && ns[k].isSelected)) &&
      (forall i, k | 0 <= i < |ns| && 0 <= k < |ns| && ns[k].children.Some? && ns[i].isSelected ::
        forall j | 0 <= j < |ns[k].children.value| :: !ns[k].children.value[j].isSelected) &&
      (forall i, k | 0 <= i < |ns| && 0 <= k < |ns| && ns[i].children.Some? && ns[k].children.Some? ::
        forall j, l | 0 <= j < |ns[i].children.value| && 0 <= l < |ns[k].children.value| &&
          ns[i].children.value[j].isSelected && ns[k].children.value[l].isSelected :: i == k && j == l)
  {
    SelectionFollowsPath(activities, plans, path, editMode, mod, leq);
  }

  // ---- storing edits ---------------------------------------------------------------

  /** What an update does with the store. */
  datatype StoreAction<T> = Skip | Create(created: T) | Update(updated: T)

  /** `handleActivityUpdate`: a placeholder is created under a slug of its
      description unless the text is the placeholder text or blank; a real
      activity is updated. */
  function ActivityUpdate(activity: Activity, slug: string -> string): (r: StoreAction<Activity>)
    ensures r.Skip? <==> activity.id == NewIdPlaceholder && (activity.description == NewTextPlaceholder || Text.IsBlank(activity.description))
    ensures r.Create? <==> activity.id == NewIdPlaceholder && activity.description != NewTextPlaceholder && !Text.IsBlank(activity.description)
    ensures r.Create? ==> r.created == activity.(id := slug(activity.description))
    ensures r.Update? ==> r.updated == activity
  {
    if activity.id == NewIdPlaceholder then
      if activity.description == NewTextPlaceholder || Text.IsBlank(activity.description) then Skip
      else Create(activity.(id := slug(activity.description)))
    else Update(activity)
  }

  /** `handlePlanUpdate`, the same rule on a plan's purpose. */
  function PlanUpdate(plan: BCPlan, slug: string -> string): (r: StoreAction<BCPlan>)
    ensures r.Skip? <==> plan.id == NewIdPlaceholder && (plan.purpose == NewTextPlaceholder || Text.IsBlank(plan.purpose))
    ensures r.Create? <==> plan.id == NewIdPlaceholder && plan.purpose != NewTextPlaceholder && !Text.IsBlank(plan.purpose)
    ensures r.Create? ==> r.created == plan.(id := slug(plan.purpose))
    ensures r.Update? ==> r.updated == plan
  {
    if plan.id == NewIdPlaceholder then
      if plan.purpose == NewTextPlaceholder || Text.IsBlank(plan.purpose) then Skip
      else Create(plan.(id := slug(plan.purpose)))
    else Update(plan)
  }

  /** Confirming a placeholder untouched stores nothing: its editor opens
      empty, and white space alone is blank. */
  lemma UntouchedPlaceholderIsSkipped(activityID: string, slug: string -> string, typed: string)
    requires Text.AllSpace(typed)
    ensures PlanUpdate(PlaceholderPlan(activityID).(purpose := typed), slug).Skip?
    ensures ActivityUpdate(PlaceholderActivity.(description := typed), slug).Skip?
  {
    Text.BlankIffAllSpace(typed);
  }

  // ---- the main pane ------------------------------------------------------------------

  datatype MainPane = NoPlanSelected | RunDrillPane(planID: string) | HistoryPane(planID: string) | EditPlanPane(planID: string)

  /** The main pane: nothing without a selected plan, else the module chosen. */
  function MainPaneFor(selectedPlanID: Option<string>, mod: Module): (p: MainPane)
    ensures p.NoPlanSelected? <==> selectedPlanID.None?
    ensures p.RunDrillPane? <==> selectedPlanID.Some? && mod == RunDrill
    ensures p.HistoryPane? <==> selectedPlanID.Some? && mod == ShowHistory
    ensures p.EditPlanPane? <==> selectedPlanID.Some? && mod == EditPlan
    ensures !p.NoPlanSelected? ==> p.planID == selectedPlanID.value
  {
    if selectedPlanID.None? then NoPlanSelected
    else match mod
      case RunDrill => RunDrillPane(selectedPlanID.value)
      case ShowHistory => HistoryPane(selectedPlanID.value)
      case EditPlan => EditPlanPane(selectedPlanID.value)
  }

  // ---- the window's state ---------------------------------------------------------------

  /** The `Window` component's selection state. */
  class Window {
    var selectedNode: seq<int>
    var editMode: bool
    var selectedPlanID: Option<string>
    var mod: Module

    constructor()
      ensures selectedNode == [] && !editMode && selectedPlanID == None && mod == EditPlan
    {
      selectedNode := [];
      editMode := false;
      selectedPlanID := None;
      mod := EditPlan;
    }

    /** `handleNodeClick`, with the effect that leaves edit mode whenever the
        selection changes (the deferred `setEditMode(true)` of a placeholder
        click runs after it). A second click on the selected node enters
        edit mode; a placeholder click selects it for editing and clears the
        plan; any other click selects the node and the plan its `nodeData`
        names, if any. */
    method HandleNodeClick(nodeID: string, nodeData: Option<NodeData>, nodePath: seq<int>)
      modifies this
      ensures old(selectedNode) == nodePath ==>
        editMode && selectedNode == old(selectedNode) && selectedPlanID == old(selectedPlanID)
      ensures old(selectedNode) != nodePath && nodeID == NewIdPlaceholder ==>
        selectedNode == nodePath && editMode && selectedPlanID == None
      ensures old(selectedNode) != nodePath && nodeID != NewIdPlaceholder ==>
        selectedNode == nodePath && !editMode &&
        selectedPlanID == (if nodeData.Some? && nodeData.value.bcPlanID != "" then Some(nodeData.value.bcPlanID) else None)
      ensures mod == old(mod)
    {
      if selectedNode == nodePath {
        editMode := true;
      } else if nodeID == NewIdPlaceholder {
        selectedPlanID := None;
        SelectNode(nodePath);
        editMode := true;
      } else {
        if nodeData.Some? && nodeData.value.bcPlanID != "" {
          selectedPlanID := Some(nodeData.value.bcPlanID);
        } else {
          selectedPlanID := None;
        }
        SelectNode(nodePath);
      }
    }

    /** `selectNode` followed by the effect on the selection. */
    method SelectNode(path: seq<int>)
      modifies this
      ensures selectedNode == path
      ensures editMode == (if path == old(selectedNode) then old(editMode) else false)
      ensures selectedPlanID == old(selectedPlanID) && mod == old(mod)
    {
      if path != selectedNode {
        editMode := false;
      }
      selectedNode := path;
    }

    /** The editor's confirm on a plan node: leaves edit mode and stores the
        plan; creating one resets the selection. */
    method ConfirmPlan(plan: BCPlan, purpose: string, slug: string -> string) returns (action: StoreAction<BCPlan>)
      modifies this
      ensures action == PlanUpdate(plan.(purpose := purpose), slug)
      ensures !editMode
      ensures selectedNode == (if action.Create? then [] else old(selectedNode))
      ensures selectedPlanID == old(selectedPlanID) && mod == old(mod)
    {
      editMode := false;
      action := PlanUpdate(plan.(purpose := purpose), slug);
      if action.Create? {
        SelectNode([]);
      }
    }

    /** The editor's confirm on an activity node. */
    method ConfirmActivity(activity: Activity, description: string, slug: string -> string) returns (action: StoreAction<Activity>)
      modifies this
      ensures action == ActivityUpdate(activity.(description := description), slug)
      ensures !editMode && selectedNode == old(selectedNode)
      ensures selectedPlanID == old(selectedPlanID) && mod == old(mod)
    {
      editMode := false;
      action := ActivityUpdate(activity.(description := description), slug);
    }

    /** The drill, history and edit buttons of a plan node. */
    method SetModule(m: Module)
      modifies this
      ensures mod == m && selectedNode == old(selectedNode) && editMode == old(editMode) && selectedPlanID == old(selectedPlanID)
    {
      mod := m;
    }
  }

  /** Clicking a node that is not selected selects exactly that node in the
      rebuilt tree, outside edit mode unless it is a placeholder. */
  method ClickSelectsNode(w: Window, activities: seq<Activity>, plans: seq<BCPlan>, leq: (string, string) -> bool, i: nat)
    requires i < |activities| + 1 && w.selectedNode != [i]
    modifies w
    ensures var ns := BuildActivityNodes(activities, plans, w.selectedNode, w.editMode, w.mod, leq);
      ns[i].isSelected && (ns[i].isEditing <==> ns[i].id == NewIdPlaceholder) &&
      forall k | 0 <= k < |ns| && k != i :: !ns[k].isSelected
  {
    var ns := BuildActivityNodes(activities, plans, w.selectedNode, w.editMode, w.mod, leq);
    w.HandleNodeClick(ns[i].id, None, [i]);
    SelectionFollowsPath(activities, plans, w.selectedNode, w.editMode, w.mod, leq);
  }
}
