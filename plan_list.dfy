/** The plan list (src/renderer/plans/plan-list.tsx): the plans sorted by
    name, then an "add" placeholder holding one blank revision, with the
    plan at `[0, idx]` selected. The placeholder id and the blank revision
    come from files outside this model and are parameters here; `leq`
    stands for `localeCompare`. */
module PlanList {
  import opened Models
  import Collection

  /** A node of the plan list. `editDefault` is the text the name editor
      opens with; only real plans carry the "more" menu. */
  datatype PlanListNode = PlanListNode(
    id: string, isSelected: bool, isEditing: bool, isPlaceholder: bool, icon: string,
    bcPlanID: string, caption: string, editDefault: string, hasMenu: bool)

  function NameKey(): Plan -> string {
    (p: Plan) => p.name
  }

  function Placeholder(placeholderID: string, blankRevision: PlanRevision): Plan {
    Plan(placeholderID, "Add continuity plan", [blankRevision])
  }

  /** `orderedPlans`. */
  function OrderedPlans(plans: seq<Plan>, placeholderID: string, blankRevision: PlanRevision, leq: (string, string) -> bool): (r: seq<Plan>)
    ensures |r| == |plans| + 1 && r[|plans|] == Placeholder(placeholderID, blankRevision)
    ensures multiset(r[..|plans|]) == multiset(plans)
    ensures Collection.Total(leq) ==> Collection.SortedBy(r[..|plans|], NameKey(), leq)
  {
    var sorted := Collection.SortBy(plans, NameKey(), leq);
    assert (sorted + [Placeholder(placeholderID, blankRevision)])[..|plans|] == sorted;
    sorted + [Placeholder(placeholderID, blankRevision)]
  }

  predicate PlanIsSelected(path: seq<int>, idx: nat) {
    |path| == 2 && path[0] == 0 && path[1] == idx
  }

  function NodeFor(plan: Plan, idx: nat, path: seq<int>, editMode: bool, placeholderID: string): PlanListNode {
    var selected := PlanIsSelected(path, idx);
    var placeholder := plan.id == placeholderID;
    PlanListNode(plan.id, selected, selected && editMode, placeholder,
      if placeholder then "add" else "manual", plan.id, plan.name,
      if placeholder then "" else plan.name, !placeholder)
  }

  /** `buildPlanNodes`. */
  function BuildPlanNodes(plans: seq<Plan>, path: seq<int>, editMode: bool, placeholderID: string,
                          blankRevision: PlanRevision, leq: (string, string) -> bool): (ns: seq<PlanListNode>)
    ensures |ns| == |plans| + 1
  {
    var ordered := OrderedPlans(plans, placeholderID, blankRevision, leq);
    seq(|ordered|, i requires 0 <= i < |ordered| => NodeFor(ordered[i], i, path, editMode, placeholderID))
  }

  /** The list shows every plan once, in name order, then the placeholder
      with the "add" icon and no menu; every node names its plan in
      `nodeData`; the node at `[0, i]` alone is selected, and it is being
      edited exactly in edit mode. */
  lemma PlanNodesShape(plans: seq<Plan>, path: seq<int>, editMode: bool, placeholderID: string,
                       blankRevision: PlanRevision, leq: (string, string) -> bool)
    ensures var ns := BuildPlanNodes(plans, path, editMode, placeholderID, blankRevision, leq);
      var ordered := OrderedPlans(plans, placeholderID, blankRevision, leq);
      multiset(ordered[..|plans|]) == multiset(plans) &&
      (Collection.Total(leq) ==> Collection.SortedBy(ordered[..|plans|], NameKey(), leq)) &&
      ns[|plans|].isPlaceholder && ns[|plans|].icon == "add" && !ns[|plans|].hasMenu &&
      ns[|plans|].editDefault == "" &&
      (forall i | 0 <= i < |ns| :: ns[i].id == ordered[i].id && ns[i].bcPlanID == ordered[i].id) &&
      (forall i | 0 <= i < |ns| :: (ns[i].isSelected <==> path == [0, i]) && (ns[i].isEditing <==> path == [0, i] && editMode)) &&
      (forall i | 0 <= i < |ns| && !ns[i].isPlaceholder :: ns[i].icon == "manual" && ns[i].hasMenu && ns[i].editDefault == ordered[i].name)
  {
  }

  /** At most one node is selected. */
  lemma AtMostOneSelected(plans: seq<Plan>, path: seq<int>, editMode: bool, placeholderID: string,
                          blankRevision: PlanRevision, leq: (string, string) -> bool)
    ensures var ns := BuildPlanNodes(plans, path, editMode, placeholderID, blankRevision, leq);
      forall i, k | 0 <= i < k < |ns| :: !(ns[i].isSelected && ns[k].isSelected)
  {
    PlanNodesShape(plans, path, editMode, placeholderID, blankRevision, leq);
  }
}
