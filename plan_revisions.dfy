/** The revision list of the plan editor (src/renderer/plans/plan-revisions.tsx):
    one tree node per revision, newest first, whose id is the revision's
    index written in decimal and parsed back when the node is clicked. */
module PlanRevisions {
  import opened Wrappers
  import opened Models
  import Text

  /** The node's label: the working revision, or "Revision n". */
  datatype RevisionLabel = WorkingRevision | Numbered(number: nat)

  /** A revision node; `timeCreated` is shown as its secondary label (the
      date formatting is not modelled). */
  datatype RevisionNode = RevisionNode(
    id: string, caption: RevisionLabel, isSelected: bool, historyIcon: bool, timeCreated: string)

  /** The caption of node `idx`: "Working revision" for node 0, otherwise
      "Revision n - idx". */
  function LabelOf(count: nat, idx: nat): (l: RevisionLabel)
    requires idx < count
    ensures l == WorkingRevision <==> idx == 0
    ensures l.Numbered? ==> 1 <= l.number < count && l.number + idx == count
  {
    if idx > 0 then Numbered(count - idx) else WorkingRevision
  }

  /** The nodes for `revisions` with `selectedIdx` highlighted. */
  function RevisionNodes(revisions: seq<PlanRevision>, selectedIdx: int): (ns: seq<RevisionNode>)
    ensures |ns| == |revisions|
    ensures |ns| > 0 ==> ns[0].caption == WorkingRevision && !ns[0].historyIcon
    ensures forall i | 0 < i < |ns| :: ns[i].caption.Numbered? && 1 <= ns[i].caption.number <= |ns| - 1
    ensures forall i, j | 0 < i < j < |ns| :: ns[i].caption.number > ns[j].caption.number
    ensures forall i | 0 <= i < |ns| :: ns[i].isSelected <==> i == selectedIdx
    ensures forall i | 0 <= i < |ns| :: ns[i].historyIcon <==> i > 0
    ensures forall i | 0 <= i < |ns| :: ns[i].timeCreated == revisions[i].timeCreated
  {
    seq(|revisions|, i requires 0 <= i < |revisions| =>
      RevisionNode(Text.NatToString(i), LabelOf(|revisions|, i), i == selectedIdx, i > 0,
        revisions[i].timeCreated))
  }

  /** `handleNodeClick`: `parseInt(node.id, 10)`; `None` stands for NaN. */
  function ClickedIndex(id: string): Option<int> {
    Text.ParseInt(id)
  }

  /** Clicking any node selects the revision it was drawn for. */
  lemma ClickSelectsItsRevision(revisions: seq<PlanRevision>, selectedIdx: int, i: nat)
    requires i < |revisions|
    ensures ClickedIndex(RevisionNodes(revisions, selectedIdx)[i].id) == Some(i)
    ensures RevisionNodes(revisions, ClickedIndex(RevisionNodes(revisions, selectedIdx)[i].id).value)[i].isSelected
  {
    Text.ParseNatToString(i);
  }

  /** Node ids are pairwise distinct, so a click identifies one revision. */
  lemma NodeIdsDistinct(revisions: seq<PlanRevision>, selectedIdx: int, i: nat, j: nat)
    requires i < |revisions| && j < |revisions| && i != j
    ensures RevisionNodes(revisions, selectedIdx)[i].id != RevisionNodes(revisions, selectedIdx)[j].id
  {
    Text.ParseNatToString(i);
    Text.ParseNatToString(j);
  }
}
