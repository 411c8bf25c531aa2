/** The procedures panel (src/renderer/plans/procedures-panel.tsx): the
    plan's procedures grouped by type while keeping their indices in the
    full list, the trailing placeholder row per type in edit mode, the
    click handler and the panel's edit-mode state. */
module ProceduresPanel {
  import opened Wrappers
  import opened Models
  import Text

  /** `PlannedProcedure & { idx }`: a procedure tagged with its index in
      the plan's list (-1 for the placeholder row). */
  datatype Indexed = Indexed(proc: PlannedProcedure, idx: int)

  /** The procedures of `procs` from index `from` on whose type is `pt`,
      each tagged with its index, in their original order. */
  function TaggedFrom(procs: seq<PlannedProcedure>, from: nat, pt: ProcedureType): (r: seq<Indexed>)
    requires from <= |procs|
    ensures forall k | 0 <= k < |r| ::
      from <= r[k].idx < |procs| && procs[r[k].idx] == r[k].proc && r[k].proc.ptype == pt
    ensures forall k, l | 0 <= k < l < |r| :: r[k].idx < r[l].idx
    decreases |procs| - from
  {
    if from == |procs| then []
    else if procs[from].ptype == pt then
      var rest := TaggedFrom(procs, from + 1, pt);
      var r := [Indexed(procs[from], from)] + rest;
      assert forall k | 0 <= k < |rest| :: r[k + 1] == rest[k];
      r
    else TaggedFrom(procs, from + 1, pt)
  }

  /** No procedure of the type is missed: each one from `from` on is
      tagged somewhere in the list. */
  lemma {:induction false} TaggedFromComplete(procs: seq<PlannedProcedure>, from: nat, pt: ProcedureType, i: nat)
    requires from <= i < |procs| && procs[i].ptype == pt
    ensures exists k | 0 <= k < |TaggedFrom(procs, from, pt)| :: TaggedFrom(procs, from, pt)[k].idx == i
    decreases i - from
  {
    var r := TaggedFrom(procs, from, pt);
    if i == from {
      assert r[0].idx == i;
    } else {
      TaggedFromComplete(procs, from + 1, pt, i);
      var rest := TaggedFrom(procs, from + 1, pt);
      var k :| 0 <= k < |rest| && rest[k].idx == i;
      if procs[from].ptype == pt {
        assert r[k + 1] == rest[k];
      } else {
        assert r[k] == rest[k];
      }
    }
  }

  /** `getProceduresForType(pt)`: exactly the procedures of type `pt`, in
      order, each tagged with its index in the full list. */
  function ForType(procs: seq<PlannedProcedure>, pt: ProcedureType): (r: seq<Indexed>)
    ensures forall k | 0 <= k < |r| ::
      0 <= r[k].idx < |procs| && procs[r[k].idx] == r[k].proc && r[k].proc.ptype == pt
    ensures forall k, l | 0 <= k < l < |r| :: r[k].idx < r[l].idx
    ensures forall i | 0 <= i < |procs| && procs[i].ptype == pt :: exists k | 0 <= k < |r| :: r[k].idx == i
  {
    var r := TaggedFrom(procs, 0, pt);
    assert forall i | 0 <= i < |procs| && procs[i].ptype == pt :: exists k | 0 <= k < |r| :: r[k].idx == i by {
      forall i | 0 <= i < |procs| && procs[i].ptype == pt
        ensures exists k | 0 <= k < |r| :: r[k].idx == i
      {
        TaggedFromComplete(procs, 0, pt, i);
      }
    }
    r
  }

  /** The types listed: all of them in edit mode, otherwise those that
      have at least one procedure, in the configured order. */
  function ListedTypes(procs: seq<PlannedProcedure>, types: seq<ProcedureType>, editMode: bool): (r: seq<ProcedureType>)
    ensures forall t :: t in r <==> t in types && (editMode || |ForType(procs, t)| > 0)
    ensures |r| <= |types|
  {
    if types == [] then []
    else
      var rest := ListedTypes(procs, types[1..], editMode);
      if editMode || |ForType(procs, types[0])| > 0 then [types[0]] + rest else rest
  }

  /** A type is listed outside edit mode exactly when some procedure has it. */
  lemma ListedTypeHasProcedure(procs: seq<PlannedProcedure>, types: seq<ProcedureType>, t: ProcedureType)
    requires t in types
    ensures t in ListedTypes(procs, types, false) <==> exists i | 0 <= i < |procs| :: procs[i].ptype == t
  {
    var r := ForType(procs, t);
    if exists i | 0 <= i < |procs| :: procs[i].ptype == t {
      var i :| 0 <= i < |procs| && procs[i].ptype == t;
      var k :| 0 <= k < |r| && r[k].idx == i;
    }
    if |r| > 0 {
      assert procs[r[0].idx].ptype == t;
    }
  }

  /** What the panel's rendering reads besides the procedures. */
  datatype ViewCtx = ViewCtx(
    editMode: bool,
    selectedPath: seq<nat>,
    selectedIdx: Option<int>,
    hasOnAdd: bool,
    hasOnDelete: bool,
    placeholderName: string,   // NEW_LABEL_PLACEHOLDER
    blank: Criterion)          // makeBlankCriteria()

  /** `placeholderItem`. */
  function Placeholder(ctx: ViewCtx): Indexed {
    Indexed(PlannedProcedure("other", ctx.placeholderName, [], ctx.blank, [], None), -1)
  }

  /** A procedure row. */
  datatype ProcNode = ProcNode(
    ptype: ProcedureType,
    pos: nat,              // id `procedure-${pt}-${pos}`
    procIdx: int,          // nodeData.procIdx
    name: string,
    isPlaceholder: bool,
    isSelected: bool,
    canDelete: bool,
    nameEditor: bool)      // the new-name editor replaces the label

  /** A type folder with its rows. */
  datatype TypeNode = TypeNode(ptype: ProcedureType, children: seq<ProcNode>)

  /** Row `pos` of type `pt`, listed at `ptIdx`. */
  function Row(p: Indexed, pos: nat, pt: ProcedureType, ptIdx: nat, ctx: ViewCtx): ProcNode
  {
    var typeIsSelected := |ctx.selectedPath| > 0 && ctx.selectedPath[0] == ptIdx;
    var isPlaceholder := ctx.editMode && p.proc.name == ctx.placeholderName;
    var isSelected := (typeIsSelected && |ctx.selectedPath| > 1 && ctx.selectedPath[1] == pos)
                      || ctx.selectedIdx == Some(p.idx);
    ProcNode(pt, pos, p.idx, p.proc.name, isPlaceholder, isSelected,
             ctx.editMode && ctx.hasOnDelete && !isPlaceholder,
             isPlaceholder && isSelected && ctx.hasOnAdd)
  }

  /** The rows of a type: its procedures, then the placeholder in edit mode. */
  function Rows(procs: seq<PlannedProcedure>, pt: ProcedureType, ptIdx: nat, ctx: ViewCtx): seq<ProcNode>
  {
    var ps := ForType(procs, pt) + (if ctx.editMode then [Placeholder(ctx)] else []);
    seq(|ps|, k requires 0 <= k < |ps| => Row(ps[k], k, pt, ptIdx, ctx))
  }

  /** The panel: `None` for the empty state (no procedures, not editing),
      otherwise one folder per listed type. */
  function Panel(procs: seq<PlannedProcedure>, types: seq<ProcedureType>, ctx: ViewCtx): Option<seq<TypeNode>>
  {
    if !ctx.editMode && |procs| < 1 then None
    else
      var listed := ListedTypes(procs, types, ctx.editMode);
      Some(seq(|listed|, j requires 0 <= j < |listed| => TypeNode(listed[j], Rows(procs, listed[j], j, ctx))))
  }

  /** Every row before the placeholder shows a procedure of its folder's
      type with the index that selects it (so in the order of the plan); in
      edit mode the folder ends with the placeholder, tagged -1. */
  lemma RowsShowProcedures(procs: seq<PlannedProcedure>, pt: ProcedureType, ptIdx: nat, ctx: ViewCtx)
    ensures var rows := Rows(procs, pt, ptIdx, ctx); var n := |ForType(procs, pt)|;
      |rows| == n + (if ctx.editMode then 1 else 0) &&
      (forall k | 0 <= k < n ::
        rows[k].procIdx == ForType(procs, pt)[k].idx &&
        0 <= rows[k].procIdx < |procs| && procs[rows[k].procIdx].ptype == pt &&
        rows[k].name == procs[rows[k].procIdx].name && rows[k].pos == k) &&
      (ctx.editMode ==> rows[n].procIdx == -1 && rows[n].isPlaceholder && !rows[n].canDelete)
  {
    var tagged := ForType(procs, pt);
    var ps := tagged + (if ctx.editMode then [Placeholder(ctx)] else []);
    var rows := Rows(procs, pt, ptIdx, ctx);
    forall k | 0 <= k < |tagged|
      ensures rows[k].procIdx == tagged[k].idx && rows[k].name == tagged[k].proc.name && rows[k].pos == k
    {
      assert ps[k] == tagged[k];
      assert rows[k] == Row(ps[k], k, pt, ptIdx, ctx);
    }
    if ctx.editMode {
      assert ps[|tagged|] == Placeholder(ctx);
      assert rows[|tagged|] == Row(ps[|tagged|], |tagged|, pt, ptIdx, ctx);
    }
  }

  /** A row is selected exactly when the remembered path points at it or
      it shows the selected procedure. */
  lemma RowSelectedWhen(procs: seq<PlannedProcedure>, pt: ProcedureType, ptIdx: nat, ctx: ViewCtx, k: nat)
    requires k < |Rows(procs, pt, ptIdx, ctx)|
    ensures var row := Rows(procs, pt, ptIdx, ctx)[k];
      row.isSelected <==> (|ctx.selectedPath| > 1 && ctx.selectedPath[0] == ptIdx && ctx.selectedPath[1] == k)
                          || ctx.selectedIdx == Some(row.procIdx)
  {
    var ps := ForType(procs, pt) + (if ctx.editMode then [Placeholder(ctx)] else []);
    assert Rows(procs, pt, ptIdx, ctx)[k] == Row(ps[k], k, pt, ptIdx, ctx);
  }

  /** Delete is offered only in edit mode with `onDelete`, and never on a
      placeholder row. */
  lemma DeleteOfferedOnlyOnProcedures(procs: seq<PlannedProcedure>, pt: ProcedureType, ptIdx: nat, ctx: ViewCtx, k: nat)
    requires k < |Rows(procs, pt, ptIdx, ctx)|
    ensures var row := Rows(procs, pt, ptIdx, ctx)[k];
      row.canDelete <==> ctx.editMode && ctx.hasOnDelete && row.name != ctx.placeholderName
  {
    var ps := ForType(procs, pt) + (if ctx.editMode then [Placeholder(ctx)] else []);
    assert Rows(procs, pt, ptIdx, ctx)[k] == Row(ps[k], k, pt, ptIdx, ctx);
  }

  /** The placeholder's new-name editor: a non-blank name adds a procedure
      of the folder's type with no steps, no resources, blank criteria and
      no roles; the name is kept as typed. */
  function NewProcedure(pt: ProcedureType, name: string, blank: Criterion): (r: Option<PlannedProcedure>)
    ensures r.Some? <==> !Text.IsBlank(name)
    ensures r.Some? ==> r.value.ptype == pt && r.value.name == name && r.value.steps == [] &&
                        r.value.requiredResources == [] && r.value.activationCriteria == blank &&
                        r.value.roles == None
  {
    if Text.Trim(name) != "" then Some(PlannedProcedure(pt, name, [], blank, [], None)) else None
  }

  /** The panel's own state and the calls it makes to its parent. */
  class PanelState {
    /** `selectedNodePath`. */
    var selectedPath: seq<nat>
    /** The panel context's `editMode` and `canEdit`. */
    var editMode: bool
    var canEdit: bool
    /** Arguments of the `onSelect` calls, oldest first (`None` is `null`). */
    var selections: seq<Option<int>>
    /** Arguments of the `onAdd` and `onDelete` calls. */
    var added: seq<PlannedProcedure>
    var deleted: seq<int>

    constructor()
      ensures selectedPath == [] && !editMode && !canEdit
      ensures selections == [] && added == [] && deleted == []
    {
      selectedPath := [];
      editMode := false;
      canEdit := false;
      selections := [];
      added := [];
      deleted := [];
    }

    /** The effect on `onAdd`: without it the panel cannot edit and leaves
        edit mode; with it editing becomes possible. */
    method SyncOnAdd(hasOnAdd: bool)
      modifies this
      ensures !hasOnAdd ==> !editMode && !canEdit
      ensures hasOnAdd ==> canEdit && editMode == old(editMode)
      ensures selections == old(selections) && added == old(added) && deleted == old(deleted)
      ensures old(editMode) != editMode ==> selectedPath == []
      ensures old(editMode) == editMode ==> selectedPath == old(selectedPath)
    {
      if !hasOnAdd {
        SetEditMode(false);
        canEdit := false;
      } else {
        canEdit := true;
      }
    }

    /** Sets edit mode; the effect on `editMode` then clears the selected path. */
    method SetEditMode(on: bool)
      modifies this
      ensures editMode == on && canEdit == old(canEdit)
      ensures old(editMode) != on ==> selectedPath == []
      ensures old(editMode) == on ==> selectedPath == old(selectedPath)
      ensures selections == old(selections) && added == old(added) && deleted == old(deleted)
    {
      if editMode != on {
        selectedPath := [];
      }
      editMode := on;
    }

    /** The edit toggle (offered only when the panel can edit). */
    method ToggleEditMode()
      requires canEdit
      modifies this
      ensures editMode == !old(editMode) && selectedPath == [] && canEdit
      ensures selections == old(selections) && added == old(added) && deleted == old(deleted)
    {
      SetEditMode(!editMode);
    }

    /** `handleNodeClick`: folders (depth 1) are ignored; a procedure row
        selects its procedure and forgets the path; the placeholder
        deselects and remembers its path; a row without an index deselects. */
    method HandleNodeClick(nodePath: seq<nat>, procIdx: Option<int>)
      modifies this
      ensures |nodePath| <= 1 ==> selections == old(selections) && selectedPath == old(selectedPath)
      ensures |nodePath| > 1 && procIdx.Some? && procIdx.value >= 0 ==>
        selections == old(selections) + [procIdx] && selectedPath == []
      ensures |nodePath| > 1 && procIdx == Some(-1) ==>
        selections == old(selections) + [None] && selectedPath == nodePath
      ensures |nodePath| > 1 && procIdx.Some? && procIdx.value < -1 ==>
        selections == old(selections) && selectedPath == old(selectedPath)
      ensures |nodePath| > 1 && procIdx.None? ==>
        selections == old(selections) + [None] && selectedPath == old(selectedPath)
      ensures editMode == old(editMode) && canEdit == old(canEdit) && added == old(added) && deleted == old(deleted)
    {
      if |nodePath| > 1 {
        if procIdx.Some? {
          if procIdx.value >= 0 {
            selections := selections + [procIdx];
            selectedPath := [];
          } else if procIdx.value == -1 {
            selections := selections + [None];
            selectedPath := nodePath;
          }
        } else {
          selections := selections + [None];
        }
      }
    }

    /** A row's delete button: asks the parent to delete the procedure,
        then (deferred) to clear the selection. */
    method OnDeleteClick(procIdx: int)
      modifies this
      ensures deleted == old(deleted) + [procIdx] && selections == old(selections) + [None]
      ensures selectedPath == old(selectedPath) && editMode == old(editMode) && canEdit == old(canEdit) && added == old(added)
    {
      deleted := deleted + [procIdx];
      selections := selections + [None];
    }

    /** The placeholder's name editor confirming `name` under type `pt`. */
    method OnConfirmNewName(pt: ProcedureType, name: string, blank: Criterion)
      modifies this
      ensures added == old(added) + (if Text.IsBlank(name) then [] else [NewProcedure(pt, name, blank).value])
      ensures selectedPath == old(selectedPath) && selections == old(selections) && deleted == old(deleted)
      ensures editMode == old(editMode) && canEdit == old(canEdit)
    {
      var p := NewProcedure(pt, name, blank);
      if p.Some? {
        added := added + [p.value];
      }
    }
  }

  /** Clicking a procedure row (at depth 2 of the tree) selects exactly the
      procedure the row shows. */
  method ClickRowSelectsItsProcedure(st: PanelState, procs: seq<PlannedProcedure>, pt: ProcedureType, ptIdx: nat, ctx: ViewCtx, k: nat)
    requires k < |ForType(procs, pt)|
    modifies st
    ensures |st.selections| == |old(st.selections)| + 1
    ensures var sel := st.selections[|st.selections| - 1];
      sel.Some? && 0 <= sel.value < |procs| && procs[sel.value] == ForType(procs, pt)[k].proc
  {
    var row := Rows(procs, pt, ptIdx, ctx)[k];
    RowsShowProcedures(procs, pt, ptIdx, ctx);
    st.HandleNodeClick([ptIdx, k], Some(row.procIdx));
  }
}
