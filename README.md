# Business-continuity plan editor: a Dafny model

This project models the plan-editing screens of bacman, a desktop tool for business-continuity
management. The core lives in `src/renderer/plans`. The model covers:

- the activity/plan tree of the main window (`index.tsx`) and the plan list (`plan-list.tsx`);
- the plan details screen, which routes every panel's update to the selected procedure or to
  the working revision (`plan-details.tsx`), and its revision list (`plan-revisions.tsx`);
- the four editing panels: activation criteria as a nested tree (`criteria-panel.tsx`), roles
  (`roles-panel.tsx`), required resources (`resources-panel.tsx`) and procedures
  (`procedures-panel.tsx`, `procedure-details.tsx`);
- the drill-plan editor with its sanitising, trailing-blank effect and commit rules
  (`edit-drill-plan.tsx`);
- the drill runner: the drill in progress, past drills, start/end/save and the report editor
  (`run-drill.tsx`).

Pure logic is written as functions with lemmas. Each component whose state hooks change step by
step is a class whose methods are the component's handlers and effects. The class fields are
the component's state, and a `published` field lists, oldest first, the values handed to the
parent's `onUpdate`. Shared JavaScript objects stay shared where it matters:

- `PlanDetails.Details` writes element 0 of the parent's `revisions` array;
- `ProcedureDetails.Details` holds the parent's step objects, so a keystroke writes through.

The modules are:

- `Wrappers` and `Models`: the records;
- `Text`: `trim` and `parseInt`;
- `Collection`: the working-list conventions shared by the editors;
- one module per core file.

## Model

| member | source | states |
|---|---|---|
| Text.Trim | src/renderer/plans/resources-panel.tsx:97 | the result has no leading or trailing white space and is a slice of the input |
| Text.TrimShape | src/renderer/plans/resources-panel.tsx:97 | `trim` keeps exactly the slice between the first and last non-space characters and removes only white space |
| Text.BlankIffAllSpace | src/renderer/plans/resources-panel.tsx:69 | a text is blank (`trim() === ''`) exactly when every character is white space |
| Text.TrimIdempotent | src/renderer/plans/roles-panel.tsx:74 | trimming a trimmed text changes nothing |
| Text.TrimmedBlankIsEmpty | src/renderer/plans/roles-panel.tsx:81 | a trimmed text is blank only when it is empty |
| Text.IsBlank | src/renderer/plans/resources-panel.tsx:53 | `s.trim() === ''`, the blankness test of the editable lists; `BlankIffAllSpace` characterises it |
| Text.NatToString | src/renderer/plans/plan-revisions.tsx:17 | `${idx}` is a non-empty string of decimal digits with no leading zero |
| Text.ParseNatToString | src/renderer/plans/plan-revisions.tsx:17-26 | `parseInt` in base 10 gives back the index that `${idx}` was made from |
| Text.ParseInt | src/renderer/plans/plan-revisions.tsx:26 | `parseInt(s, 10)`: leading white space, an optional sign, then the longest digit run; `None` for NaN |
| Collection.Working | src/renderer/plans/resources-panel.tsx:41-46 | an editable list shows the items plus one blank row; a read-only list shows the items alone |
| Collection.Sanitize | src/renderer/plans/resources-panel.tsx:53 | `filter(x => !isBlank(x))`: the result is never longer than the list; which entries survive, and in what order, is stated by `SanitizeKeepsExactlyNonBlank` and `SanitizeConcat` |
| Collection.SanitizeKeepsExactlyNonBlank | src/renderer/plans/resources-panel.tsx:53 | an entry survives the filter exactly when it is in the list and not blank |
| Collection.SanitizeConcat | src/renderer/plans/resources-panel.tsx:70 | filtering distributes over concatenation, so the surviving entries keep their order |
| Collection.SanitizeIdempotent | src/renderer/plans/resources-panel.tsx:69-70 | filtering a published list again changes nothing |
| Collection.SanitizeWorking | src/renderer/plans/resources-panel.tsx:41-53 | the trailing blank row of a working list never reaches the published list |
| Collection.Recommit | src/renderer/plans/resources-panel.tsx:69 | after a commit the working list is the filtered list plus one blank row |
| Collection.RecommitShape | src/renderer/plans/resources-panel.tsx:69-70 | after a commit only the last row is blank, and filtering it gives back what was published |
| Collection.RecommitIdempotent | src/renderer/plans/resources-panel.tsx:69 | committing an unchanged working list again leaves it as it is |
| Collection.DeleteOffered | src/renderer/plans/resources-panel.tsx:99 | `onUpdate && idx < length - 1`: delete is offered on every row but the last; `DeleteOfferedOnRealEntries` states which rows those are |
| Collection.DeleteOfferedOnRealEntries | src/renderer/plans/resources-panel.tsx:99-105 | on a working list, the delete button is offered exactly on the rows of real entries |
| Collection.SpliceOut | src/renderer/plans/resources-panel.tsx:51 | `splice(idx, 1)` removes entry `idx` and shifts the later ones down; past the end it changes nothing |
| Collection.Assign | src/renderer/plans/edit-drill-plan.tsx:187 | `items[idx] = v` replaces entry `idx`, or appends when `idx` is the length; the other entries stay |
| Collection.Insert | src/renderer/plans/index.tsx:234 | insertion into a sorted list is a permutation of the list plus the new element |
| Collection.InsertKeepsSorted | src/renderer/plans/index.tsx:234 | inserting into a sorted list keeps it sorted under a total comparison |
| Collection.SortBy | src/renderer/plans/index.tsx:234 | the sorted list is a permutation of the input and, under a total comparison, is ordered by the key |
| CriteriaPanel.MutateGroup | src/renderer/plans/criteria-panel.tsx:186-236 | the loop over entries, with the shared path stack and the recursion into nested groups, computes exactly `MutateGroupFn`, including each error it throws |
| CriteriaPanel.Scan | src/renderer/plans/criteria-panel.tsx:195-231 | the scan returns exactly one entry for each entry it visits |
| CriteriaPanel.MutateGroupFn | src/renderer/plans/criteria-panel.tsx:186-236 | `mutateGroup` as a value; a successful run keeps the length of the top-level list (the empty-path edit is stated by `EmptyPathEdit`) |
| CriteriaPanel.EmptyPathEdit | src/renderer/plans/criteria-panel.tsx:192-194 | an edit with the empty path, whatever its index, succeeds exactly when the list starts with a group and the item is a group, and then changes only the first entry's operator; otherwise it throws on the missing entry, on a predicate string at the root or on an item without an operator |
| CriteriaPanel.ApplyToChildren | src/renderer/plans/criteria-panel.tsx:211-231 | the mutation applied to the addressed group's children: `splice(idx, 1)`, `push(item)`, or an edit that appends one past the end, changes only a group's operator and replaces a predicate string; its outcomes are stated by `EditFailsWhen`, `EditTouchesOneEntry` and `DeleteRemovesOneEntry` |
| CriteriaPanel.Target | src/renderer/plans/criteria-panel.tsx:208-209 | the entry a valid root-first path addresses is a group |
| CriteriaPanel.ReplaceChildren | src/renderer/plans/criteria-panel.tsx:208-214 | replacing the addressed group's children keeps the length of every list on the path |
| CriteriaPanel.ScanWithoutPath | src/renderer/plans/criteria-panel.tsx:195-197 | once the path is used up, the rest of the scan leaves every entry alone |
| CriteriaPanel.ScanFollowsPath | src/renderer/plans/criteria-panel.tsx:195-214 | a scan along a valid path does to the later entries what the intended mutation does, and uses the path up |
| CriteriaPanel.ScanPastEntry | src/renderer/plans/criteria-panel.tsx:195-214 | an entry before the first index of the path comes out of the scan unchanged, as the intended mutation leaves it |
| CriteriaPanel.ScanAtTarget | src/renderer/plans/criteria-panel.tsx:197-214 | the entry whose index is first on the path is descended into, or has its children mutated |
| CriteriaPanel.MutateFollowsPath | src/renderer/plans/criteria-panel.tsx:34-62 | a handler run on `[root]` with a valid parent path does exactly the intended mutation of the addressed group |
| CriteriaPanel.ReplaceChildrenAtTarget | src/renderer/plans/criteria-panel.tsx:208-214 | after the update the path still addresses a group with the same operator and the new children |
| CriteriaPanel.ReplaceChildrenElsewhere | src/renderer/plans/criteria-panel.tsx:208-214 | every group off the mutated path is left exactly as it was |
| CriteriaPanel.ReplaceChildrenKeepsAncestors | src/renderer/plans/criteria-panel.tsx:208-209 | the groups on the path keep their operators and their number of children |
| CriteriaPanel.InsertThenDeleteRestores | src/renderer/plans/criteria-panel.tsx:211-214 | inserting into a group and then deleting its last child gives back the tree |
| CriteriaPanel.ReplaceChildrenTwice | src/renderer/plans/criteria-panel.tsx:208-214 | a second replacement at the same path overrides the first |
| CriteriaPanel.ReplaceChildrenSame | src/renderer/plans/criteria-panel.tsx:208-214 | putting a group's own children back changes nothing |
| CriteriaPanel.EditFailsWhen | src/renderer/plans/criteria-panel.tsx:215-231 | an edit fails exactly when it is more than one past the end, would append a group, or would copy an operator from a predicate string |
| CriteriaPanel.EditTouchesOneEntry | src/renderer/plans/criteria-panel.tsx:215-231 | a successful edit changes only entry `idx`: a group takes the new operator and keeps its children, and a string is replaced |
| CriteriaPanel.DeleteRemovesOneEntry | src/renderer/plans/criteria-panel.tsx:211-212 | a delete removes entry `idx`; past the end it changes nothing |
| CriteriaPanel.ScanIntoLeafThrows | src/renderer/plans/criteria-panel.tsx:199-209 | a path that runs into a predicate string makes the engine throw |
| CriteriaPanel.MutateIntoLeafThrows | src/renderer/plans/criteria-panel.tsx:34-62 | a handler whose parent path runs into a predicate string fails with "not a group" |
| CriteriaPanel.Updated | src/renderer/plans/criteria-panel.tsx:34-62 | what a handler leaves as the tree: `newCriteria[0]` after the engine ran on a copy of `[crit]` with the reversed parent path, or the error it threw; `UpdatedFollowsPath` states it on valid paths |
| CriteriaPanel.MisaddressedInsertLandsOnSibling | src/renderer/plans/criteria-panel.tsx:195-214 | because the path stack is shared, an insert addressed to the missing group 0/0/2 lands in group 0/2 |
| CriteriaPanel.UpdatedFollowsPath | src/renderer/plans/criteria-panel.tsx:34-62 | on a valid path, a handler succeeds exactly when the mutation applies to the addressed children, and then replaces only those |
| CriteriaPanel.RootOperatorEdit | src/renderer/plans/criteria-panel.tsx:192-194 | the root's operator buttons set the root operator and keep its children |
| CriteriaPanel.CriteriaEditor.constructor | src/renderer/plans/criteria-panel.tsx:28 | the tree being edited starts as the prop |
| CriteriaPanel.CriteriaEditor.Reseed | src/renderer/plans/criteria-panel.tsx:30-32 | a new `criteria` prop replaces the tree being edited |
| CriteriaPanel.CriteriaEditor.Apply | src/renderer/plans/criteria-panel.tsx:34-62 | the handler body: on success it stores `newCriteria[0]` and publishes it on commit; on a throw nothing changes |
| CriteriaPanel.CriteriaEditor.OnAddGroup | src/renderer/plans/criteria-panel.tsx:34-42 | appends a blank group to the addressed group, then stores and publishes the tree |
| CriteriaPanel.CriteriaEditor.OnDelete | src/renderer/plans/criteria-panel.tsx:44-51 | removes child `idx` of the addressed group, then stores and publishes the tree |
| CriteriaPanel.CriteriaEditor.OnEditItem | src/renderer/plans/criteria-panel.tsx:53-62 | edits child `idx`, stores the tree, and publishes it only when `commit` is set |
| CriteriaPanel.CriteriaEditor.OnConfirmText | src/renderer/plans/criteria-panel.tsx:169 | a blank value is ignored; otherwise the trimmed text is committed as the edit |
| CriteriaPanel.NodeFor | src/renderer/plans/criteria-panel.tsx:115-174 | one node of `criteriaToNodes`: its id parts, its label (operator buttons or text), and whether it offers delete and add-group |
| CriteriaPanel.Nodes | src/renderer/plans/criteria-panel.tsx:109-176 | `criteriaToNodes` over a list, descending into groups; `NodesShow` states what it shows |
| CriteriaPanel.ChildList | src/renderer/plans/criteria-panel.tsx:154 | a group's child nodes: its entries, then the '' placeholder when editable |
| CriteriaPanel.Contents | src/renderer/plans/criteria-panel.tsx:70-75 | the tree's contents: the implied criteria, read-only, then the tree being edited; `ContentsShow` states what they show |
| CriteriaPanel.NodesShowAt | src/renderer/plans/criteria-panel.tsx:109-176 | the node drawn in position `i` shows the entry in position `i` |
| CriteriaPanel.NodesShow | src/renderer/plans/criteria-panel.tsx:109-176 | `criteriaToNodes` draws one node per entry, in order; each node shows its entry with its label, path, delete button and placeholder child |
| CriteriaPanel.FirstNodeShows | src/renderer/plans/criteria-panel.tsx:122-174 | the node built for an entry shows that entry, and a group's children show its entries followed by the '' placeholder |
| CriteriaPanel.ContentsShow | src/renderer/plans/criteria-panel.tsx:64-75 | the tree shows the implied criteria, disabled and without handlers, and then the tree being edited, whose root cannot be deleted |
| ResourcesPanel.Icon | src/renderer/plans/resources-panel.tsx:12-20 | `RESOURCE_ICONS`: the icon shown for each resource type |
| ResourcesPanel.Merge | src/renderer/plans/resources-panel.tsx:64 | `{ ...item, ...patch }`: the patch's fields win and the others are kept |
| ResourcesPanel.CommitMatchesReseed | src/renderer/plans/resources-panel.tsx:44-46 | the working list after a commit equals the list the prop effect builds from the published list |
| ResourcesPanel.ResourceEditor.constructor | src/renderer/plans/resources-panel.tsx:41-42 | the working list starts as the prop, plus a blank row when editable |
| ResourcesPanel.ResourceEditor.Reseed | src/renderer/plans/resources-panel.tsx:44-46 | a new prop resets the working list |
| ResourcesPanel.ResourceEditor.HandleDeleteItem | src/renderer/plans/resources-panel.tsx:48-57 | removes the row and, when editable, publishes the non-blank rows that remain |
| ResourcesPanel.ResourceEditor.CanDelete | src/renderer/plans/resources-panel.tsx:99 | the row's delete button, `DeleteOffered` on the working list; by `DeleteOfferedOnRealEntries` it is on exactly the real resources |
| ResourcesPanel.ResourceEditor.HandleEdit | src/renderer/plans/resources-panel.tsx:59-74 | ignores an index past the end; a commit publishes the edited list filtered and resets the working list to it plus a blank row, which is what the prop effect rebuilds when the parent hands the published list back; otherwise only the row changes |
| ResourcesPanel.ResourceEditor.OnChooseType | src/renderer/plans/resources-panel.tsx:84-89 | choosing a type commits only when the row already has a description |
| ResourcesPanel.ResourceEditor.OnConfirmDescription | src/renderer/plans/resources-panel.tsx:96-97 | confirming commits the trimmed description |
| ResourcesPanel.ConfirmPublishesTrimmed | src/renderer/plans/resources-panel.tsx:59-74 | a confirmed description is published trimmed, between the non-blank rows around it, or dropped when blank |
| RolesPanel.Merge | src/renderer/plans/roles-panel.tsx:53 | `{ ...role, ...patch }`: the patch's fields win, and an explicit `undefined` responsibility is copied |
| RolesPanel.ConfirmedResponsibility | src/renderer/plans/roles-panel.tsx:81 | `val.trim() \|\| undefined`: absent exactly when the text is blank, otherwise trimmed |
| RolesPanel.RoleEditor.constructor | src/renderer/plans/roles-panel.tsx:30-31 | the working list starts as the prop, plus a blank row when editable |
| RolesPanel.RoleEditor.Reseed | src/renderer/plans/roles-panel.tsx:33-35 | a new prop resets the working list |
| RolesPanel.RoleEditor.HandleDeleteItem | src/renderer/plans/roles-panel.tsx:39-46 | removes the row and, when editable, publishes the rows whose role is not blank |
| RolesPanel.RoleEditor.CanDelete | src/renderer/plans/roles-panel.tsx:83 | the row's delete button, `DeleteOffered` on the working list; by `DeleteOfferedOnRealEntries` it is on exactly the real roles |
| RolesPanel.RoleEditor.HandleEditRole | src/renderer/plans/roles-panel.tsx:48-63 | as written: a commit resets the working list to, and publishes, the rows as they stood before the edit |
| RolesPanel.RoleEditor.OnConfirmRole | src/renderer/plans/roles-panel.tsx:74 | confirming a role commits the pre-edit rows |
| RolesPanel.RoleEditor.OnConfirmResponsibility | src/renderer/plans/roles-panel.tsx:80-81 | confirming a responsibility stores it in the row when the role is blank, and commits otherwise |
| RolesPanel.ConfirmKeepsPreEditRows | src/renderer/plans/roles-panel.tsx:57-59 | a blank responsibility confirmed on a named role is published as its untrimmed pre-edit text, not as absent |
| RolesPanel.CommittedRoles | src/renderer/plans/roles-panel.tsx:53-59 | the intended commit: the non-blank rows of the list with the edit applied, as the resources editor publishes them |
| RolesPanel.CommittedRolesStoresConfirmedRow | src/renderer/plans/roles-panel.tsx:53-59 | the intended commit publishes the confirmed row trimmed, between the non-blank rows around it |
| ProcedureDetails.Actions | src/renderer/plans/procedure-details.tsx:65 | the steps a list of step objects holds, one for each object, in order |
| ProcedureDetails.ActionsSpliceOut | src/renderer/plans/procedure-details.tsx:28-32 | splicing step objects out of an array removes the same steps from the procedure the array shows |
| ProcedureDetails.ActionsAssign | src/renderer/plans/procedure-details.tsx:34-42 | storing a step object at `idx` stores its step at `idx` of the procedure the array shows, appending at the length |
| ProcedureDetails.Details.constructor | src/renderer/plans/procedure-details.tsx:15-16 | the working steps and the name start empty |
| ProcedureDetails.Details.SyncSteps | src/renderer/plans/procedure-details.tsx:18-22 | the working list becomes the parent's step objects plus, when editable, a fresh blank step |
| ProcedureDetails.Details.SyncName | src/renderer/plans/procedure-details.tsx:24-26 | the name state follows the prop |
| ProcedureDetails.Details.OnChangeStep | src/renderer/plans/procedure-details.tsx:66-72 | a keystroke sets the action on the shared step object, so every array holding it sees the change |
| ProcedureDetails.Details.HandleStepDeletion | src/renderer/plans/procedure-details.tsx:28-32 | splices the parent's array in place and publishes the procedure when editable |
| ProcedureDetails.Details.HandleStepEdit | src/renderer/plans/procedure-details.tsx:34-42 | a blank action deletes the step; any other action is stored at `idx` of the parent's array |
| ProcedureDetails.Details.OnConfirmStep | src/renderer/plans/procedure-details.tsx:73-75 | the parent's steps get the trimmed action at `idx`, or lose step `idx` when the action is blank |
| ProcedureDetails.Details.OnConfirmName | src/renderer/plans/procedure-details.tsx:52-54 | publishes the procedure with the trimmed name when editable |
| ProcedureDetails.KeystrokeWritesThrough | src/renderer/plans/procedure-details.tsx:18-22 | after the effect, typing into an existing row rewrites that step in the parent's procedure; typing into the blank row changes none of the parent's steps |
| ProceduresPanel.TaggedFrom | src/renderer/plans/procedures-panel.tsx:96-100 | each procedure listed, from `from` on, has the type and is tagged with its own index, in increasing order |
| ProceduresPanel.TaggedFromComplete | src/renderer/plans/procedures-panel.tsx:96-100 | no procedure of the type is missed: every one from `from` on is tagged in the list |
| ProceduresPanel.ForType | src/renderer/plans/procedures-panel.tsx:96-100 | `getProceduresForType`: exactly the procedures of the type, each with its index in the full list, in order |
| ProceduresPanel.ListedTypes | src/renderer/plans/procedures-panel.tsx:103 | a type is listed when in edit mode or when it has a procedure |
| ProceduresPanel.ListedTypeHasProcedure | src/renderer/plans/procedures-panel.tsx:103 | outside edit mode, a type is listed exactly when some procedure has it |
| ProceduresPanel.Row | src/renderer/plans/procedures-panel.tsx:109-128 | one procedure row: its name, whether it is the placeholder, whether it is selected, and whether it offers delete and add |
| ProceduresPanel.Rows | src/renderer/plans/procedures-panel.tsx:107-128 | a type's rows: its procedures, then the placeholder in edit mode |
| ProceduresPanel.Panel | src/renderer/plans/procedures-panel.tsx:68-108 | the empty state without procedures outside edit mode, otherwise one folder per listed type |
| ProceduresPanel.RowsShowProcedures | src/renderer/plans/procedures-panel.tsx:109-128 | every row before the placeholder shows a procedure of its folder's type and the index that selects it; in edit mode the folder ends with the placeholder, tagged -1 |
| ProceduresPanel.RowSelectedWhen | src/renderer/plans/procedures-panel.tsx:117-120 | a row is selected exactly when the remembered path points at it or it shows the selected procedure |
| ProceduresPanel.DeleteOfferedOnlyOnProcedures | src/renderer/plans/procedures-panel.tsx:113-115 | delete is offered exactly in edit mode with `onDelete`, and never on the placeholder |
| ProceduresPanel.NewProcedure | src/renderer/plans/procedures-panel.tsx:141-150 | a non-blank name adds a procedure of the folder's type with no steps, no resources and blank criteria; a blank name adds nothing |
| ProceduresPanel.PanelState.constructor | src/renderer/plans/procedures-panel.tsx:48 | nothing is selected and the panel is not in edit mode |
| ProceduresPanel.PanelState.SyncOnAdd | src/renderer/plans/procedures-panel.tsx:56-62 | without `onAdd` the panel cannot edit and leaves edit mode; with it, editing becomes possible |
| ProceduresPanel.PanelState.SetEditMode | src/renderer/plans/procedures-panel.tsx:64-66 | changing edit mode clears the remembered path |
| ProceduresPanel.PanelState.ToggleEditMode | src/renderer/plans/procedures-panel.tsx:35-39 | the toggle flips edit mode and clears the path |
| ProceduresPanel.PanelState.HandleNodeClick | src/renderer/plans/procedures-panel.tsx:78-94 | folders are ignored; a procedure row selects it and forgets the path; the placeholder deselects and remembers its path; a row without an index deselects |
| ProceduresPanel.PanelState.OnDeleteClick | src/renderer/plans/procedures-panel.tsx:129-134 | asks the parent to delete the procedure, then to clear the selection |
| ProceduresPanel.PanelState.OnConfirmNewName | src/renderer/plans/procedures-panel.tsx:141-150 | adds the new procedure exactly when the name is not blank |
| ProceduresPanel.ClickRowSelectsItsProcedure | src/renderer/plans/procedures-panel.tsx:78-94 | clicking a procedure row selects exactly the procedure the row shows |
| PlanDetails.SelectedProcedure | src/renderer/plans/plan-details.tsx:203-205 | present exactly when a procedure index is selected and in range, and then it is that procedure |
| PlanDetails.ReplaceProcedure | src/renderer/plans/plan-details.tsx:176-184 | writes exactly when a procedure is selected, replacing only that one |
| PlanDetails.SetOnProcedure | src/renderer/plans/plan-details.tsx:132-154 | `{ ...selectedProcedure, field }`: the panel's value written on the procedure |
| PlanDetails.SetOnRevision | src/renderer/plans/plan-details.tsx:132-154 | `{ ...revision, field }`: the panel's value written on the revision |
| PlanDetails.Route | src/renderer/plans/plan-details.tsx:132-154 | `handleUpdateRoles/Criteria/Resources`: to the selected procedure when there is one, else to the revision; `RouteTouchesOneOwner` and `RouteRoundTrip` state it |
| PlanDetails.ShownFor | src/renderer/plans/plan-details.tsx:283-305 | the criteria, roles and resources panels are shown the selected procedure's values, else the revision's; criteria are implied exactly when a procedure is selected, and then they are the revision's own; `RouteRoundTrip` states that an update lands where the panel read it |
| PlanDetails.RouteTouchesOneOwner | src/renderer/plans/plan-details.tsx:132-154 | an update from a panel goes to exactly one owner: the selected procedure, or else the revision's own field |
| PlanDetails.RouteRoundTrip | src/renderer/plans/plan-details.tsx:132-154 | what a panel hands up is what it is shown next (`ShownFor`, the props at lines 283-305), and the selection still picks the same procedure |
| PlanDetails.AddProcedure | src/renderer/plans/plan-details.tsx:156-164 | the revision with the procedure appended, and the index the selection moves to |
| PlanDetails.DeleteProcedure | src/renderer/plans/plan-details.tsx:166-174 | the revision without procedure `idx` |
| PlanDetails.AddThenSelect | src/renderer/plans/plan-details.tsx:156-164 | after adding, the deferred selection picks the new procedure, and the earlier procedures keep their indices |
| PlanDetails.DeleteLastThenAddRestores | src/renderer/plans/plan-details.tsx:156-174 | deleting the last procedure and adding it back gives back the list |
| PlanDetails.Details.constructor | src/renderer/plans/plan-details.tsx:82-85 | no procedure is selected and the working revision is shown |
| PlanDetails.Details.OnUpdateRevision | src/renderer/plans/plan-details.tsx:118-130 | callable only while the working revision is shown (`Editable`, from `isLatestRevision` and the wiring at line 236); writes element 0 of the parent's revisions array in place and publishes the plan |
| PlanDetails.Details.HandleUpdate | src/renderer/plans/plan-details.tsx:132-154 | the working revision becomes the routed update; the other revisions are unchanged |
| PlanDetails.Details.HandleUpdateProcedure | src/renderer/plans/plan-details.tsx:176-184 | replaces the selected procedure, or writes nothing when none is selected |
| PlanDetails.Details.HandleAddProcedure | src/renderer/plans/plan-details.tsx:156-164 | appends the procedure and selects its index |
| PlanDetails.Details.HandleDeleteProcedure | src/renderer/plans/plan-details.tsx:166-174 | removes procedure `idx` and clears the selection |
| PlanDetails.Details.SelectProcedure | src/renderer/plans/plan-details.tsx:270 | only the procedure selection changes |
| PlanDetails.Details.SelectRevision | src/renderer/plans/plan-details.tsx:243 | only the revision selection changes |
| PlanDetails.Details.OnPlanChanged | src/renderer/plans/plan-details.tsx:89-91 | another plan clears the procedure selection |
| PlanDetails.Details.OnRevisionCountChanged | src/renderer/plans/plan-details.tsx:103-105 | a change in the number of revisions goes back to the working revision |
| PlanRevisions.LabelOf | src/renderer/plans/plan-revisions.tsx:18 | node 0 alone is the working revision; node `idx` is revision `n - idx`, a number from 1 to n - 1 |
| PlanRevisions.RevisionNodes | src/renderer/plans/plan-revisions.tsx:16-24 | node 0 is "Working revision"; the others are numbered from n-1 down to 1; exactly the selected node is highlighted; the history icon is on every node but 0 |
| PlanRevisions.ClickedIndex | src/renderer/plans/plan-revisions.tsx:25-27 | the click handler's `parseInt(node.id, 10)` |
| PlanRevisions.ClickSelectsItsRevision | src/renderer/plans/plan-revisions.tsx:25-27 | clicking any node selects the revision it was drawn for |
| PlanRevisions.NodeIdsDistinct | src/renderer/plans/plan-revisions.tsx:17 | node ids are pairwise distinct |
| EditDrillPlan.MakeBlank | src/renderer/plans/edit-drill-plan.tsx:20-28 | a blank revision has empty lists and the given id |
| EditDrillPlan.SanitizeEntry | src/renderer/plans/edit-drill-plan.tsx:147-164 | absent exactly when no step survives; otherwise at least one step, with the id and creation time kept |
| EditDrillPlan.SanitizeEntryKeepsExactlyNonBlank | src/renderer/plans/edit-drill-plan.tsx:147-164 | a step is kept exactly when it has a description and at least one minute; a requirement or preparation step exactly when its description is not blank |
| EditDrillPlan.SanitizeEntryIdempotent | src/renderer/plans/edit-drill-plan.tsx:147-164 | sanitising a sanitised revision changes nothing |
| EditDrillPlan.TrailingBlank | src/renderer/plans/edit-drill-plan.tsx:58-82 | the effect calls `setRevision` exactly when some list lacks its trailing blank |
| EditDrillPlan.EarlierCallsLost | src/renderer/plans/edit-drill-plan.tsx:58-82 | each call spreads the revision the run started from, so the last call wins: a run that adds the steps' blank drops the other lists' blanks, and one that adds the preparation steps' blank drops the requirements' blank |
| EditDrillPlan.Rerun | src/renderer/plans/edit-drill-plan.tsx:58-82 | the effect run again as long as it changes the revision, at most `runs` times |
| EditDrillPlan.Settle | src/renderer/plans/edit-drill-plan.tsx:58-82 | where the effect comes to rest: each list with its trailing blank; `EffectSettles` states it |
| EditDrillPlan.RunProgresses | src/renderer/plans/edit-drill-plan.tsx:58-82 | each run of the effect that changes the revision gives one more list its trailing blank |
| EditDrillPlan.RerunSettles | src/renderer/plans/edit-drill-plan.tsx:58-82 | re-running the effect as often as lists still need a blank brings the revision to rest |
| EditDrillPlan.EffectSettles | src/renderer/plans/edit-drill-plan.tsx:58-82 | after at most three runs every list ends in a blank entry and the effect stops |
| EditDrillPlan.SettleKeepsSanitized | src/renderer/plans/edit-drill-plan.tsx:58-82 | the blanks the effect adds never change the sanitised revision |
| EditDrillPlan.CanAmendRevision | src/renderer/plans/edit-drill-plan.tsx:48-49 | an amend is allowed when the selected id is that of the latest revision and there is one |
| EditDrillPlan.FindRevision | src/renderer/plans/edit-drill-plan.tsx:92-93 | `find`: the first revision with the id, or none when no revision has it |
| EditDrillPlan.ReplaceByID | src/renderer/plans/edit-drill-plan.tsx:118-121 | `revisions.map(...)`: the revision with the id replaced by the sanitised one, the others kept |
| EditDrillPlan.CommitPlan | src/renderer/plans/edit-drill-plan.tsx:105-130 | a new revision is stored whenever there is a plan and a sanitised revision; an amend is stored only when allowed and the revision is found; a new revision is appended with the next number, an amend replaces the revision with the selected id; nothing but the drill plan changes |
| EditDrillPlan.NewRevisionKeepsNumbering | src/renderer/plans/edit-drill-plan.tsx:124-129 | saving from the latest revision appends it with the next number and keeps the earlier revisions |
| EditDrillPlan.AmendReplacesLatest | src/renderer/plans/edit-drill-plan.tsx:109-123 | on numbered revisions an amend replaces exactly the latest revision |
| EditDrillPlan.RowDeleteShown | src/renderer/plans/edit-drill-plan.tsx:294 | the requirement and preparation-step rows: delete on every row but the last, while the list has more than one entry |
| EditDrillPlan.StepDeleteShownAsWritten | src/renderer/plans/edit-drill-plan.tsx:354 | the steps' delete button as written, tested against the length of the preparation steps |
| EditDrillPlan.StepDeleteShown | src/renderer/plans/edit-drill-plan.tsx:354 | the intended guard, `RowDeleteShown` on the steps' own length as at lines 294 and 324; `DeleteShownOnRealRows` proves it puts delete exactly before the trailing blank |
| EditDrillPlan.StepDeleteGuardMisplaced | src/renderer/plans/edit-drill-plan.tsx:354 | as written, a settled revision with one real step shows no delete button on that step and one on the trailing blank |
| EditDrillPlan.DeleteShownOnRealRows | src/renderer/plans/edit-drill-plan.tsx:294-354 | on a settled revision, each list's delete buttons sit on exactly the rows before its trailing blank |
| EditDrillPlan.MergeStep | src/renderer/plans/edit-drill-plan.tsx:209 | `{ ...step, ...patch }`: the patch's fields win |
| EditDrillPlan.DrillPlanEditor.constructor | src/renderer/plans/edit-drill-plan.tsx:39-46 | starts on a blank revision 0, with no selection and nothing sanitised |
| EditDrillPlan.DrillPlanEditor.OnRevisionChanged | src/renderer/plans/edit-drill-plan.tsx:58-82 | records the sanitised revision and applies the trailing-blank call that wins |
| EditDrillPlan.DrillPlanEditor.OnRevisionCountChanged | src/renderer/plans/edit-drill-plan.tsx:84-88 | once the plan is loaded, selects the id equal to the revision count |
| EditDrillPlan.DrillPlanEditor.OnSelectionChanged | src/renderer/plans/edit-drill-plan.tsx:90-103 | loads the selected revision, drops a selection that names no revision, or starts a blank revision numbered with the count |
| EditDrillPlan.DrillPlanEditor.DeleteItem | src/renderer/plans/edit-drill-plan.tsx:166-181 | a handler exists exactly when the list has more than one entry, and it removes entry `idx` from that list only |
| EditDrillPlan.DrillPlanEditor.EditRequirement | src/renderer/plans/edit-drill-plan.tsx:183-192 | stores the requirement at `idx` |
| EditDrillPlan.DrillPlanEditor.EditPrepStep | src/renderer/plans/edit-drill-plan.tsx:194-203 | stores the preparation step at `idx` |
| EditDrillPlan.DrillPlanEditor.EditStep | src/renderer/plans/edit-drill-plan.tsx:205-214 | merges the patch into step `idx` and leaves every other step alone |
| RunDrill.DrillPlanInEffect | src/renderer/plans/run-drill.tsx:30-34 | present exactly when the plan has a drill-plan revision, and then it is the last one |
| RunDrill.DrillInProgress | src/renderer/plans/run-drill.tsx:36-42 | the drill found runs this plan's revision in effect and has not ended; none is found only when no such drill exists |
| RunDrill.DrillInProgressIsFirst | src/renderer/plans/run-drill.tsx:36-42 | the first running drill in store order is the one found |
| RunDrill.PastDrillsAreEndedReversed | src/renderer/plans/run-drill.tsx:46-48 | past drills are exactly the plan's ended drills, in reverse store order |
| RunDrill.PastDrills | src/renderer/plans/run-drill.tsx:46-48 | the plan's ended drills, latest stored first; `PastDrillsAreEndedReversed` states it |
| RunDrill.StartEnabled | src/renderer/plans/run-drill.tsx:247 | Start is enabled with a drill plan in effect and no drill in progress |
| RunDrill.NewStepReport | src/renderer/plans/run-drill.tsx:106-112 | the step report a new drill starts with: its plan step, no one responsible or participating, an empty result, activity Discussion, no start or end time; `StepLifecycle` states that only its Start button is enabled |
| RunDrill.NewDrill | src/renderer/plans/run-drill.tsx:89-128 | throws exactly without a drill plan; otherwise a running drill of the plan's revision, with an empty report that has one untouched step report per planned step |
| RunDrill.StartedDrillIsInProgress | src/renderer/plans/run-drill.tsx:89-128 | starting from an enabled button does not throw, and the stored drill becomes the drill in progress |
| RunDrill.EndDrill | src/renderer/plans/run-drill.tsx:130-156 | throws exactly without an active drill; otherwise sets the end time and the local report, if any, and changes nothing else |
| RunDrill.EndedDrillIsPast | src/renderer/plans/run-drill.tsx:130-156 | an ended drill no longer runs and is listed among the past drills |
| RunDrill.SaveReport | src/renderer/plans/run-drill.tsx:158-178 | throws exactly without a report or a drill in progress; otherwise replaces only the report |
| RunDrill.MergeStep | src/renderer/plans/run-drill.tsx:183 | `{ ...step, ...patch }`: the patch's fields win and the plan is kept |
| RunDrill.StepStartEnabled | src/renderer/plans/run-drill.tsx:502 | a step's Start button: wired, and the step neither started nor ended |
| RunDrill.StepEndEnabled | src/renderer/plans/run-drill.tsx:506 | a step's End button: wired, started and not ended |
| RunDrill.StepLifecycle | src/renderer/plans/run-drill.tsx:502-506 | a step goes from fresh to started to ended, and only the button for the next move is enabled |
| RunDrill.StepButtonsFollowHandlers | src/renderer/plans/run-drill.tsx:204-209 | on any step, starting from an enabled Start leaves only End enabled, and ending from an enabled End leaves neither and keeps the start time |
| RunDrill.NameToParticipant | src/renderer/plans/run-drill.tsx:20-22 | the participant keeps the name, and its id is the name's slug |
| RunDrill.ReportEditor.constructor | src/renderer/plans/run-drill.tsx:60 | there is no report at first |
| RunDrill.ReportEditor.OnDrillInProgressChanged | src/renderer/plans/run-drill.tsx:62-66 | a drill in progress loads its report |
| RunDrill.ReportEditor.OnPlanChanged | src/renderer/plans/run-drill.tsx:68-70 | another plan drops the report |
| RunDrill.ReportEditor.ShowPastReport | src/renderer/plans/run-drill.tsx:298 | clicking a past drill shows its report |
| RunDrill.ReportEditor.UpdateStep | src/renderer/plans/run-drill.tsx:180-186 | merges the patch into step `idx` only; without a report nothing changes |
| RunDrill.ReportEditor.HandleStepStart | src/renderer/plans/run-drill.tsx:204-206 | sets the start time of step `idx`, keeps the other steps, and leaves the follow-up action and the authors as they were |
| RunDrill.ReportEditor.HandleStepEnd | src/renderer/plans/run-drill.tsx:207-209 | sets the end time of step `idx`, keeps the other steps, and leaves the follow-up action and the authors as they were |
| RunDrill.ReportEditor.HandleAuthorsChange | src/renderer/plans/run-drill.tsx:188-192 | replaces the authors with one participant per name, in order |
| RunDrill.ReportEditor.HandleFollowUpActionUpdate | src/renderer/plans/run-drill.tsx:215-219 | replaces the follow-up action |
| ActivityTree.OrderedActivities | src/renderer/plans/index.tsx:233-239 | the activities in id order, as a permutation of the input, followed by the placeholder |
| ActivityTree.PlansFor | src/renderer/plans/index.tsx:245-254 | the list ends with the activity's placeholder plan |
| ActivityTree.PlansForAreTheActivitysPlans | src/renderer/plans/index.tsx:241-254 | the plans listed under an activity, before the placeholder, are exactly its own plans |
| ActivityTree.PlanNodeFor | src/renderer/plans/index.tsx:315-329 | one plan node: selected and edited from the path, the "add" or "clipboard" icon, its `nodeData` and its menu |
| ActivityTree.ActivityNodeFor | src/renderer/plans/index.tsx:275-331 | one activity node: selected and edited from the path, the "add" or "pulse" icon, and, unless it is the placeholder, its plan nodes |
| ActivityTree.BuildActivityNodes | src/renderer/plans/index.tsx:275-281 | one node per activity, plus one for the placeholder |
| ActivityTree.TreeShape | src/renderer/plans/index.tsx:276-329 | activities appear in order, then a placeholder with no children; a real activity has a caret, and its children end in a placeholder and name their plan in `nodeData` |
| ActivityTree.SelectionFollowsPath | src/renderer/plans/index.tsx:256-273 | the node at `[i]` or the plan at `[i, j]` is selected exactly when the path says so, and is edited exactly in edit mode |
| ActivityTree.AtMostOneSelected | src/renderer/plans/index.tsx:256-273 | at most one node of the whole tree is selected |
| ActivityTree.ActivityUpdate | src/renderer/plans/index.tsx:82-104 | a placeholder is skipped exactly when its text is "Add" or blank, and otherwise created under its slug; a real activity is updated |
| ActivityTree.PlanUpdate | src/renderer/plans/index.tsx:106-131 | the same rule on a plan's purpose |
| ActivityTree.UntouchedPlaceholderIsSkipped | src/renderer/plans/index.tsx:84-108 | confirming a placeholder with only white space stores nothing |
| ActivityTree.MainPaneFor | src/renderer/plans/index.tsx:163-176 | without a selected plan the pane is empty; otherwise the chosen module is shown for that plan |
| ActivityTree.Window.constructor | src/renderer/plans/index.tsx:40-46 | nothing is selected, edit mode is off and the module is "edit-plan" |
| ActivityTree.Window.HandleNodeClick | src/renderer/plans/index.tsx:145-161 | a second click enters edit mode; a placeholder click selects it for editing and clears the plan; any other click selects the node and the plan its `nodeData` names |
| ActivityTree.Window.SelectNode | src/renderer/plans/index.tsx:69-71 | selecting another path leaves edit mode |
| ActivityTree.Window.ConfirmPlan | src/renderer/plans/index.tsx:335 | leaves edit mode and stores the plan; creating one clears the selection |
| ActivityTree.Window.ConfirmActivity | src/renderer/plans/index.tsx:293 | leaves edit mode and stores the activity |
| ActivityTree.Window.SetModule | src/renderer/plans/index.tsx:133-143 | a plan's buttons switch the module and change nothing else |
| ActivityTree.ClickSelectsNode | src/renderer/plans/index.tsx:145-161 | clicking a node that is not selected makes it the only selected node of the rebuilt tree; it is edited only when it is a placeholder |
| PlanList.OrderedPlans | src/renderer/plans/plan-list.tsx:23-30 | the plans in name order, as a permutation of the input, followed by the placeholder |
| PlanList.NodeFor | src/renderer/plans/plan-list.tsx:45-72 | one plan node: selected and edited from the path, the "add" or "manual" icon, its `nodeData` and its menu |
| PlanList.BuildPlanNodes | src/renderer/plans/plan-list.tsx:42-47 | one node per plan, plus one for the placeholder |
| PlanList.PlanNodesShape | src/renderer/plans/plan-list.tsx:32-84 | the placeholder comes last with the "add" icon and no menu; every node names its plan; the node at `[0, i]` alone is selected |
| PlanList.AtMostOneSelected | src/renderer/plans/plan-list.tsx:32-50 | at most one plan node is selected |

## Left out

- Store, IPC and I/O: `app.useOne`/`useMany`, `callIPC`, `log.error` and the refreshes are not modelled. The store's objects are parameters, and each commit returns the object it would store. The commit-in-progress flags and the `try`/`catch` around IPC are left out with them.
- Clock and timers: `moment()`, `new Date()`, `setInterval` and the elapsed-time counters of `run-drill.tsx` are replaced by times passed as parameters.
- ISO 8601 durations: `moment.duration(...).minutes()` is an abstract `minutesOf` parameter. The numeric input's duration formatting is not modelled.
- Slugs and ordering: `slugify` and `localeCompare` are abstract parameters. Sortedness is proved only when the comparison is total.
- React scheduling: effects are methods that the caller runs after a change. Batching of `setState` calls is modelled only where the last call wins (the trailing-blank effect), and deferred `setImmediate` calls run at the end of their handler, after any effect the handler's state change triggers: `ActivityTree.Window.HandleNodeClick` runs the selection effect before the deferred `setEditMode(true)`, an order React does not guarantee.
- Rendering: JSX, styling, maximised panels, the `ready` overlay and the loading and error placeholder screens are not modelled.
- `plan-summary.tsx`, the drill history component and the "start new revision" handler passed in by the caller are not part of this model.
- `makeBlankPlanRevision`, `makeBlankCriteria`, `NEW_LABEL_PLACEHOLDER` and the plan list's `NEW_ID_PLACEHOLDER` come from files outside this model. They are parameters here.
- `hasUncommittedChanges` in `edit-drill-plan.tsx`, and the save buttons that depend on it, are not modelled.
- The "Retire" menu items are disabled in the source. Only their presence is modelled.
- `index.tsx`'s throw on an unknown module cannot happen here, because `ActivityTree.Module` has exactly the three modules.
- CriteriaPanel.ApplyToChildren: an edit that would copy a group's operator from a predicate string fails with `OperatorOfLeaf`; `CriteriaPanel.EmptyPathEdit` does the same for the root. JavaScript would store `undefined` as the operator instead.
- CriteriaPanel.Scan: a `TypeError` from reading a missing entry is modelled as the error `UndefinedItem`.
- Collection.SpliceOut: indices are `nat`, so negative `splice` indices are not modelled.
- Text.ParseInt: covers signs, leading white space and digit runs. Number precision limits are not modelled.
- EditDrillPlan.DrillPlanEditor.EditPrepStep: requires `idx` to be at most the length, so writes that leave holes in the array are not modelled; the same holds for `EditRequirement` and `ProcedureDetails.Details.HandleStepEdit`.
- EditDrillPlan.DrillPlanEditor.EditStep: requires `idx` below the length. At `idx` equal to the length the source appends `{ ...undefined, ...patch }`, a step with only the patched fields, which `DrillStepPlan` cannot hold. `RunDrill.ReportEditor.UpdateStep` likewise requires `idx` in range.
- PlanDetails.Details: every method requires the shown revision to exist, so the "missing plan revision" screen is not modelled.

## Findings

| source | as written | input that shows it | evidently intended | confidence | as-written member | corrected member |
|---|---|---|---|---|---|---|
| src/renderer/plans/roles-panel.tsx:57-59 | a commit resets the working list to `sanitizedRoles` and publishes it; both are computed from the rows before the edit, so the committed value is dropped | rows `[{Lead, "  "}, blank]`; confirm the responsibility "  " on row 0: publishes `[{Lead, "  "}]` | publish the edited rows filtered, here `[{Lead, undefined}]`, as the resources editor does | not executed | RolesPanel.ConfirmKeepsPreEditRows | RolesPanel.CommittedRolesStoresConfirmedRow |
| src/renderer/plans/edit-drill-plan.tsx:354 | the steps' delete button compares the row index with the length of the preparation steps | steps `[{"Call the team", PT5M}, blank]` with one blank preparation step: row 0 has no delete button and the trailing blank has one | compare with the length of the steps, as the other two lists do | not executed | EditDrillPlan.StepDeleteGuardMisplaced | EditDrillPlan.DeleteShownOnRealRows |
