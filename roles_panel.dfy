/** The roles-and-responsibilities editor (src/renderer/plans/roles-panel.tsx).
    It follows the same working-list convention as the resources editor, but
    its commit publishes the rows as they stood before the edit being
    committed (see `RoleEditor.HandleEditRole`). */
module RolesPanel {
  import opened Wrappers
  import opened Models
  import Text
  import Collection

  /** `BLANK_ITEM`: an empty role with an empty responsibility. */
  const Blank: Role := Role("", Some(""))

  /** A row counts as blank when its role trims to nothing. */
  predicate IsBlank(r: Role) {
    Text.IsBlank(r.role)
  }

  /** A `Partial<Role>`; a responsibility set to `Some(None)` is an explicit
      `undefined`, which the spread copies over the old value. */
  datatype RolePatch = RolePatch(role: Option<string>, responsibility: Option<Option<string>>)

  /** `{ ...r, ...patch }`. */
  function Merge(r: Role, patch: RolePatch): (m: Role)
    ensures m.role == (if patch.role.Some? then patch.role.value else r.role)
    ensures m.responsibility == (if patch.responsibility.Some? then patch.responsibility.value else r.responsibility)
  {
    Role(patch.role.GetOr(r.role), patch.responsibility.GetOr(r.responsibility))
  }

  /** `val.trim() || undefined`: a blank responsibility is stored as absent. */
  function ConfirmedResponsibility(val: string): (r: Option<string>)
    ensures r.None? <==> Text.IsBlank(val)
    ensures r.Some? ==> r.value == Text.Trim(val) && !Text.IsBlank(r.value)
  {
    Text.TrimmedBlankIsEmpty(val);
    if Text.Trim(val) == "" then None else Some(Text.Trim(val))
  }

  /** What the intended commit publishes: the non-blank rows of the list
      with the edit applied, as the resources editor does. */
  function CommittedRoles(roles: seq<Role>, idx: nat, patch: RolePatch): seq<Role>
    requires idx < |roles|
  {
    Collection.Sanitize(roles[idx := Merge(roles[idx], patch)], IsBlank)
  }

  /** The `RoleTree` component's state. */
  class RoleEditor {
    /** The working list (`_roles`). */
    var roles: seq<Role>
    /** The lists handed to `onUpdate`, oldest first. */
    var published: seq<seq<Role>>
    /** Whether an `onUpdate` callback was supplied. */
    const editable: bool

    constructor(initial: seq<Role>, editable: bool)
      ensures roles == Collection.Working(initial, editable, Blank)
      ensures published == [] && this.editable == editable
    {
      roles := Collection.Working(initial, editable, Blank);
      published := [];
      this.editable := editable;
    }

    /** The effect keyed on the serialized `roles` prop. */
    method Reseed(initial: seq<Role>)
      modifies this
      ensures roles == Collection.Working(initial, editable, Blank) && published == old(published)
    {
      roles := Collection.Working(initial, editable, Blank);
    }

    /** `handleDeleteItem`: removes the row and, when editable, later
        publishes the non-blank rows that remain. */
    method HandleDeleteItem(idx: nat)
      modifies this
      ensures roles == Collection.SpliceOut(old(roles), idx)
      ensures published == old(published) + (if editable then [Collection.Sanitize(roles, IsBlank)] else [])
    {
      var newRoles := Collection.SpliceOut(roles, idx);
      roles := newRoles;
      if editable {
        published := published + [Collection.Sanitize(newRoles, IsBlank)];
      }
    }

    /** `handleEditRole`, as written: an index past the end is ignored; a
        non-committing edit merges the patch into the row; a commit resets
        the working list to `sanitizedRoles` plus a blank row and publishes
        `sanitizedRoles`, both computed from the rows before this edit, so
        the committed patch itself is dropped. */
    method HandleEditRole(idx: nat, patch: RolePatch, commit: bool)
      modifies this
      ensures idx >= |old(roles)| ==> roles == old(roles) && published == old(published)
      ensures idx < |old(roles)| && commit ==>
        roles == Collection.Recommit(old(roles), IsBlank, Blank) &&
        published == old(published) + (if editable then [Collection.Sanitize(old(roles), IsBlank)] else [])
      ensures idx < |old(roles)| && !commit ==>
        roles == old(roles)[idx := Merge(old(roles)[idx], patch)] && published == old(published)
    {
      if idx >= |roles| {
        return;
      }
      var sanitizedRoles := Collection.Sanitize(roles, IsBlank);
      var newRoles := roles[idx := Merge(roles[idx], patch)];
      if commit {
        roles := sanitizedRoles + [Blank];
        if editable {
          published := published + [sanitizedRoles];
        }
      } else {
        roles := newRoles;
      }
    }

    /** The role's `onConfirm`: commits the trimmed role. */
    method OnConfirmRole(idx: nat, val: string)
      modifies this
      ensures idx < |old(roles)| ==>
        roles == Collection.Recommit(old(roles), IsBlank, Blank) &&
        published == old(published) + (if editable then [Collection.Sanitize(old(roles), IsBlank)] else [])
      ensures idx >= |old(roles)| ==> roles == old(roles) && published == old(published)
    {
      HandleEditRole(idx, RolePatch(Some(Text.Trim(val)), None), true);
    }

    /** The responsibility's `onConfirm`: stores the trimmed text (absent
        when blank) and commits only when the row has a role. */
    method OnConfirmResponsibility(idx: nat, val: string)
      requires idx < |roles|
      modifies this
      ensures IsBlank(old(roles)[idx]) ==>
        roles == old(roles)[idx := old(roles)[idx].(responsibility := ConfirmedResponsibility(val))] &&
        published == old(published)
      ensures !IsBlank(old(roles)[idx]) ==>
        roles == Collection.Recommit(old(roles), IsBlank, Blank) &&
        published == old(published) + (if editable then [Collection.Sanitize(old(roles), IsBlank)] else [])
    {
      HandleEditRole(idx, RolePatch(None, Some(ConfirmedResponsibility(val))), !IsBlank(roles[idx]));
    }

    /** Whether row `idx` offers deletion. */
    function CanDelete(idx: nat): bool
      reads this
    {
      Collection.DeleteOffered(editable, idx, |roles|)
    }
  }

  /** The commit as written publishes the rows before the edit: after the
      keystrokes left "  " in a role's responsibility, confirming it
      publishes that untrimmed text where the intended commit stores no
      responsibility at all. */
  lemma ConfirmKeepsPreEditRows()
    ensures var roles := [Role("Lead", Some("  ")), Blank];
      var patch := RolePatch(None, Some(ConfirmedResponsibility("  ")));
      Collection.Sanitize(roles, IsBlank) == [Role("Lead", Some("  "))] &&
      CommittedRoles(roles, 0, patch) == [Role("Lead", None)]
  {
    var roles := [Role("Lead", Some("  ")), Blank];
    assert Text.IsSpace(' ');
    assert Text.TrimStart("  ") == "" && Text.Trim("  ") == "";
    assert Text.TrimStart("Lead") == "Lead" && Text.TrimEnd("Lead") == "Lead";
    assert !IsBlank(roles[0]) && IsBlank(roles[1]);
    assert roles[1..] == [Blank] && [Blank][1..] == [];
    var fixed := roles[0 := Role("Lead", None)];
    assert fixed[1..] == [Blank];
  }

  /** With the intended commit, a confirmed row is published with its role
      and responsibility trimmed, between the non-blank rows around it. */
  lemma CommittedRolesStoresConfirmedRow(roles: seq<Role>, idx: nat, role: string, val: string)
    requires idx < |roles| && !Text.IsBlank(role)
    ensures var row := Role(Text.Trim(role), ConfirmedResponsibility(val));
      CommittedRoles(roles, idx, RolePatch(Some(Text.Trim(role)), Some(ConfirmedResponsibility(val))))
        == Collection.Sanitize(roles[..idx], IsBlank) + [row] + Collection.Sanitize(roles[idx + 1..], IsBlank)
  {
    var row := Role(Text.Trim(role), ConfirmedResponsibility(val));
    var edited := roles[idx := row];
    assert edited == roles[..idx] + [row] + roles[idx + 1..];
    Collection.SanitizeConcat(roles[..idx] + [row], roles[idx + 1..], IsBlank);
    Collection.SanitizeConcat(roles[..idx], [row], IsBlank);
    Text.TrimIdempotent(role);
    assert !IsBlank(row);
  }
}
