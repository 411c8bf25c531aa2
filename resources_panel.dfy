/** The required-resources editor (src/renderer/plans/resources-panel.tsx):
    a working list of resources with a trailing blank row while editable,
    row edits that merge a partial resource into a row, commits that publish
    the non-blank rows, and deletion. */
module ResourcesPanel {
  import opened Wrappers
  import opened Models
  import Text
  import Collection

  /** `BLANK_ITEM`. */
  const Blank: Resource := Resource(Other, "")

  /** A row counts as blank when its description trims to nothing. */
  predicate IsBlank(r: Resource) {
    Text.IsBlank(r.description)
  }

  /** `RESOURCE_ICONS`: the icon shown for each resource type. */
  function Icon(t: ResourceType): string {
    match t
    case Information => "search-around"
    case People => "people"
    case Utility => "office"
    case Equipment => "oil-field"
    case Funds => "dollar"
    case Transportation => "train"
    case Other => "cube"
  }

  /** A `Partial<Resource>`: the fields an edit sets. */
  datatype ResourcePatch = ResourcePatch(rtype: Option<ResourceType>, description: Option<string>)

  /** `{ ...r, ...patch }`: the patch's fields win, the others are kept. */
  function Merge(r: Resource, patch: ResourcePatch): (m: Resource)
    ensures m.rtype == (if patch.rtype.Some? then patch.rtype.value else r.rtype)
    ensures m.description == (if patch.description.Some? then patch.description.value else r.description)
  {
    Resource(patch.rtype.GetOr(r.rtype), patch.description.GetOr(r.description))
  }

  /** The working list after a commit is the published list plus a fresh
      blank row: the same list the prop effect builds when the parent hands
      the published list back, so that round trip leaves the rows alone. */
  lemma CommitMatchesReseed(edited: seq<Resource>)
    ensures Collection.Recommit(edited, IsBlank, Blank)
         == Collection.Working(Collection.Sanitize(edited, IsBlank), true, Blank)
  {
  }

  /** The `ResourceTree` component's state. */
  class ResourceEditor {
    /** The working list (`items`). */
    var items: seq<Resource>
    /** The lists handed to `onUpdate`, oldest first. */
    var published: seq<seq<Resource>>
    /** Whether an `onUpdate` callback was supplied. */
    const editable: bool

    constructor(resources: seq<Resource>, editable: bool)
      ensures items == Collection.Working(resources, editable, Blank)
      ensures published == [] && this.editable == editable
    {
      items := Collection.Working(resources, editable, Blank);
      published := [];
      this.editable := editable;
    }

    /** The effect keyed on the serialized `resources` prop. */
    method Reseed(resources: seq<Resource>)
      modifies this
      ensures items == Collection.Working(resources, editable, Blank) && published == old(published)
    {
      items := Collection.Working(resources, editable, Blank);
    }

    /** `handleDeleteItem`: removes the row (nothing past the end) and, when
        editable, later publishes the non-blank rows that remain. */
    method HandleDeleteItem(idx: nat)
      modifies this
      ensures items == Collection.SpliceOut(old(items), idx)
      ensures published == old(published) + (if editable then [Collection.Sanitize(items, IsBlank)] else [])
    {
      var newItems := Collection.SpliceOut(items, idx);
      items := newItems;
      if editable {
        published := published + [Collection.Sanitize(newItems, IsBlank)];
      }
    }

    /** `handleEdit`: merges the patch into row `idx` (an index past the end
        is ignored). A commit publishes the non-blank rows of the edited
        list and resets the working list to those plus a blank row;
        otherwise only the working list changes. */
    method HandleEdit(idx: nat, patch: ResourcePatch, commit: bool)
      modifies this
      ensures idx >= |old(items)| ==> items == old(items) && published == old(published)
      ensures idx < |old(items)| && commit ==>
        var edited := old(items)[idx := Merge(old(items)[idx], patch)];
        items == Collection.Recommit(edited, IsBlank, Blank) &&
        published == old(published) + (if editable then [Collection.Sanitize(edited, IsBlank)] else [])
      ensures idx < |old(items)| && commit && editable ==>
        items == Collection.Working(published[|published| - 1], editable, Blank)
      ensures idx < |old(items)| && !commit ==>
        items == old(items)[idx := Merge(old(items)[idx], patch)] && published == old(published)
    {
      if idx >= |items| {
        return;
      }
      var newItems := items[idx := Merge(items[idx], patch)];
      CommitMatchesReseed(newItems);
      if commit {
        items := Collection.Recommit(newItems, IsBlank, Blank);
        if editable {
          published := published + [Collection.Sanitize(newItems, IsBlank)];
        }
      } else {
        items := newItems;
      }
    }

    /** The type selector of row `idx`: commits only when the row already
        has a description. */
    method OnChooseType(idx: nat, t: ResourceType)
      requires idx < |items|
      modifies this
      ensures var edited := old(items)[idx := old(items)[idx].(rtype := t)];
        if IsBlank(old(items)[idx]) then items == edited && published == old(published)
        else items == Collection.Recommit(edited, IsBlank, Blank) &&
             published == old(published) + (if editable then [Collection.Sanitize(edited, IsBlank)] else [])
    {
      HandleEdit(idx, ResourcePatch(Some(t), None), !IsBlank(items[idx]));
    }

    /** The description's `onConfirm`: commits the trimmed text. A row
        confirmed blank drops out of the published list. */
    method OnConfirmDescription(idx: nat, val: string)
      requires idx < |items|
      modifies this
      ensures var edited := old(items)[idx := old(items)[idx].(description := Text.Trim(val))];
        items == Collection.Recommit(edited, IsBlank, Blank) &&
        published == old(published) + (if editable then [Collection.Sanitize(edited, IsBlank)] else [])
    {
      HandleEdit(idx, ResourcePatch(None, Some(Text.Trim(val))), true);
    }

    /** Whether row `idx` offers deletion. */
    function CanDelete(idx: nat): bool
      reads this
    {
      Collection.DeleteOffered(editable, idx, |items|)
    }
  }

  /** A confirmed description lands in the published list trimmed, between
      the non-blank rows before it and those after it, and is dropped when
      it is blank. */
  lemma ConfirmPublishesTrimmed(items: seq<Resource>, idx: nat, val: string)
    requires idx < |items|
    ensures var row := items[idx].(description := Text.Trim(val));
      Collection.Sanitize(items[idx := row], IsBlank)
        == Collection.Sanitize(items[..idx], IsBlank)
           + (if Text.IsBlank(val) then [] else [row])
           + Collection.Sanitize(items[idx + 1..], IsBlank)
  {
    var row := items[idx].(description := Text.Trim(val));
    var edited := items[idx := row];
    assert edited == items[..idx] + [row] + items[idx + 1..];
    Collection.SanitizeConcat(items[..idx] + [row], items[idx + 1..], IsBlank);
    Collection.SanitizeConcat(items[..idx], [row], IsBlank);
    Text.TrimIdempotent(val);
    assert IsBlank(row) == Text.IsBlank(val);
  }
}
