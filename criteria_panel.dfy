/** The activation-criteria editor (src/renderer/plans/criteria-panel.tsx):
    the tree-mutation engine `mutateGroup`, the three edit handlers that run
    it on a fresh copy of the tree, and the tree-node view. */
module CriteriaPanel {
  import opened Wrappers
  import opened Models
  import Text
  import Collection

  // ===========================================================================
  // The mutation engine
  // ===========================================================================

  /** A `TreeMutation`, applied to the children of the addressed group. */
  datatype Mutation = Delete(idx: nat) | Insert(item: Criterion) | Edit(idx: nat, item: Criterion)

  /** The ways `mutateGroup` throws. */
  datatype TreeError =
    | NotAGroup(at: nat)        // the path enters a predicate string
    | WontAutoInsertGroup       // an edit one past the end carries a group
    | UndefinedItem(idx: nat)   // an edit more than one past the end (TypeError)
    | OperatorOfLeaf            // an edit that would copy an operator from a predicate string

  /** The mutation applied to the children of the group the path ends at:
      `splice(idx, 1)`, `push(item)`, or an edit that appends when it is
      one past the end, changes only the operator of a group (keeping its
      children) and replaces a predicate string. */
  function ApplyToChildren(kids: seq<Criterion>, m: Mutation): Result<seq<Criterion>, TreeError>
  {
    match m
    case Delete(idx) => Ok(Collection.SpliceOut(kids, idx))
    case Insert(item) => Ok(kids + [item])
    case Edit(idx, item) =>
      if idx == |kids| && item.Group? then Err(WontAutoInsertGroup)
      else
        var kids1 := if idx == |kids| then kids + [item] else kids;
        if idx >= |kids1| then Err(UndefinedItem(idx))
        else if kids1[idx].Group? then
          if item.Group? then Ok(kids1[idx := kids1[idx].(require := item.require)])
          else Err(OperatorOfLeaf)
        else Ok(kids1[idx := item])
  }

  /** The `for (const [curIdx, c] of criteria.entries())` loop, from entry
      `at` on. `rest` holds the entries still to visit and `path` is the
      shared reversed path (top-level index last) that every match pops.
      A match descends into the entry when indices remain, and applies the
      mutation to its children otherwise; either way the scan goes on over
      the later siblings with whatever is left of the path. Returns the
      visited entries as they end up and the path as the pops left it. */
  function Scan(rest: seq<Criterion>, at: nat, path: seq<nat>, m: Mutation): (r: Result<(seq<Criterion>, seq<nat>), TreeError>)
    ensures r.Ok? ==> |r.value.0| == |rest| && |r.value.1| <= |path|
    decreases rest
  {
    if rest == [] then Ok(([], path))
    else
      var c := rest[0];
      if |path| > 0 && path[|path| - 1] == at then
        var popped := path[..|path| - 1];
        if c.Leaf? then Err(NotAGroup(at))
        else
          var inner :- (if |popped| > 0 then Scan(c.criteria, 0, popped, m)
                        else Lift(ApplyToChildren(c.criteria, m), popped));
          var tail :- Scan(rest[1..], at + 1, inner.1, m);
          Ok(([c.(criteria := inner.0)] + tail.0, tail.1))
      else
        var tail :- Scan(rest[1..], at + 1, path, m);
        Ok(([c] + tail.0, tail.1))
  }

  /** Pairs a successful list with the path that is left. */
  function Lift(r: Result<seq<Criterion>, TreeError>, path: seq<nat>): Result<(seq<Criterion>, seq<nat>), TreeError>
  {
    match r
    case Ok(v) => Ok((v, path))
    case Err(e) => Err(e)
  }

  /** `mutateGroup(criteria, path, mutation)` as a value: the mutated list
      and the path as the pops left it, or the error it throws. With an
      empty path an edit sets the operator of `criteria[0]` (the root); the
      loop that follows can match no entry then. */
  function MutateGroupFn(criteria: seq<Criterion>, path: seq<nat>, m: Mutation): (r: Result<(seq<Criterion>, seq<nat>), TreeError>)
    ensures r.Ok? ==> |r.value.0| == |criteria|
  {
    if |path| == 0 && m.Edit? then
      if criteria == [] then Err(UndefinedItem(0))
      else if criteria[0].Leaf? then Err(NotAGroup(0))
      else if m.item.Leaf? then Err(OperatorOfLeaf)
      else Ok((criteria[0 := criteria[0].(require := m.item.require)], path))
    else Scan(criteria, 0, path, m)
  }

  /** Prepends the entries already visited to the outcome of a scan. */
  function Prefixed(out: seq<Criterion>, r: Result<(seq<Criterion>, seq<nat>), TreeError>): Result<(seq<Criterion>, seq<nat>), TreeError>
  {
    match r
    case Ok(v) => Ok((out + v.0, v.1))
    case Err(e) => Err(e)
  }

  lemma PrefixedEmpty(r: Result<(seq<Criterion>, seq<nat>), TreeError>)
    ensures Prefixed([], r) == r
  {
    if r.Ok? {
      assert [] + r.value.0 == r.value.0;
    }
  }

  lemma PrefixedAssoc(a: seq<Criterion>, b: seq<Criterion>, r: Result<(seq<Criterion>, seq<nat>), TreeError>)
    ensures Prefixed(a, Prefixed(b, r)) == Prefixed(a + b, r)
  {
    if r.Ok? {
      assert a + (b + r.value.0) == (a + b) + r.value.0;
    }
  }

  /** `mutateGroup` as the source runs it: a loop over the entries that
      pops the shared path on a match and recurses into nested groups. */
  method MutateGroup(criteria: seq<Criterion>, path: seq<nat>, m: Mutation)
    returns (r: Result<(seq<Criterion>, seq<nat>), TreeError>)
    ensures r == MutateGroupFn(criteria, path, m)
    decreases criteria
  {
    if |path| == 0 && m.Edit? {
      if criteria == [] { return Err(UndefinedItem(0)); }
      if criteria[0].Leaf? { return Err(NotAGroup(0)); }
      if m.item.Leaf? { return Err(OperatorOfLeaf); }
      // no entry index equals `path[path.length - 1]` (undefined) below
      return Ok((criteria[0 := criteria[0].(require := m.item.require)], path));
    }
    var p := path;
    var out: seq<Criterion> := [];
    var curIdx := 0;
    assert criteria[curIdx..] == criteria;
    PrefixedEmpty(Scan(criteria, 0, path, m));
    while curIdx < |criteria|
      invariant 0 <= curIdx <= |criteria| && |out| == curIdx
      invariant Scan(criteria, 0, path, m) == Prefixed(out, Scan(criteria[curIdx..], curIdx, p, m))
    {
      var c := criteria[curIdx];
      assert criteria[curIdx..][0] == c && criteria[curIdx..][1..] == criteria[curIdx + 1..];
      ghost var p0 := p;
      if |p| > 0 && p[|p| - 1] == curIdx {
        p := p[..|p| - 1];
        if c.Leaf? {
          ScanHitsLeaf(criteria[curIdx..], curIdx, p0, m);
          return Err(NotAGroup(curIdx));
        }
        ScanEnter(criteria[curIdx..], curIdx, p0, m);
        var kids: seq<Criterion>;
        if |p| > 0 {
          var sub := MutateGroup(c.criteria, p, m);
          if sub.Err? {
            return Err(sub.error);
          }
          kids, p := sub.value.0, sub.value.1;
        } else {
          var applied := ApplyToChildren(c.criteria, m);
          if applied.Err? {
            return Err(applied.error);
          }
          kids := applied.value;
        }
        c := c.(criteria := kids);
      } else {
        ScanSkip(criteria[curIdx..], curIdx, p0, m);
      }
      assert Scan(criteria[curIdx..], curIdx, p0, m) == Prefixed([c], Scan(criteria[curIdx + 1..], curIdx + 1, p, m));
      PrefixedAssoc(out, [c], Scan(criteria[curIdx + 1..], curIdx + 1, p, m));
      out := out + [c];
      curIdx := curIdx + 1;
    }
    assert criteria[curIdx..] == [] && out + [] == out;
    return Ok((out, p));
  }

  // ===========================================================================
  // What the engine does on the paths the view hands it
  // ===========================================================================

  /** `p.reverse()`: a root-first path in the engine's order. */
  function Reverse(p: seq<nat>): (r: seq<nat>)
    ensures |r| == |p|
    ensures |p| > 0 ==> r[|r| - 1] == p[0] && r[..|r| - 1] == Reverse(p[1..])
  {
    if p == [] then [] else Reverse(p[1..]) + [p[0]]
  }

  /** A root-first path addresses a group of `entries`: every index is in
      range and every entry it passes through, the last included, is a group. */
  predicate ValidPath(entries: seq<Criterion>, p: seq<nat>)
    decreases |p|
  {
    |p| > 0 && p[0] < |entries| && entries[p[0]].Group? &&
    (|p| > 1 ==> ValidPath(entries[p[0]].criteria, p[1..]))
  }

  /** The group a valid path addresses. */
  function Target(entries: seq<Criterion>, p: seq<nat>): (g: Criterion)
    requires ValidPath(entries, p)
    ensures g.Group?
    decreases |p|
  {
    if |p| == 1 then entries[p[0]] else Target(entries[p[0]].criteria, p[1..])
  }

  /** `entries` with the children of the addressed group replaced by `kids`. */
  function ReplaceChildren(entries: seq<Criterion>, p: seq<nat>, kids: seq<Criterion>): (r: seq<Criterion>)
    requires ValidPath(entries, p)
    ensures |r| == |entries|
    decreases |p|
  {
    var g := entries[p[0]];
    entries[p[0] := g.(criteria := if |p| == 1 then kids else ReplaceChildren(g.criteria, p[1..], kids))]
  }

  /** The intended effect of a mutation: applied to the children of the
      group the path addresses, with every other part of the tree as it was. */
  function Mutated(entries: seq<Criterion>, p: seq<nat>, m: Mutation): Result<seq<Criterion>, TreeError>
    requires ValidPath(entries, p)
  {
    match ApplyToChildren(Target(entries, p).criteria, m)
    case Ok(kids) => Ok(ReplaceChildren(entries, p, kids))
    case Err(e) => Err(e)
  }

  /** With the path used up, the rest of a scan leaves every entry alone. */
  lemma {:induction false} ScanWithoutPath(rest: seq<Criterion>, at: nat, m: Mutation)
    ensures Scan(rest, at, [], m) == Ok((rest, []))
    decreases rest
  {
    if rest != [] {
      ScanWithoutPath(rest[1..], at + 1, m);
      assert [rest[0]] + rest[1..] == rest;
    }
  }

  /** The outcome of `Mutated` seen from entry `at` on, with the path used up. */
  function From(r: Result<seq<Criterion>, TreeError>, at: nat): Result<(seq<Criterion>, seq<nat>), TreeError>
  {
    match r
    case Ok(v) => Ok((if at <= |v| then v[at..] else [], []))
    case Err(e) => Err(e)
  }

  /** One step of a scan past an entry the path does not point at. */
  lemma ScanSkip(rest: seq<Criterion>, at: nat, path: seq<nat>, m: Mutation)
    requires rest != [] && !(|path| > 0 && path[|path| - 1] == at)
    ensures Scan(rest, at, path, m) == Prefixed([rest[0]], Scan(rest[1..], at + 1, path, m))
  {
  }

  /** A scan throws on a predicate string the path points at. */
  lemma ScanHitsLeaf(rest: seq<Criterion>, at: nat, path: seq<nat>, m: Mutation)
    requires rest != [] && |path| > 0 && path[|path| - 1] == at && rest[0].Leaf?
    ensures Scan(rest, at, path, m) == Err(NotAGroup(at))
  {
  }

  /** One step of a scan into the group the path points at, once the
      path is popped: the group's children as the inner run leaves them,
      then the later siblings scanned with what is left of the path. */
  lemma ScanEnter(rest: seq<Criterion>, at: nat, path: seq<nat>, m: Mutation)
    requires rest != [] && |path| > 0 && path[|path| - 1] == at && rest[0].Group?
    ensures var popped := path[..|path| - 1];
      var inner := if |popped| > 0 then Scan(rest[0].criteria, 0, popped, m)
                   else Lift(ApplyToChildren(rest[0].criteria, m), popped);
      Scan(rest, at, path, m) ==
        match inner
        case Err(e) => Err(e)
        case Ok(iv) => Prefixed([rest[0].(criteria := iv.0)], Scan(rest[1..], at + 1, iv.1, m))
  {
  }

  /** `Mutated` leaves every top-level entry but the addressed one alone. */
  lemma MutatedKeepsOthers(entries: seq<Criterion>, p: seq<nat>, m: Mutation, i: nat)
    requires ValidPath(entries, p) && i < |entries| && i != p[0]
    ensures Mutated(entries, p, m).Ok? ==> Mutated(entries, p, m).value[i] == entries[i]
  {
  }

  /** Seen from entry `at`, an outcome whose entry `at` is `e` is `e`
      followed by the outcome seen from `at + 1`. */
  lemma FromStep(r: Result<seq<Criterion>, TreeError>, at: nat, e: Criterion)
    requires r.Ok? ==> at < |r.value| && r.value[at] == e
    ensures From(r, at) == Prefixed([e], From(r, at + 1))
  {
    if r.Ok? {
      assert r.value[at..] == [e] + r.value[at + 1..];
    }
  }

  /** A scan steps past an entry before the first index of the path the
      way `Mutated` leaves that entry alone. */
  lemma ScanPastEntry(entries: seq<Criterion>, at: nat, p: seq<nat>, m: Mutation)
    requires ValidPath(entries, p) && at < p[0]
    requires Scan(entries[at + 1..], at + 1, Reverse(p), m) == From(Mutated(entries, p, m), at + 1)
    ensures Scan(entries[at..], at, Reverse(p), m) == From(Mutated(entries, p, m), at)
  {
    var rest := entries[at..];
    assert rest[0] == entries[at] && rest[1..] == entries[at + 1..];
    ScanSkip(rest, at, Reverse(p), m);
    MutatedKeepsOthers(entries, p, m, at);
    FromStep(Mutated(entries, p, m), at, entries[at]);
  }

  /** A scan from entry `at` along a valid reversed path does what
      `Mutated` says to the entries from `at` on, and uses the path up. */
  lemma {:induction false} ScanFollowsPath(entries: seq<Criterion>, at: nat, p: seq<nat>, m: Mutation)
    requires ValidPath(entries, p) && at <= p[0]
    ensures Scan(entries[at..], at, Reverse(p), m) == From(Mutated(entries, p, m), at)
    decreases |p|, |entries| - at
  {
    if at < p[0] {
      ScanFollowsPath(entries, at + 1, p, m);
      ScanPastEntry(entries, at, p, m);
    } else {
      ScanAtTarget(entries, p, m);
    }
  }

  /** `Mutated` seen from the first index of the path: the addressed
      entry with its children mutated one level down, then the later
      siblings as they were. */
  lemma MutatedFromTarget(entries: seq<Criterion>, p: seq<nat>, m: Mutation)
    requires ValidPath(entries, p)
    ensures var g := entries[p[0]];
      var below := if |p| > 1 then Mutated(g.criteria, p[1..], m) else ApplyToChildren(g.criteria, m);
      From(Mutated(entries, p, m), p[0]) ==
        match below
        case Err(e) => Err(e)
        case Ok(kids) => Ok(([g.(criteria := kids)] + entries[p[0] + 1..], []))
  {
    var at := p[0];
    var r := Mutated(entries, p, m);
    if r.Ok? {
      assert r.value[at..] == [r.value[at]] + entries[at + 1..];
    }
  }

  /** The scan that reaches the first index of the path. */
  lemma {:induction false} ScanAtTarget(entries: seq<Criterion>, p: seq<nat>, m: Mutation)
    requires ValidPath(entries, p)
    ensures Scan(entries[p[0]..], p[0], Reverse(p), m) == From(Mutated(entries, p, m), p[0])
    decreases |p|, 0
  {
    var at := p[0];
    var rest := entries[at..];
    assert rest[0] == entries[at] && rest[1..] == entries[at + 1..];
    var g := entries[at];
    ScanEnter(rest, at, Reverse(p), m);
    ScanWithoutPath(entries[at + 1..], at + 1, m);
    MutatedFromTarget(entries, p, m);
    if |p| > 1 {
      ScanFollowsPath(g.criteria, 0, p[1..], m);
      assert g.criteria[0..] == g.criteria;
    }
  }

  /** A handler's run of the engine on `[root]` and a valid parent path does
      exactly what `Mutated` describes, and consumes the whole path. */
  lemma MutateFollowsPath(root: Criterion, parent: seq<nat>, m: Mutation)
    requires ValidPath([root], parent)
    ensures MutateGroupFn([root], Reverse(parent), m) == Lift(Mutated([root], parent, m), [])
  {
    ScanFollowsPath([root], 0, parent, m);
    assert [root][0..] == [root];
  }

  // ---- properties of the intended mutation ------------------------------------

  /** After the replacement the path still addresses a group, with the same
      operator and the new children. */
  lemma {:induction false} ReplaceChildrenAtTarget(entries: seq<Criterion>, p: seq<nat>, kids: seq<Criterion>)
    requires ValidPath(entries, p)
    ensures ValidPath(ReplaceChildren(entries, p, kids), p)
    ensures Target(ReplaceChildren(entries, p, kids), p) == Group(Target(entries, p).require, kids)
    decreases |p|
  {
    if |p| > 1 {
      ReplaceChildrenAtTarget(entries[p[0]].criteria, p[1..], kids);
    }
  }

  /** Two root-first paths part ways: neither is a prefix of the other. */
  predicate Diverge(p: seq<nat>, q: seq<nat>)
    decreases |p|
  {
    |p| > 0 && |q| > 0 && (p[0] != q[0] || Diverge(p[1..], q[1..]))
  }

  /** Every group off the mutated path is left exactly as it was. */
  lemma {:induction false} ReplaceChildrenElsewhere(entries: seq<Criterion>, p: seq<nat>, kids: seq<Criterion>, q: seq<nat>)
    requires ValidPath(entries, p) && ValidPath(entries, q) && Diverge(p, q)
    ensures ValidPath(ReplaceChildren(entries, p, kids), q)
    ensures Target(ReplaceChildren(entries, p, kids), q) == Target(entries, q)
    decreases |p|
  {
    if p[0] == q[0] {
      ReplaceChildrenElsewhere(entries[p[0]].criteria, p[1..], kids, q[1..]);
    }
  }

  /** The groups the path passes through keep their operators and their
      number of children. */
  lemma {:induction false} ReplaceChildrenKeepsAncestors(entries: seq<Criterion>, p: seq<nat>, kids: seq<Criterion>, q: seq<nat>)
    requires ValidPath(entries, p) && 0 < |q| < |p| && q == p[..|q|]
    ensures ValidPath(entries, q) && ValidPath(ReplaceChildren(entries, p, kids), q)
    ensures Target(ReplaceChildren(entries, p, kids), q).require == Target(entries, q).require
    ensures |Target(ReplaceChildren(entries, p, kids), q).criteria| == |Target(entries, q).criteria|
    decreases |p|
  {
    if |q| > 1 {
      assert q[1..] == p[1..][..|q| - 1];
      ReplaceChildrenKeepsAncestors(entries[p[0]].criteria, p[1..], kids, q[1..]);
    }
  }

  /** Inserting at a group and then deleting its last child restores the
      tree. */
  lemma InsertThenDeleteRestores(entries: seq<Criterion>, p: seq<nat>, item: Criterion)
    requires ValidPath(entries, p)
    ensures Mutated(entries, p, Insert(item)).Ok?
    ensures ValidPath(Mutated(entries, p, Insert(item)).value, p)
    ensures Mutated(Mutated(entries, p, Insert(item)).value, p, Delete(|Target(entries, p).criteria|)) == Ok(entries)
  {
    var kids := Target(entries, p).criteria;
    var inserted := ReplaceChildren(entries, p, kids + [item]);
    ReplaceChildrenAtTarget(entries, p, kids + [item]);
    assert Collection.SpliceOut(kids + [item], |kids|) == kids;
    ReplaceChildrenTwice(entries, p, kids + [item], kids);
    ReplaceChildrenSame(entries, p);
  }

  /** A second replacement at the same path overrides the first. */
  lemma {:induction false} ReplaceChildrenTwice(entries: seq<Criterion>, p: seq<nat>, k1: seq<Criterion>, k2: seq<Criterion>)
    requires ValidPath(entries, p)
    ensures ValidPath(ReplaceChildren(entries, p, k1), p)
    ensures ReplaceChildren(ReplaceChildren(entries, p, k1), p, k2) == ReplaceChildren(entries, p, k2)
    decreases |p|
  {
    ReplaceChildrenAtTarget(entries, p, k1);
    if |p| > 1 {
      ReplaceChildrenTwice(entries[p[0]].criteria, p[1..], k1, k2);
    }
  }

  /** Replacing the children by themselves changes nothing. */
  lemma {:induction false} ReplaceChildrenSame(entries: seq<Criterion>, p: seq<nat>)
    requires ValidPath(entries, p)
    ensures ReplaceChildren(entries, p, Target(entries, p).criteria) == entries
    decreases |p|
  {
    if |p| > 1 {
      ReplaceChildrenSame(entries[p[0]].criteria, p[1..]);
    }
  }

  // ---- the mutation on one group's children -------------------------------

  /** An edit fails exactly when it is more than one past the end, when it
      would append a group, or when it would copy an operator from a
      predicate string onto a group. */
  lemma EditFailsWhen(kids: seq<Criterion>, idx: nat, item: Criterion)
    ensures ApplyToChildren(kids, Edit(idx, item)).Err? <==>
            idx > |kids| || (idx == |kids| && item.Group?) ||
            (idx < |kids| && kids[idx].Group? && item.Leaf?)
  {
  }

  /** A successful edit touches only entry `idx`: a group keeps its children
      and takes the new operator; a predicate string (or a new entry one
      past the end) becomes the item. */
  lemma EditTouchesOneEntry(kids: seq<Criterion>, idx: nat, item: Criterion)
    requires ApplyToChildren(kids, Edit(idx, item)).Ok?
    ensures var r := ApplyToChildren(kids, Edit(idx, item)).value;
      |r| == (if idx == |kids| then |kids| + 1 else |kids|) &&
      (forall i | 0 <= i < |kids| && i != idx :: r[i] == kids[i]) &&
      (if idx < |kids| && kids[idx].Group?
       then r[idx] == Group(item.require, kids[idx].criteria)
       else r[idx] == item)
  {
  }

  /** A delete removes entry `idx` and shifts the later ones down; past the
      end it changes nothing. */
  lemma DeleteRemovesOneEntry(kids: seq<Criterion>, idx: nat)
    ensures var r := ApplyToChildren(kids, Delete(idx)).value;
      ApplyToChildren(kids, Delete(idx)).Ok? &&
      (idx < |kids| ==> r == kids[..idx] + kids[idx + 1..]) &&
      (idx >= |kids| ==> r == kids)
  {
  }

  // ---- paths that do not address a group -----------------------------------

  /** Following the root-first path runs into a predicate string before it
      ends (or the path ends on one). */
  predicate EntersLeaf(entries: seq<Criterion>, p: seq<nat>)
    decreases |p|
  {
    |p| > 0 && p[0] < |entries| &&
    (entries[p[0]].Leaf? || (|p| > 1 && EntersLeaf(entries[p[0]].criteria, p[1..])))
  }

  /** A path that runs into a predicate string makes the engine throw
      "not a group", before any mutation is applied. */
  lemma {:induction false} ScanIntoLeafThrows(entries: seq<Criterion>, at: nat, p: seq<nat>, m: Mutation)
    requires EntersLeaf(entries, p) && at <= p[0]
    ensures Scan(entries[at..], at, Reverse(p), m).Err?
    ensures Scan(entries[at..], at, Reverse(p), m).error.NotAGroup?
    decreases |p|, |entries| - at
  {
    var rest := entries[at..];
    assert rest[0] == entries[at] && rest[1..] == entries[at + 1..];
    if at < p[0] {
      ScanSkip(rest, at, Reverse(p), m);
      ScanIntoLeafThrows(entries, at + 1, p, m);
    } else if entries[at].Group? {
      ScanEnter(rest, at, Reverse(p), m);
      ScanIntoLeafThrows(entries[at].criteria, 0, p[1..], m);
      assert entries[at].criteria[0..] == entries[at].criteria;
    } else {
      ScanHitsLeaf(rest, at, Reverse(p), m);
    }
  }

  /** A parent path that runs into a predicate string leaves the handler
      with a "not a group" error. */
  lemma MutateIntoLeafThrows(root: Criterion, parent: seq<nat>, m: Mutation)
    requires EntersLeaf([root], parent)
    ensures MutateGroupFn([root], Reverse(parent), m).Err?
    ensures MutateGroupFn([root], Reverse(parent), m).error.NotAGroup?
  {
    ScanIntoLeafThrows([root], 0, parent, m);
    assert [root][0..] == [root];
  }

  /** The shared path stack makes a path that is out of range under one
      group match a later sibling: an insert addressed to the missing
      group 0/0/2 lands in group 0/2. */
  lemma MisaddressedInsertLandsOnSibling()
    ensures var root := Group(All, [Group(All, []), Leaf("a"), Group(Any, [])]);
      !ValidPath([root], [0, 0, 2]) &&
      MutateGroupFn([root], Reverse([0, 0, 2]), Insert(Leaf("x"))) ==
        Ok(([Group(All, [Group(All, []), Leaf("a"), Group(Any, [Leaf("x")])])], []))
  {
    var root := Group(All, [Group(All, []), Leaf("a"), Group(Any, [])]);
    var top := Group(All, [Group(All, []), Leaf("a"), Group(Any, [Leaf("x")])]);
    MisaddressedScanOfRootChildren();
    assert Reverse([0, 0, 2]) == [2, 0, 0];
    assert [root][1..] == [] && [2, 0, 0][..2] == [2, 0];
    assert Scan([], 1, [], Insert(Leaf("x"))) == Ok(([], []));
    assert root.(criteria := top.criteria) == top && [top] + [] == [top];
  }

  /** The scan of the root's children in the example above: index 0 takes
      the first pop, its empty child list leaves `[2]`, and index 2 takes it. */
  lemma MisaddressedScanOfRootChildren()
    ensures Scan([Group(All, []), Leaf("a"), Group(Any, [])], 0, [2, 0], Insert(Leaf("x")))
         == Ok(([Group(All, []), Leaf("a"), Group(Any, [Leaf("x")])], []))
  {
    var m := Insert(Leaf("x"));
    var g2 := Group(Any, [Leaf("x")]);
    var kids := [Group(All, []), Leaf("a"), Group(Any, [])];
    var s1 := [Leaf("a"), Group(Any, [])];
    MisaddressedScanOfLastSiblings();
    assert kids[0] == Group(All, []) && kids[1..] == s1 && [2, 0][..1] == [2];
    assert Scan([], 0, [2], m) == Ok(([], [2]));
    assert Group(All, []).(criteria := []) == Group(All, []);
    assert [Group(All, [])] + [Leaf("a"), g2] == [Group(All, []), Leaf("a"), g2];
  }

  lemma MisaddressedScanOfLastSiblings()
    ensures Scan([Leaf("a"), Group(Any, [])], 1, [2], Insert(Leaf("x")))
         == Ok(([Leaf("a"), Group(Any, [Leaf("x")])], []))
  {
    var m := Insert(Leaf("x"));
    var g2 := Group(Any, [Leaf("x")]);
    var s2 := [Group(Any, [])];
    var s1 := [Leaf("a"), Group(Any, [])];
    assert s2[1..] == [] && [2][..0] == [];
    assert Scan([], 3, [], m) == Ok(([], []));
    assert [] + [Leaf("x")] == [Leaf("x")];
    assert Lift(ApplyToChildren([], m), []) == Ok(([Leaf("x")], []));
    assert [g2] + [] == [g2];
    assert Scan(s2, 2, [2], m) == Ok(([g2], []));
    assert s1[0] == Leaf("a") && s1[1..] == s2;
    assert [Leaf("a")] + [g2] == [Leaf("a"), g2];
  }

  // ===========================================================================
  // The component's handlers
  // ===========================================================================

  /** What a handler leaves as the tree: `newCriteria[0]` once the engine
      has run on a copy of `[crit]` with the reversed parent path, or the
      error it threw. */
  function Updated(crit: Criterion, parent: seq<nat>, m: Mutation): Result<Criterion, TreeError>
  {
    match MutateGroupFn([crit], Reverse(parent), m)
    case Ok(v) => Ok(v.0[0])
    case Err(e) => Err(e)
  }

  /** On a parent path that addresses a group, a handler succeeds exactly
      when the mutation applies to that group's children, and then leaves
      the tree with only those children replaced. */
  lemma UpdatedFollowsPath(root: Criterion, parent: seq<nat>, m: Mutation)
    requires ValidPath([root], parent)
    ensures var applied := ApplyToChildren(Target([root], parent).criteria, m);
      Updated(root, parent, m).Ok? == applied.Ok? &&
      (applied.Ok? ==> Updated(root, parent, m).value == ReplaceChildren([root], parent, applied.value)[0])
  {
    MutateFollowsPath(root, parent, m);
  }

  /** An edit with the empty path is the root operator edit: whatever its
      index, it succeeds exactly when the list starts with a group and the
      item is a group, and then only the first entry's operator changes;
      otherwise it throws on the missing entry, on a predicate string at
      the root, or on an item that has no operator. */
  lemma EmptyPathEdit(criteria: seq<Criterion>, idx: nat, item: Criterion)
    ensures var r := MutateGroupFn(criteria, [], Edit(idx, item));
      (r.Ok? <==> criteria != [] && criteria[0].Group? && item.Group?) &&
      (criteria == [] ==> r == Err(UndefinedItem(0))) &&
      (criteria != [] && criteria[0].Leaf? ==> r == Err(NotAGroup(0))) &&
      (criteria != [] && criteria[0].Group? && item.Leaf? ==> r == Err(OperatorOfLeaf)) &&
      (r.Ok? ==> (r.value.1 == [] && |r.value.0| == |criteria| &&
                  r.value.0[0] == Group(item.require, criteria[0].criteria) &&
                  r.value.0[1..] == criteria[1..]))
  {
  }

  /** The root's operator buttons edit with the empty parent path: the root
      takes the chosen operator and keeps its children. */
  lemma RootOperatorEdit(root: Criterion, op: Operator)
    requires root.Group?
    ensures Updated(root, [], Edit(0, root.(require := op))) == Ok(Group(op, root.criteria))
  {
  }

  /** The `CriteriaTree` component's state. */
  class CriteriaEditor {
    /** The tree being edited (`crit`). */
    var crit: Criterion
    /** The trees handed to `onUpdate`, oldest first. */
    var published: seq<Criterion>
    /** Whether an `onUpdate` callback was supplied; the handlers exist only then. */
    const editable: bool

    constructor(criteria: Criterion, editable: bool)
      ensures crit == criteria && published == [] && this.editable == editable
    {
      crit := criteria;
      published := [];
      this.editable := editable;
    }

    /** The effect keyed on the serialized `criteria` prop: a new prop
        replaces the tree being edited. */
    method Reseed(criteria: Criterion)
      modifies this
      ensures crit == criteria && published == old(published)
    {
      crit := criteria;
    }

    /** Runs the engine on a copy of `[crit]` and, when it does not throw,
        stores `newCriteria[0]` and, on `commit`, hands it to `onUpdate`. */
    method Apply(parent: seq<nat>, m: Mutation, commit: bool) returns (r: Result<Criterion, TreeError>)
      modifies this
      ensures r == Updated(old(crit), parent, m)
      ensures r.Ok? ==> crit == r.value && published == old(published) + (if commit then [r.value] else [])
      ensures r.Err? ==> crit == old(crit) && published == old(published)
    {
      var res := MutateGroup([crit], Reverse(parent), m);
      if res.Err? {
        return Err(res.error);
      }
      crit := res.value.0[0];
      if commit {
        published := published + [crit];
      }
      return Ok(crit);
    }

    /** `onAddGroup`: appends a blank group to the addressed group and publishes. */
    method OnAddGroup(parent: seq<nat>, blank: Criterion) returns (r: Result<Criterion, TreeError>)
      requires editable
      modifies this
      ensures r == Updated(old(crit), parent, Insert(blank))
      ensures r.Ok? ==> crit == r.value && published == old(published) + [r.value]
      ensures r.Err? ==> crit == old(crit) && published == old(published)
    {
      r := Apply(parent, Insert(blank), true);
    }

    /** `onDelete`: removes child `idx` of the addressed group and publishes. */
    method OnDelete(parent: seq<nat>, idx: nat) returns (r: Result<Criterion, TreeError>)
      requires editable
      modifies this
      ensures r == Updated(old(crit), parent, Delete(idx))
      ensures r.Ok? ==> crit == r.value && published == old(published) + [r.value]
      ensures r.Err? ==> crit == old(crit) && published == old(published)
    {
      r := Apply(parent, Delete(idx), true);
    }

    /** `onEditItem`: edits child `idx` of the addressed group; publishes
        only when `commit` is set. */
    method OnEditItem(parent: seq<nat>, idx: nat, item: Criterion, commit: bool) returns (r: Result<Criterion, TreeError>)
      requires editable
      modifies this
      ensures r == Updated(old(crit), parent, Edit(idx, item))
      ensures r.Ok? ==> crit == r.value && published == old(published) + (if commit then [r.value] else [])
      ensures r.Err? ==> crit == old(crit) && published == old(published)
    {
      r := Apply(parent, Edit(idx, item), commit);
    }

    /** A predicate's `onConfirm`: a blank value is ignored; otherwise the
        trimmed text is committed as the edit. */
    method OnConfirmText(parent: seq<nat>, idx: nat, val: string) returns (r: Option<Result<Criterion, TreeError>>)
      requires editable
      modifies this
      ensures Text.IsBlank(val) ==> r == None && crit == old(crit) && published == old(published)
      ensures !Text.IsBlank(val) ==> r == Some(Updated(old(crit), parent, Edit(idx, Leaf(Text.Trim(val)))))
      ensures !Text.IsBlank(val) && r.value.Ok? ==> crit == r.value.value && published == old(published) + [crit]
      ensures !Text.IsBlank(val) && r.value.Err? ==> crit == old(crit) && published == old(published)
    {
      if Text.Trim(val) == "" {
        return None;
      }
      var res := OnEditItem(parent, idx, Leaf(Text.Trim(val)), true);
      return Some(res);
    }
  }

  // ===========================================================================
  // The tree-node view
  // ===========================================================================

  /** Which handlers the view wires up and whether it shows the implied tree. */
  datatype ViewOpts = ViewOpts(implied: bool, editable: bool)

  /** A group shows its operator (as buttons when they can be chosen); a
      predicate shows its text (editable or not). */
  datatype NodeLabel = OperatorLabel(op: Operator, choosable: bool) | TextLabel(text: string, editable: bool)

  /** A tree node. Its id is `${parent.join('-')}-${idx}-${implied}`. */
  datatype TreeNode = TreeNode(
    parent: seq<nat>,
    idx: nat,
    implied: bool,
    disabled: bool,
    manualIcon: bool,
    caption: NodeLabel,
    impliedNote: bool,
    canAddGroup: bool,
    canDelete: bool,
    children: seq<TreeNode>)

  /** One node without its children, for entry `idx` of a list of `len`
      entries (the trailing placeholder included) under `path`. */
  function NodeFor(c: Criterion, idx: nat, len: nat, path: seq<nat>, o: ViewOpts, children: seq<TreeNode>): TreeNode
  {
    var isRoot := |path| == 0;
    TreeNode(path, idx, o.implied, o.implied, isRoot && o.implied,
             if c.Group? then OperatorLabel(c.require, o.editable) else TextLabel(c.text, o.editable),
             c.Group? && o.implied && isRoot,
             c.Group? && o.editable,
             idx + 1 < len && o.editable && !isRoot,
             children)
  }

  /** `criteriaToNodes` over the entries of `cs` from `from` on; `len` is the
      length of the list shown, which under an editable view counts the
      trailing '' placeholder appended to every group's children. */
  function Nodes(cs: seq<Criterion>, from: nat, len: nat, path: seq<nat>, o: ViewOpts): (ns: seq<TreeNode>)
    requires from <= |cs|
    ensures |ns| == |cs| - from
    decreases cs, |cs| - from
  {
    if from == |cs| then []
    else
      var c := cs[from];
      var kids := if c.Group? then ChildList(c.criteria, path + [from], o, Nodes(c.criteria, 0, |c.criteria| + (if o.editable then 1 else 0), path + [from], o)) else [];
      [NodeFor(c, from, len, path, o, kids)] + Nodes(cs, from + 1, len, path, o)
  }

  /** A group's child nodes: its entries, then the placeholder when editable. */
  function ChildList(criteria: seq<Criterion>, path: seq<nat>, o: ViewOpts, entries: seq<TreeNode>): seq<TreeNode>
  {
    entries + (if o.editable then [NodeFor(Leaf(""), |criteria|, |criteria| + 1, path, o, [])] else [])
  }

  /** The `Tree` contents: the implied tree, read-only, then the tree being edited. */
  function Contents(crit: Criterion, implied: Option<Criterion>, editable: bool): seq<TreeNode>
  {
    (if implied.Some? then Nodes([implied.value], 0, 1, [], ViewOpts(true, false)) else [])
    + Nodes([crit], 0, 1, [], ViewOpts(false, editable))
  }

  /** The parts of a node that do not depend on what it shows. */
  predicate Placed(n: TreeNode, idx: nat, len: nat, path: seq<nat>, o: ViewOpts)
  {
    n.parent == path && n.idx == idx && n.implied == o.implied && n.disabled == o.implied &&
    n.canDelete == (o.editable && |path| > 0 && idx + 1 < len)
  }

  /** A node shows predicate `text`. */
  predicate ShowsText(text: string, n: TreeNode, idx: nat, len: nat, path: seq<nat>, o: ViewOpts)
  {
    Placed(n, idx, len, path, o) && n.caption == TextLabel(text, o.editable) && n.children == [] && !n.canAddGroup
  }

  /** A node shows criterion `c`, entry `idx` of a list of `len` under `path`:
      its label and id match, delete is offered exactly on entries before the
      last one outside the root, and a group's children show its entries in
      order followed, under an editable view, by a '' placeholder that
      cannot be deleted. */
  predicate Shows(c: Criterion, n: TreeNode, idx: nat, len: nat, path: seq<nat>, o: ViewOpts)
    decreases c
  {
    match c
    case Leaf(text) => ShowsText(text, n, idx, len, path, o)
    case Group(op, criteria) =>
      Placed(n, idx, len, path, o) &&
      n.caption == OperatorLabel(op, o.editable) && n.canAddGroup == o.editable &&
      var shown := |criteria| + (if o.editable then 1 else 0);
      |n.children| == shown &&
      (forall i | 0 <= i < |criteria| :: Shows(criteria[i], n.children[i], i, shown, path + [idx], o)) &&
      (o.editable ==> ShowsText("", n.children[|criteria|], |criteria|, shown, path + [idx], o))
  }

  /** Node `i` of the nodes built from entry `from` on is the first node
      built from entry `from + i` on. */
  lemma {:induction false} NodesSuffix(cs: seq<Criterion>, from: nat, len: nat, path: seq<nat>, o: ViewOpts, i: nat)
    requires from + i < |cs|
    ensures Nodes(cs, from, len, path, o)[i] == Nodes(cs, from + i, len, path, o)[0]
    decreases i
  {
    if i > 0 {
      NodesSuffix(cs, from + 1, len, path, o, i - 1);
      assert Nodes(cs, from, len, path, o)[i] == Nodes(cs, from + 1, len, path, o)[i - 1];
    }
  }

  /** Node `i` shows entry `from + i`. */
  lemma NodesShowAt(cs: seq<Criterion>, from: nat, len: nat, path: seq<nat>, o: ViewOpts, i: nat)
    requires from + i < |cs|
    ensures Shows(cs[from + i], Nodes(cs, from, len, path, o)[i], from + i, len, path, o)
    decreases cs, |cs| - from, 2
  {
    NodesSuffix(cs, from, len, path, o, i);
    FirstNodeShows(cs, from + i, len, path, o);
  }

  /** `criteriaToNodes` shows every entry of the list, in order. */
  lemma NodesShow(cs: seq<Criterion>, from: nat, len: nat, path: seq<nat>, o: ViewOpts)
    requires from <= |cs|
    ensures |Nodes(cs, from, len, path, o)| == |cs| - from
    ensures forall i | 0 <= i < |cs| - from :: Shows(cs[from + i], Nodes(cs, from, len, path, o)[i], from + i, len, path, o)
    decreases cs, |cs| - from, 3
  {
    forall i | 0 <= i < |cs| - from
      ensures Shows(cs[from + i], Nodes(cs, from, len, path, o)[i], from + i, len, path, o)
    {
      NodesShowAt(cs, from, len, path, o, i);
    }
  }

  /** The node built for entry `from` shows it. */
  lemma {:induction false} FirstNodeShows(cs: seq<Criterion>, from: nat, len: nat, path: seq<nat>, o: ViewOpts)
    requires from < |cs|
    ensures Shows(cs[from], Nodes(cs, from, len, path, o)[0], from, len, path, o)
    decreases cs, 0, 0
  {
    var c := cs[from];
    var n := Nodes(cs, from, len, path, o)[0];
    if c.Group? {
      var shown := |c.criteria| + (if o.editable then 1 else 0);
      var entries := Nodes(c.criteria, 0, shown, path + [from], o);
      NodesShow(c.criteria, 0, shown, path + [from], o);
      assert n.children == ChildList(c.criteria, path + [from], o, entries);
      forall i | 0 <= i < |c.criteria|
        ensures Shows(c.criteria[i], n.children[i], i, shown, path + [from], o)
      {
        assert n.children[i] == entries[i];
      }
    }
  }

  /** The tree contents: the implied criteria, when given, as a disabled
      tree with no handlers and the manual icon on its root, then the tree
      being edited, whose root is never deletable. */
  lemma ContentsShow(crit: Criterion, implied: Option<Criterion>, editable: bool)
    ensures var ns := Contents(crit, implied, editable);
      var k := if implied.Some? then 1 else 0;
      |ns| == k + 1 &&
      (implied.Some? ==> Shows(implied.value, ns[0], 0, 1, [], ViewOpts(true, false)) && ns[0].manualIcon) &&
      Shows(crit, ns[k], 0, 1, [], ViewOpts(false, editable)) && !ns[k].canDelete && !ns[k].manualIcon
  {
    NodesShow([crit], 0, 1, [], ViewOpts(false, editable));
    if implied.Some? {
      NodesShow([implied.value], 0, 1, [], ViewOpts(true, false));
    }
  }
}
