/** The collection-editing convention shared by every editable child list
    (criteria leaves, roles, resources, procedure steps, drill-plan
    requirements, preparation steps and steps), written once and
    parameterised by the list's own blankness test:

    - while editable, the working list is the published list plus one
      trailing blank entry;
    - a commit publishes the working list with blank entries filtered out
      and resets the working list to that plus a fresh trailing blank;
    - the delete action is offered on every row but the trailing blank.

    It also holds the two list primitives the handlers use, `splice(idx, 1)`
    and `Array.prototype.sort` with an abstract comparison. */
module Collection {

  /** The working list shown for editing: `onUpdate ? [...items, blank] : items`. */
  function Working<T>(items: seq<T>, editable: bool, blank: T): (w: seq<T>)
    ensures editable ==> |w| == |items| + 1 && w[..|items|] == items && w[|items|] == blank
    ensures !editable ==> w == items
  {
    if editable then items + [blank] else items
  }

  /** `items.filter(x => !isBlank(x))`. */
  function Sanitize<T>(items: seq<T>, isBlank: T -> bool): (r: seq<T>)
    ensures |r| <= |items|
  {
    if items == [] then []
    else if isBlank(items[0]) then Sanitize(items[1..], isBlank)
    else [items[0]] + Sanitize(items[1..], isBlank)
  }

  /** The filter keeps exactly the entries that are not blank. */
  lemma {:induction false} SanitizeKeepsExactlyNonBlank<T>(items: seq<T>, isBlank: T -> bool)
    ensures forall i | 0 <= i < |Sanitize(items, isBlank)| ::
      !isBlank(Sanitize(items, isBlank)[i]) && Sanitize(items, isBlank)[i] in items
    ensures forall x | x in items && !isBlank(x) :: x in Sanitize(items, isBlank)
  {
    if items != [] {
      SanitizeKeepsExactlyNonBlank(items[1..], isBlank);
      assert items == [items[0]] + items[1..];
    }
  }

  /** Sanitizing distributes over concatenation, so it keeps the order of
      the surviving entries. */
  lemma {:induction false} SanitizeConcat<T>(a: seq<T>, b: seq<T>, isBlank: T -> bool)
    ensures Sanitize(a + b, isBlank) == Sanitize(a, isBlank) + Sanitize(b, isBlank)
  {
    if a != [] {
      assert (a + b)[0] == a[0] && (a + b)[1..] == a[1..] + b;
      SanitizeConcat(a[1..], b, isBlank);
    } else {
      assert a + b == b;
    }
  }

  /** A list without blank entries is left as it is. */
  lemma {:induction false} SanitizeKeepsNonBlank<T>(items: seq<T>, isBlank: T -> bool)
    requires forall i | 0 <= i < |items| :: !isBlank(items[i])
    ensures Sanitize(items, isBlank) == items
  {
    if items != [] {
      SanitizeKeepsNonBlank(items[1..], isBlank);
    }
  }

  /** Sanitizing is idempotent: re-filtering a published list changes nothing. */
  lemma SanitizeIdempotent<T>(items: seq<T>, isBlank: T -> bool)
    ensures Sanitize(Sanitize(items, isBlank), isBlank) == Sanitize(items, isBlank)
  {
    SanitizeKeepsExactlyNonBlank(items, isBlank);
    SanitizeKeepsNonBlank(Sanitize(items, isBlank), isBlank);
  }

  /** The trailing blank of a working list never reaches the published list. */
  lemma SanitizeWorking<T>(items: seq<T>, editable: bool, blank: T, isBlank: T -> bool)
    requires isBlank(blank)
    ensures Sanitize(Working(items, editable, blank), isBlank) == Sanitize(items, isBlank)
  {
    if editable {
      SanitizeConcat(items, [blank], isBlank);
      assert Sanitize([blank], isBlank) == [];
    }
  }

  /** The working list after a commit: the sanitized list plus a fresh blank. */
  function Recommit<T>(items: seq<T>, isBlank: T -> bool, blank: T): (w: seq<T>)
    ensures |w| >= 1 && w[|w| - 1] == blank
  {
    Sanitize(items, isBlank) + [blank]
  }

  /** After a commit only the trailing entry is blank, and committing keeps
      what would be published. */
  lemma RecommitShape<T>(items: seq<T>, isBlank: T -> bool, blank: T)
    requires isBlank(blank)
    ensures var w := Recommit(items, isBlank, blank);
      isBlank(w[|w| - 1]) &&
      (forall i | 0 <= i < |w| - 1 :: !isBlank(w[i])) &&
      Sanitize(w, isBlank) == Sanitize(items, isBlank)
  {
    var w := Recommit(items, isBlank, blank);
    SanitizeKeepsExactlyNonBlank(items, isBlank);
    assert w[..|w| - 1] == Sanitize(items, isBlank);
    SanitizeWorking(Sanitize(items, isBlank), true, blank, isBlank);
    SanitizeIdempotent(items, isBlank);
  }

  /** Committing an unchanged working list again is a no-op. */
  lemma RecommitIdempotent<T>(items: seq<T>, isBlank: T -> bool, blank: T)
    requires isBlank(blank)
    ensures Recommit(Recommit(items, isBlank, blank), isBlank, blank) == Recommit(items, isBlank, blank)
  {
    RecommitShape(items, isBlank, blank);
  }

  /** The delete action is offered on every row but the last (the trailing blank). */
  predicate DeleteOffered(editable: bool, idx: nat, len: nat) {
    editable && idx + 1 < len
  }

  /** On a working list, exactly the rows of real entries can be deleted. */
  lemma DeleteOfferedOnRealEntries<T>(items: seq<T>, blank: T, idx: nat)
    ensures DeleteOffered(true, idx, |Working(items, true, blank)|) <==> idx < |items|
  {
  }

  /** `xs.splice(idx, 1)` for an index that is not negative: removes the
      entry at `idx` and shifts the later ones down; a no-op past the end. */
  function SpliceOut<T>(xs: seq<T>, idx: nat): (r: seq<T>)
    ensures idx < |xs| ==> |r| == |xs| - 1
    ensures idx < |xs| ==> forall j | 0 <= j < |r| :: r[j] == if j < idx then xs[j] else xs[j + 1]
    ensures idx >= |xs| ==> r == xs
  {
    if idx < |xs| then xs[..idx] + xs[idx + 1..] else xs
  }

  /** `xs[idx] = v` for an index at most the length (at the length it appends). */
  function Assign<T>(xs: seq<T>, idx: nat, v: T): (r: seq<T>)
    requires idx <= |xs|
    ensures |r| == if idx < |xs| then |xs| else |xs| + 1
    ensures r[idx] == v
    ensures forall j | 0 <= j < |xs| && j != idx :: r[j] == xs[j]
  {
    if idx < |xs| then xs[idx := v] else xs + [v]
  }

  // ---- sorting with an abstract comparison --------------------------------

  /** `leq(a, b)` stands for `a.localeCompare(b) <= 0`; all the sort needs of
      it is that any two keys are comparable. */
  ghost predicate Total(leq: (string, string) -> bool) {
    forall a, b :: leq(a, b) || leq(b, a)
  }

  ghost predicate SortedBy<T>(s: seq<T>, key: T -> string, leq: (string, string) -> bool) {
    forall i | 0 < i < |s| :: leq(key(s[i - 1]), key(s[i]))
  }

  /** Inserts `x` before the first entry whose key it does not exceed, so that
      it stays ahead of entries with an equal key (the sort is stable). */
  function Insert<T>(x: T, s: seq<T>, key: T -> string, leq: (string, string) -> bool): (r: seq<T>)
    ensures |r| == |s| + 1 && multiset(r) == multiset(s) + multiset{x}
    ensures r[0] == x || (s != [] && r[0] == s[0])
  {
    if s == [] || leq(key(x), key(s[0])) then [x] + s
    else
      assert s == [s[0]] + s[1..];
      [s[0]] + Insert(x, s[1..], key, leq)
  }

  lemma {:induction false} InsertSorted<T>(x: T, s: seq<T>, key: T -> string, leq: (string, string) -> bool)
    requires Total(leq) && SortedBy(s, key, leq)
    ensures SortedBy(Insert(x, s, key, leq), key, leq)
  {
    if s != [] && !leq(key(x), key(s[0])) {
      InsertSorted(x, s[1..], key, leq);
      var r := Insert(x, s, key, leq);
      var t := Insert(x, s[1..], key, leq);
      assert r == [s[0]] + t;
      assert leq(key(s[0]), key(x));
      forall i | 0 < i < |r| ensures leq(key(r[i - 1]), key(r[i])) {
        if i > 1 {
          assert r[i - 1] == t[i - 2] && r[i] == t[i - 1];
        }
      }
    }
  }

  lemma InsertKeepsSorted<T>(x: T, s: seq<T>, key: T -> string, leq: (string, string) -> bool)
    ensures Total(leq) && SortedBy(s, key, leq) ==> SortedBy(Insert(x, s, key, leq), key, leq)
  {
    if Total(leq) && SortedBy(s, key, leq) {
      InsertSorted(x, s, key, leq);
    }
  }

  /** `[...xs].sort((a, b) => key(a).localeCompare(key(b)))`: a stable
      insertion sort; the result is a permutation of `xs`, ordered by key
      whenever the comparison is total. */
  function SortBy<T>(xs: seq<T>, key: T -> string, leq: (string, string) -> bool): (r: seq<T>)
    ensures |r| == |xs| && multiset(r) == multiset(xs)
    ensures Total(leq) ==> SortedBy(r, key, leq)
  {
    if xs == [] then []
    else
      var rest := SortBy(xs[1..], key, leq);
      assert xs == [xs[0]] + xs[1..];
      InsertKeepsSorted(xs[0], rest, key, leq);
      Insert(xs[0], rest, key, leq)
  }
}
