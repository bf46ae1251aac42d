/**
 * The merge-item list: the query predicate assembled from the two filter settings, the
 * items that satisfy it in descending `ObjectId` order, and the total count, with a
 * failing query leaving the list empty.
 */
module Filter {
  import opened Wrappers
  import opened Text
  import opened Entities

  // ----- the reference meaning of the two filters -----

  /** Some target is not known to be completed: `IsCompleted` is false or null. */
  predicate SomeNotCompleted(item: MergeItem) {
    exists i :: 0 <= i < |item.targets| && item.targets[i].isCompleted != Some(true)
  }

  /** A field matches the text when it is not null and contains it, ignoring case. */
  predicate FieldContains(field: NString, text: string) {
    field.Some? && ContainsIgnoreCase(field.value, text)
  }

  /** A target matches when its work item id, changeset id, branch or notes matches. */
  predicate TargetContains(t: MergeTarget, text: string) {
    FieldContains(t.workItemId, text) || FieldContains(t.changesetId, text) ||
    FieldContains(t.targetBranch, text) || FieldContains(t.notes, text)
  }

  /** An item matches the text when its name or one of its targets does. */
  predicate TextMatches(item: MergeItem, text: string) {
    FieldContains(item.name, text) || exists i :: 0 <= i < |item.targets| && TargetContains(item.targets[i], text)
  }

  /** Both filters at once: the not-completed clause when it is on, the text clause when there is text. */
  predicate Matches(item: MergeItem, filter: NString, notCompleted: bool) {
    (notCompleted ==> SomeNotCompleted(item)) && (IsNullOrEmpty(filter) || TextMatches(item, filter.value))
  }

  // ----- the predicate as the window assembles it -----

  /** Which target field a clause reads. */
  datatype TargetField = WorkItemIdField | ChangesetIdField | TargetBranchField | NotesField

  function FieldOf(t: MergeTarget, f: TargetField): NString {
    match f
    case WorkItemIdField => t.workItemId
    case ChangesetIdField => t.changesetId
    case TargetBranchField => t.targetBranch
    case NotesField => t.notes
  }

  /** The query language the clauses are written in. */
  datatype Pred =
    | Const(b: bool)
    | AnyNotCompleted
    | NameContains(text: string)
    | AnyFieldContains(field: TargetField, text: string)
    | And(left: Pred, right: Pred)
    | Or(left: Pred, right: Pred)

  /** `targets.Select(t => t.IsCompleted).Any(c => c != true)`. */
  function AnyNotCompletedIn(targets: seq<MergeTarget>): (r: bool)
    ensures r <==> exists i :: 0 <= i < |targets| && targets[i].isCompleted != Some(true)
    decreases |targets|
  {
    if |targets| == 0 then false
    else
      var rest := AnyNotCompletedIn(targets[1..]);
      assert forall i :: 1 <= i < |targets| ==> targets[i] == targets[1..][i - 1];
      targets[0].isCompleted != Some(true) || rest
  }

  /** `targets.Select(t => t.<field>).Any(v => v.Contains(text))`, a null value matching nothing. */
  function AnyFieldIn(targets: seq<MergeTarget>, f: TargetField, text: string): (r: bool)
    ensures r <==> exists i :: 0 <= i < |targets| && FieldContains(FieldOf(targets[i], f), text)
    decreases |targets|
  {
    if |targets| == 0 then false
    else
      var rest := AnyFieldIn(targets[1..], f, text);
      assert forall i :: 1 <= i < |targets| ==> targets[i] == targets[1..][i - 1];
      FieldContains(FieldOf(targets[0], f), text) || rest
  }

  /** What a predicate says of one item. */
  function Eval(p: Pred, item: MergeItem): bool {
    match p
    case Const(b) => b
    case AnyNotCompleted => AnyNotCompletedIn(item.targets)
    case NameContains(text) => FieldContains(item.name, text)
    case AnyFieldContains(f, text) => AnyFieldIn(item.targets, f, text)
    case And(l, r) => Eval(l, item) && Eval(r, item)
    case Or(l, r) => Eval(l, item) || Eval(r, item)
  }

  /**
   * A predicate under construction (`PredicateBuilder.New<MergeItem>(true)`): before its
   * first clause it stands for its default; the first `And` or `Or` replaces the default,
   * and later ones combine with what is there.
   */
  datatype Starter = Unstarted(default: bool) | Started(expr: Pred)

  function StarterAnd(s: Starter, e: Pred): (r: Starter)
    ensures r.Started?
    ensures forall item :: Eval(AsPred(r), item) == ((s.Unstarted? || Eval(s.expr, item)) && Eval(e, item))
  {
    match s
    case Unstarted(_) => Started(e)
    case Started(p) => Started(And(p, e))
  }

  function StarterOr(s: Starter, e: Pred): (r: Starter)
    ensures r.Started?
    ensures forall item :: Eval(AsPred(r), item) == ((s.Started? && Eval(s.expr, item)) || Eval(e, item))
  {
    match s
    case Unstarted(_) => Started(e)
    case Started(p) => Started(Or(p, e))
  }

  /** The expression a starter converts to. */
  function AsPred(s: Starter): Pred {
    match s
    case Unstarted(b) => Const(b)
    case Started(p) => p
  }

  /** The four target clauses joined by `||`. */
  function AnyTargetContains(text: string): Pred {
    Or(Or(Or(AnyFieldContains(WorkItemIdField, text), AnyFieldContains(ChangesetIdField, text)),
          AnyFieldContains(TargetBranchField, text)),
       AnyFieldContains(NotesField, text))
  }

  /**
   * The predicate `ReloadMergeItems` assembles: the not-completed clause `And`-ed onto the
   * main starter when that filter is on; the name clause `And`-ed and then the target
   * clauses `Or`-ed onto the sub starter when there is filter text; the two starters
   * joined by `And`.
   */
  function BuildPredicate(filter: NString, notCompleted: bool): (p: Pred)
    ensures forall item :: Eval(p, item) <==> Matches(item, filter, notCompleted)
  {
    var query := if notCompleted then StarterAnd(Unstarted(true), AnyNotCompleted) else Unstarted(true);
    var sub := if IsNullOrEmpty(filter) then Unstarted(true)
               else StarterOr(StarterAnd(Unstarted(true), NameContains(filter.value)), AnyTargetContains(filter.value));
    var p := AsPred(StarterAnd(query, AsPred(sub)));
    forall item ensures Eval(p, item) <==> Matches(item, filter, notCompleted) {
      if !IsNullOrEmpty(filter) {
        AnyTargetContainsMeaning(item, filter.value);
      }
    }
    p
  }

  /** The four target clauses together hold iff some target matches in one of its four fields. */
  lemma AnyTargetContainsMeaning(item: MergeItem, text: string)
    ensures Eval(AnyTargetContains(text), item) <==> exists i :: 0 <= i < |item.targets| && TargetContains(item.targets[i], text)
  {
    if exists i :: 0 <= i < |item.targets| && TargetContains(item.targets[i], text) {
      var i :| 0 <= i < |item.targets| && TargetContains(item.targets[i], text);
      assert FieldContains(FieldOf(item.targets[i], WorkItemIdField), text) ||
             FieldContains(FieldOf(item.targets[i], ChangesetIdField), text) ||
             FieldContains(FieldOf(item.targets[i], TargetBranchField), text) ||
             FieldContains(FieldOf(item.targets[i], NotesField), text);
    }
    var wi, cs := AnyFieldContains(WorkItemIdField, text), AnyFieldContains(ChangesetIdField, text);
    var tb, nt := AnyFieldContains(TargetBranchField, text), AnyFieldContains(NotesField, text);
    assert Eval(Or(wi, cs), item) == (Eval(wi, item) || Eval(cs, item));
    assert Eval(Or(Or(wi, cs), tb), item) == (Eval(Or(wi, cs), item) || Eval(tb, item));
    assert Eval(AnyTargetContains(text), item) == (Eval(Or(Or(wi, cs), tb), item) || Eval(nt, item));
    if Eval(AnyTargetContains(text), item) {
      var f := if AnyFieldIn(item.targets, WorkItemIdField, text) then WorkItemIdField
               else if AnyFieldIn(item.targets, ChangesetIdField, text) then ChangesetIdField
               else if AnyFieldIn(item.targets, TargetBranchField, text) then TargetBranchField
               else NotesField;
      assert AnyFieldIn(item.targets, f, text);
      var i :| 0 <= i < |item.targets| && FieldContains(FieldOf(item.targets[i], f), text);
      assert TargetContains(item.targets[i], text);
    }
  }

  // ----- running the query -----

  /** No two items share an `ObjectId`, as in a collection keyed by it. */
  predicate DistinctIds(s: seq<MergeItem>) {
    forall i, j :: 0 <= i < j < |s| ==> s[i].objectId != s[j].objectId
  }

  /** Ordered by `ObjectId`, largest first: each item's id is at least the next one's. */
  predicate Descending(s: seq<MergeItem>) {
    forall i :: 0 < i < |s| ==> s[i - 1].objectId >= s[i].objectId
  }

  /** Each item's id is larger than the next one's. */
  predicate StrictlyDescending(s: seq<MergeItem>) {
    forall i :: 0 < i < |s| ==> s[i - 1].objectId > s[i].objectId
  }

  /** Neighbour to neighbour, strictly descending ids are descending across the whole list. */
  lemma {:induction false} StrictlyDescendingPairs(s: seq<MergeItem>)
    requires StrictlyDescending(s)
    ensures forall i, j :: 0 <= i < j < |s| ==> s[i].objectId > s[j].objectId
    decreases |s|
  {
    if |s| > 1 {
      StrictlyDescendingPairs(s[1..]);
      forall i, j | 0 <= i < j < |s| ensures s[i].objectId > s[j].objectId {
        if i > 0 {
          assert s[i] == s[1..][i - 1] && s[j] == s[1..][j - 1];
        } else if j > 1 {
          assert s[1] == s[1..][0] && s[j] == s[1..][j - 1];
        }
      }
    }
  }

  /** The head of a list with distinct ids shares its id with nothing after it, and the tail has distinct ids. */
  lemma DistinctHead(s: seq<MergeItem>)
    requires |s| > 0 && DistinctIds(s)
    ensures DistinctIds(s[1..])
    ensures forall y :: y in multiset(s[1..]) ==> y.objectId != s[0].objectId
  {
    forall y | y in multiset(s[1..]) ensures y.objectId != s[0].objectId {
      assert y in s[1..];
      var k :| 0 <= k < |s[1..]| && s[1..][k] == y;
      assert s[k + 1] == y;
    }
    forall i, j | 0 <= i < j < |s[1..]| ensures s[1..][i].objectId != s[1..][j].objectId {
      assert s[1..][i] == s[i + 1] && s[1..][j] == s[j + 1];
    }
  }

  /** Putting an item in front of a list with distinct ids none of which is its own keeps ids distinct. */
  lemma DistinctCons(x: MergeItem, t: seq<MergeItem>)
    requires DistinctIds(t) && forall y :: y in multiset(t) ==> y.objectId != x.objectId
    ensures DistinctIds([x] + t)
  {
    var r := [x] + t;
    forall i, j | 0 <= i < j < |r| ensures r[i].objectId != r[j].objectId {
      assert r[j] == t[j - 1];
      if i > 0 {
        assert r[i] == t[i - 1];
      } else {
        assert t[j - 1] in multiset(t);
      }
    }
  }

  /** `Where(p)`: the items that satisfy `p`, in their order. */
  function Where(items: seq<MergeItem>, p: Pred): (r: seq<MergeItem>)
    ensures forall x :: multiset(r)[x] == if Eval(p, x) then multiset(items)[x] else 0
    decreases |items|
  {
    if |items| == 0 then []
    else
      var rest := Where(items[1..], p);
      assert items == [items[0]] + items[1..];
      if Eval(p, items[0]) then [items[0]] + rest else rest
  }

  /** The selected items keep their ids distinct: each is one of the stored items, and no more often. */
  lemma {:induction false} WhereKeepsDistinct(items: seq<MergeItem>, p: Pred)
    requires DistinctIds(items)
    ensures DistinctIds(Where(items, p))
    decreases |items|
  {
    if |items| > 0 {
      var rest := Where(items[1..], p);
      DistinctHead(items);
      WhereKeepsDistinct(items[1..], p);
      if Eval(p, items[0]) {
        assert forall y :: y in multiset(rest) ==> y in multiset(items[1..]);
        DistinctCons(items[0], rest);
      }
    }
  }

  /** Insert `x` into a descending list before the first item whose id is not larger. */
  function InsertDescending(x: MergeItem, s: seq<MergeItem>): (r: seq<MergeItem>)
    requires Descending(s)
    ensures Descending(r)
    ensures multiset(r) == multiset(s) + multiset{x}
    ensures |r| == |s| + 1 && (r[0] == x || (|s| > 0 && r[0] == s[0]))
    decreases |s|
  {
    if |s| == 0 || s[0].objectId <= x.objectId then
      var r := [x] + s;
      assert forall j :: 0 < j < |r| ==> r[j] == s[j - 1];
      r
    else
      var rest := InsertDescending(x, s[1..]);
      assert s == [s[0]] + s[1..];
      var r := [s[0]] + rest;
      assert forall j :: 0 < j < |r| ==> r[j] == rest[j - 1];
      r
  }

  /** Inserting an item whose id is new into a strictly descending list keeps it strictly descending. */
  lemma {:induction false} InsertKeepsStrict(x: MergeItem, s: seq<MergeItem>)
    requires StrictlyDescending(s)
    requires forall i :: 0 <= i < |s| ==> s[i].objectId != x.objectId
    ensures StrictlyDescending(InsertDescending(x, s))
    decreases |s|
  {
    var r := InsertDescending(x, s);
    if |s| == 0 || s[0].objectId <= x.objectId {
      assert forall j :: 0 < j < |r| ==> r[j] == s[j - 1];
    } else {
      InsertKeepsStrict(x, s[1..]);
      var rest := InsertDescending(x, s[1..]);
      assert forall j :: 0 < j < |r| ==> r[j] == rest[j - 1];
    }
  }

  /** `OrderByDescending(i => i.ObjectId)`. */
  function SortDescending(s: seq<MergeItem>): (r: seq<MergeItem>)
    ensures Descending(r)
    ensures multiset(r) == multiset(s)
    decreases |s|
  {
    if |s| == 0 then []
    else
      var rest := SortDescending(s[1..]);
      assert s == [s[0]] + s[1..];
      InsertDescending(s[0], rest)
  }

  /** Sorting items with distinct ids gives a strictly descending list. */
  lemma {:induction false} SortStrict(s: seq<MergeItem>)
    requires DistinctIds(s)
    ensures StrictlyDescending(SortDescending(s))
    decreases |s|
  {
    if |s| > 0 {
      DistinctHead(s);
      SortStrict(s[1..]);
      var rest := SortDescending(s[1..]);
      assert forall i :: 0 <= i < |rest| ==> rest[i] in multiset(rest);
      InsertKeepsStrict(s[0], rest);
    }
  }

  /** What the window shows after a reload: the listed items and the total number stored. */
  datatype Listing = Listing(visible: seq<MergeItem>, totalCount: int)

  /**
   * `ReloadMergeItems()` over the stored items: the list and the count are cleared; then
   * the matching items are listed, largest `ObjectId` first, and the count becomes the
   * number of stored items. A query that throws leaves the cleared state.
   */
  function Reload(items: seq<MergeItem>, filter: NString, notCompleted: bool, queryFails: bool): (r: Listing)
    ensures queryFails ==> r == Listing([], 0)
    ensures !queryFails ==> r.totalCount == |items|
    ensures !queryFails ==> forall x :: multiset(r.visible)[x] == if Matches(x, filter, notCompleted) then multiset(items)[x] else 0
    ensures Descending(r.visible)
  {
    if queryFails then Listing([], 0)
    else Listing(SortDescending(Where(items, BuildPredicate(filter, notCompleted))), |items|)
  }

  /** Stored items have distinct ids, so the list is strictly descending by `ObjectId`. */
  lemma ReloadStrictlyDescending(items: seq<MergeItem>, filter: NString, notCompleted: bool, queryFails: bool)
    requires DistinctIds(items)
    ensures var v := Reload(items, filter, notCompleted, queryFails).visible;
            forall i, j :: 0 <= i < j < |v| ==> v[i].objectId > v[j].objectId
  {
    if !queryFails {
      var p := BuildPredicate(filter, notCompleted);
      WhereKeepsDistinct(items, p);
      SortStrict(Where(items, p));
      StrictlyDescendingPairs(Reload(items, filter, notCompleted, queryFails).visible);
    }
  }

  /** With no filter text and the not-completed filter off, every stored item is listed. */
  lemma ClearedFiltersListEverything(items: seq<MergeItem>, filter: NString)
    requires IsNullOrEmpty(filter)
    ensures multiset(Reload(items, filter, false, false).visible) == multiset(items)
  {
    var v := Reload(items, filter, false, false).visible;
    forall x ensures multiset(v)[x] == multiset(items)[x] {
      assert Matches(x, filter, false);
    }
  }

  /** With only the not-completed filter, an item is listed iff some target is not completed (false or null). */
  lemma NotCompletedClause(items: seq<MergeItem>, filter: NString, x: MergeItem)
    requires IsNullOrEmpty(filter)
    ensures x in Reload(items, filter, true, false).visible <==> x in items && SomeNotCompleted(x)
  {
    var v := Reload(items, filter, true, false).visible;
    assert x in v <==> multiset(v)[x] > 0;
    assert x in items <==> multiset(items)[x] > 0;
  }

  /** With only filter text, an item is listed iff its name or a target field contains the text, ignoring case. */
  lemma TextClause(items: seq<MergeItem>, text: string, x: MergeItem)
    requires text != ""
    ensures x in Reload(items, Some(text), false, false).visible <==> x in items && TextMatches(x, text)
  {
    var v := Reload(items, Some(text), false, false).visible;
    assert x in v <==> multiset(v)[x] > 0;
    assert x in items <==> multiset(items)[x] > 0;
  }

  /** The two clauses are conjoined: an item is listed under both filters iff it is listed under each alone. */
  lemma ClausesConjoin(items: seq<MergeItem>, filter: NString, x: MergeItem)
    ensures x in Reload(items, filter, true, false).visible <==>
            x in Reload(items, filter, false, false).visible && x in Reload(items, None, true, false).visible
  {
    var both := Reload(items, filter, true, false).visible;
    var text := Reload(items, filter, false, false).visible;
    var done := Reload(items, None, true, false).visible;
    assert x in both <==> multiset(both)[x] > 0;
    assert x in text <==> multiset(text)[x] > 0;
    assert x in done <==> multiset(done)[x] > 0;
  }
}
