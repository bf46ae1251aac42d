/**
 * The behaviour of one merge item: keeping a single original target, the automatic rename
 * from the original target's work item, and opening a target's work item or changesets,
 * with every exception turned into the item's last error.
 */
module MergeItems {
  import opened Wrappers
  import opened Text
  import opened Numbers
  import opened Identifiers
  import opened Remote
  import opened Entities
  import opened Targets
  import opened TfsUtils

  /** No two targets are both marked original. */
  predicate AtMostOneOriginal(targets: seq<MergeTarget>) {
    forall i, j :: 0 <= i < |targets| && 0 <= j < |targets| && targets[i].isOriginal && targets[j].isOriginal ==> i == j
  }

  /**
   * `SetOriginal(changed)`, for the target at index `k`: when it is original, every other
   * original target stops being one; when it is not, nothing happens. Only `isOriginal`
   * flags change, and the sequence keeps its length and order.
   */
  function SetOriginal(targets: seq<MergeTarget>, k: int): (r: seq<MergeTarget>)
    requires 0 <= k < |targets|
    ensures |r| == |targets|
    ensures !targets[k].isOriginal ==> r == targets
    ensures targets[k].isOriginal ==> forall i :: 0 <= i < |r| ==> (r[i].isOriginal <==> i == k)
    ensures forall i :: 0 <= i < |r| ==> r[i] == targets[i].(isOriginal := r[i].isOriginal)
    ensures forall i :: 0 <= i < |r| && r[i].isOriginal ==> targets[i].isOriginal
  {
    if !targets[k].isOriginal then targets
    else seq(|targets|, i requires 0 <= i < |targets| =>
               if i != k && targets[i].isOriginal then targets[i].(isOriginal := false) else targets[i])
  }

  /**
   * Setting `IsOriginal` of the target at index `k`: the setter notifies only when the
   * value changes, and the notification runs `SetOriginal`.
   */
  function EditIsOriginal(targets: seq<MergeTarget>, k: int, value: bool): (r: seq<MergeTarget>)
    requires 0 <= k < |targets|
    ensures |r| == |targets| && r[k].isOriginal == value
  {
    if targets[k].isOriginal == value then targets
    else SetOriginal(targets[k := targets[k].(isOriginal := value)], k)
  }

  /**
   * The single-original rule is an invariant of editing: from a list with at most one
   * original target, marking a target original leaves it the only one, and clearing a
   * mark leaves at most one.
   */
  lemma EditKeepsSingleOriginal(targets: seq<MergeTarget>, k: int, value: bool)
    requires 0 <= k < |targets|
    requires AtMostOneOriginal(targets)
    ensures AtMostOneOriginal(EditIsOriginal(targets, k, value))
    ensures value ==> forall i :: 0 <= i < |targets| ==> (EditIsOriginal(targets, k, value)[i].isOriginal <==> i == k)
  {
    var r := EditIsOriginal(targets, k, value);
    if targets[k].isOriginal != value {
      var u := targets[k := targets[k].(isOriginal := value)];
      if !value {
        assert r == u;
      }
    }
  }

  // ----- GenerateName -----

  const NameErrorPrefix: string := "There was an error retrieving the work item name.\n\n"

  /** The rename guard: TFS in use, the name still the initial one, the target original, its id an integer. */
  predicate RenameGuard(item: MergeItem, t: MergeTarget, config: Configuration) {
    config.useTfs && item.name == Some(NewItemName) && t.isOriginal && TryParseInt32(t.workItemId).Some?
  }

  /**
   * `GenerateName(target)`: when the guard holds, fetch the work item from the target's
   * effective work-item server and take its title as the name, keeping the name when the
   * title is null; an exception becomes the last error and leaves the name alone.
   */
  function GenerateName(item: MergeItem, t: MergeTarget, config: Configuration, cache: TfsCache, services: TfsServices)
    : (r: (MergeItem, TfsCache))
    ensures !RenameGuard(item, t, config) ==> r == (item, cache)
    ensures r.0 == item.(name := r.0.name, lastError := r.0.lastError)
    ensures r.0.name != item.name ==>
              && RenameGuard(item, t, config)
              && var step := TfsUtils.GetWorkItem(cache, EffectiveWorkItemServer(t, config), TryParseInt32(t.workItemId).value, services);
                 step.result.Success? && TitleOf(step.result.value) == Success(r.0.name) && r.0.name.Some?
    ensures r.0.lastError != item.lastError ==>
              && RenameGuard(item, t, config)
              && r.0.name == item.name
              && r.0.lastError.Some?
              && |NameErrorPrefix| <= |r.0.lastError.value|
              && r.0.lastError.value[..|NameErrorPrefix|] == NameErrorPrefix
              && HasLastError(r.0)
    ensures RenameGuard(item, t, config) ==>
              var step := TfsUtils.GetWorkItem(cache, EffectiveWorkItemServer(t, config), TryParseInt32(t.workItemId).value, services);
              var title := TitleOrThrow(step.result);
              && r.1 == step.cache
              && (title.Failure? ==> r.0 == item.(lastError := Some(NameErrorPrefix + title.error)))
              && (title == Success(None) ==> r.0 == item)
              && (title.Success? && title.value.Some? ==> r.0 == item.(name := title.value))
  {
    if !RenameGuard(item, t, config) then (item, cache)
    else
      var step := TfsUtils.GetWorkItem(cache, EffectiveWorkItemServer(t, config), TryParseInt32(t.workItemId).value, services);
      match step.result
      case Failure(e) => (item.(lastError := Some(NameErrorPrefix + e)), step.cache)
      case Success(record) =>
        match TitleOf(record)
        case Failure(e) => (item.(lastError := Some(NameErrorPrefix + e)), step.cache)
        case Success(None) => (item, step.cache)
        case Success(Some(title)) => (item.(name := Some(title)), step.cache)
  }

  /** A rename to any title other than the initial name happens once: the next attempt does nothing. */
  lemma RenameHappensOnce(item: MergeItem, t: MergeTarget, config: Configuration, cache: TfsCache, services: TfsServices,
                          t2: MergeTarget, cache2: TfsCache, services2: TfsServices)
    ensures var renamed := GenerateName(item, t, config, cache, services).0;
            renamed.name != item.name && renamed.name != Some(NewItemName) ==>
              GenerateName(renamed, t2, config, cache2, services2) == (renamed, cache2)
  {
  }

  // ----- OpenBug -----

  const WorkItemErrorPrefix: string := "There was an error opening work item.\n\n"

  /** An item after a command, the cache after it, and the addresses it opened in order. */
  datatype Opened = Opened(item: MergeItem, cache: TfsCache, pages: seq<string>)

  /**
   * `OpenBug(selected)`: a selected target whose id parses as an integer has its work item
   * fetched from its effective work-item server, and the record's "html" link, if any, is
   * opened; an exception becomes the last error.
   */
  function OpenBug(item: MergeItem, selected: Option<MergeTarget>, config: Configuration, cache: TfsCache, services: TfsServices)
    : (r: Opened)
    ensures selected.None? || TryParseInt32(selected.value.workItemId).None? ==> r == Opened(item, cache, [])
    ensures |r.pages| <= 1
    ensures r.item == item || (r.item == item.(lastError := r.item.lastError) && r.pages == [] && HasLastError(r.item) &&
                               |WorkItemErrorPrefix| <= |r.item.lastError.value| &&
                               r.item.lastError.value[..|WorkItemErrorPrefix|] == WorkItemErrorPrefix)
    ensures |r.pages| == 1 ==>
              && selected.Some? && TryParseInt32(selected.value.workItemId).Some?
              && var step := TfsUtils.GetWorkItem(cache, EffectiveWorkItemServer(selected.value, config),
                                                  TryParseInt32(selected.value.workItemId).value, services);
                 step.result.Success? && LinkHref(step.result.value, HtmlRel) == Some(r.pages[0])
    ensures selected.Some? && TryParseInt32(selected.value.workItemId).Some? ==>
              var step := TfsUtils.GetWorkItem(cache, EffectiveWorkItemServer(selected.value, config),
                                               TryParseInt32(selected.value.workItemId).value, services);
              && r.cache == step.cache
              && (step.result.Failure? ==> r.item == item.(lastError := Some(WorkItemErrorPrefix + step.result.error)) && r.pages == [])
              && (step.result.Success? ==> r.item == item)
              && (step.result.Success? && LinkHref(step.result.value, HtmlRel).Some? ==>
                    r.pages == [LinkHref(step.result.value, HtmlRel).value])
              && (step.result.Success? && LinkHref(step.result.value, HtmlRel).None? ==> r.pages == [])
  {
    if selected.None? || TryParseInt32(selected.value.workItemId).None? then Opened(item, cache, [])
    else
      var step := TfsUtils.GetWorkItem(cache, EffectiveWorkItemServer(selected.value, config),
                                       TryParseInt32(selected.value.workItemId).value, services);
      match step.result
      case Failure(e) => Opened(item.(lastError := Some(WorkItemErrorPrefix + e)), step.cache, [])
      case Success(record) =>
        match LinkHref(record, HtmlRel)
        case Some(href) => Opened(item, step.cache, [href])
        case None => Opened(item, step.cache, [])
  }

  // ----- OpenChangeset -----

  const ChangesetErrorPrefix: string := "There was an error opening changeset.\n\n"

  /**
   * One piece of a changeset field: a commit (three-part server identifier) or a changeset
   * (32-bit id) is fetched and its "web" link, if any, is the address to open; any other
   * piece is skipped; an exception comes back as a failure.
   */
  function OpenPiece(cache: TfsCache, serverName: NString, piece: string, services: TfsServices)
    : (r: (TfsCache, Result<Option<string>, string>))
    ensures RouteId(serverName, piece) == Success(NoRoute) ==> r == (cache, Success(None))
    ensures RouteId(serverName, piece).Failure? ==> r == (cache, Failure(NullReferenceMessage))
    ensures r.1.Success? && r.1.value.Some? ==>
              match RouteId(serverName, piece)
              case Success(CommitRoute(repo, id)) =>
                var s := TfsUtils.GetCommit(cache, repo, id, services);
                s.result.Success? && LinkHref(s.result.value, WebRel) == r.1.value
              case Success(ChangesetRoute(n)) =>
                var s := TfsUtils.GetChangeset(cache, serverName, n, services);
                s.result.Success? && LinkHref(s.result.value, WebRel) == r.1.value
              case _ => false
    ensures RouteId(serverName, piece).Success? && RouteId(serverName, piece).value.CommitRoute? ==>
              var route := RouteId(serverName, piece).value;
              var s := TfsUtils.GetCommit(cache, route.repo, route.commitId, services);
              && r.0 == s.cache
              && (s.result.Failure? ==> r.1 == Failure(s.result.error))
              && (s.result.Success? ==> r.1 == Success(LinkHref(s.result.value, WebRel)))
    ensures RouteId(serverName, piece).Success? && RouteId(serverName, piece).value.ChangesetRoute? ==>
              var s := TfsUtils.GetChangeset(cache, serverName, RouteId(serverName, piece).value.changesetId, services);
              && r.0 == s.cache
              && (s.result.Failure? ==> r.1 == Failure(s.result.error))
              && (s.result.Success? ==> r.1 == Success(LinkHref(s.result.value, WebRel)))
  {
    match RouteId(serverName, piece)
    case Failure(e) => (cache, Failure(e))
    case Success(CommitRoute(repo, id)) =>
      var s := TfsUtils.GetCommit(cache, repo, id, services);
      (s.cache, match s.result case Failure(e) => Failure(e) case Success(record) => Success(LinkHref(record, WebRel)))
    case Success(ChangesetRoute(n)) =>
      var s := TfsUtils.GetChangeset(cache, serverName, n, services);
      (s.cache, match s.result case Failure(e) => Failure(e) case Success(record) => Success(LinkHref(record, WebRel)))
    case Success(NoRoute) => (cache, Success(None))
  }

  /** The cache after a run over the pieces, the addresses opened in order, and the exception that stopped it, if any. */
  datatype PieceRun = PieceRun(cache: TfsCache, pages: seq<string>, error: Option<string>)

  /** Opening one piece from a cache: the cache after it, and the address to open, nothing, or the exception. */
  type PieceStep = (TfsCache, string) -> (TfsCache, Result<Option<string>, string>)

  /** `OpenPiece` against one source-control server. */
  function PieceOpener(serverName: NString, services: TfsServices): PieceStep {
    (c: TfsCache, p: string) => OpenPiece(c, serverName, p, services)
  }

  /** The `foreach` over the pieces inside the `try`: pieces in order, the first exception ends the loop. */
  function OpenPieces(cache: TfsCache, pieces: seq<string>, open: PieceStep): (r: PieceRun)
    ensures |r.pages| <= |pieces|
    decreases |pieces|
  {
    if |pieces| == 0 then PieceRun(cache, [], None)
    else
      var (c1, res) := open(cache, pieces[0]);
      match res
      case Failure(e) => PieceRun(c1, [], Some(e))
      case Success(o) =>
        var rest := OpenPieces(c1, pieces[1..], open);
        PieceRun(rest.cache, (if o.Some? then [o.value] else []) + rest.pages, rest.error)
  }

  /**
   * Pieces are processed independently and in order: running over `a + b` is running over
   * `a` and then, unless that ended in an exception, over `b` from the cache `a` left.
   */
  lemma {:induction false} OpenPiecesAppend(cache: TfsCache, a: seq<string>, b: seq<string>, open: PieceStep)
    ensures var ra := OpenPieces(cache, a, open);
            var rb := OpenPieces(ra.cache, b, open);
            OpenPieces(cache, a + b, open)
            == if ra.error.Some? then ra else PieceRun(rb.cache, ra.pages + rb.pages, rb.error)
    decreases |a|
  {
    if |a| == 0 {
      assert a + b == b;
    } else {
      assert (a + b)[0] == a[0];
      assert (a + b)[1..] == a[1..] + b;
      var step := open(cache, a[0]);
      if step.1.Success? {
        OpenPiecesAppend(step.0, a[1..], b, open);
      }
    }
  }

  /** A piece that routes nowhere is skipped without a lookup. */
  lemma SkippedPiece(cache: TfsCache, serverName: NString, p: string, rest: seq<string>, services: TfsServices)
    requires RouteId(serverName, p) == Success(NoRoute)
    ensures OpenPieces(cache, [p] + rest, PieceOpener(serverName, services))
            == OpenPieces(cache, rest, PieceOpener(serverName, services))
  {
    assert ([p] + rest)[1..] == rest;
  }

  /**
   * `OpenChangeset(selected)`: a selected target with a non-empty changeset field has each
   * `,`/`;` piece opened in turn against its effective source-control server; the first
   * exception ends the run and becomes the last error.
   */
  function OpenChangeset(item: MergeItem, selected: Option<MergeTarget>, config: Configuration, cache: TfsCache,
                         services: TfsServices): (r: Opened)
    ensures selected.None? || IsNullOrEmpty(selected.value.changesetId) ==> r == Opened(item, cache, [])
    ensures selected.Some? && !IsNullOrEmpty(selected.value.changesetId) ==>
              var run := OpenPieces(cache, ChangesetPieces(selected.value.changesetId.value),
                                    PieceOpener(EffectiveSourceControlServer(selected.value, config), services));
              && r.cache == run.cache && r.pages == run.pages
              && (run.error.None? ==> r.item == item)
              && (run.error.Some? ==> r.item == item.(lastError := Some(ChangesetErrorPrefix + run.error.value)) && HasLastError(r.item))
  {
    if selected.None? || IsNullOrEmpty(selected.value.changesetId) then Opened(item, cache, [])
    else
      var run := OpenPieces(cache, ChangesetPieces(selected.value.changesetId.value),
                            PieceOpener(EffectiveSourceControlServer(selected.value, config), services));
      match run.error
      case None => Opened(item, run.cache, run.pages)
      case Some(e) => Opened(item.(lastError := Some(ChangesetErrorPrefix + e)), run.cache, run.pages)
  }

  /** A commit id against a source-control server that is not a three-part identifier opens nothing and raises nothing. */
  lemma CommitNeedsThreeParts(cache: TfsCache, server: string, piece: string, services: TfsServices)
    requires HasLetter(piece) && GitServerParts(server).None?
    ensures OpenPiece(cache, Some(server), piece, services) == (cache, Success(None))
  {
  }

  /** A letter-free piece that is not a 32-bit integer opens nothing and raises nothing. */
  lemma ChangesetNeedsInteger(cache: TfsCache, serverName: NString, piece: string, services: TfsServices)
    requires !HasLetter(piece) && TryParseInt32(Some(piece)).None?
    ensures OpenPiece(cache, serverName, piece, services) == (cache, Success(None))
  {
  }
}
