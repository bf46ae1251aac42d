/**
 * The main window's state around the merge-item list: the two filter settings, whose
 * changes reload the list, the command that clears them, and the Go-To prompt, which
 * opens or copies a work item or changeset and closes when that succeeds.
 */
module MainWindow {
  import opened Wrappers
  import opened Text
  import opened Entities
  import opened Store
  import opened Filter

  /** The Go-To prompt: shown or not, a lookup in flight, and the error of the last attempt. */
  datatype Prompt = Prompt(show: bool, goingToItem: bool, errorOpeningItem: bool, errorToolTip: NString)

  /** The filter settings, the list they produced, and the prompt. */
  datatype Window = Window(filter: NString, notCompletedFilter: bool, listing: Listing, prompt: Prompt)

  // ----- the filter settings -----

  /**
   * Setting `Filter`: only a change raises the property notification, and the notification
   * reloads the list over the stored items.
   */
  function SetFilter(w: Window, text: NString, stored: seq<MergeItem>, queryFails: bool): (r: Window)
    ensures r.filter == text && r.notCompletedFilter == w.notCompletedFilter && r.prompt == w.prompt
    ensures w.filter == text ==> r == w
    ensures w.filter != text ==> r.listing == Reload(stored, text, w.notCompletedFilter, queryFails)
  {
    if w.filter == text then w
    else w.(filter := text, listing := Reload(stored, text, w.notCompletedFilter, queryFails))
  }

  /** Setting `NotCompletedFilter`, likewise. */
  function SetNotCompletedFilter(w: Window, on: bool, stored: seq<MergeItem>, queryFails: bool): (r: Window)
    ensures r.notCompletedFilter == on && r.filter == w.filter && r.prompt == w.prompt
    ensures w.notCompletedFilter == on ==> r == w
    ensures w.notCompletedFilter != on ==> r.listing == Reload(stored, w.filter, on, queryFails)
  {
    if w.notCompletedFilter == on then w
    else w.(notCompletedFilter := on, listing := Reload(stored, w.filter, on, queryFails))
  }

  /**
   * `ClearFilters()`: the text becomes empty, then the not-completed filter goes off; if
   * either was set, the list is reloaded with neither.
   */
  function ClearFilters(w: Window, stored: seq<MergeItem>, queryFails: bool): (r: Window)
    ensures r.filter == Some("") && !r.notCompletedFilter && r.prompt == w.prompt
    ensures w.filter == Some("") && !w.notCompletedFilter ==> r == w
    ensures w.filter != Some("") || w.notCompletedFilter ==> r.listing == Reload(stored, Some(""), false, queryFails)
  {
    SetNotCompletedFilter(SetFilter(w, Some(""), stored, queryFails), false, stored, queryFails)
  }

  /** After clearing filters that were set, a query that succeeds lists every stored item. */
  lemma ClearFiltersListsEverything(w: Window, stored: seq<MergeItem>)
    requires w.filter != Some("") || w.notCompletedFilter
    ensures multiset(ClearFilters(w, stored, false).listing.visible) == multiset(stored)
    ensures ClearFilters(w, stored, false).listing.totalCount == |stored|
  {
    ClearedFiltersListEverything(stored, Some(""));
  }

  /**
   * A merge item just created is listed whatever the not-completed filter says, since its
   * one target is not completed, as long as there is no filter text.
   */
  lemma CreatedItemIsListed(db: Database, stored: seq<MergeItem>, notCompleted: bool)
    requires WellFormed(db)
    requires Load(CreateMergeItem(db).0, CreateMergeItem(db).1) in stored
    ensures Load(CreateMergeItem(db).0, CreateMergeItem(db).1) in Reload(stored, Some(""), notCompleted, false).visible
  {
    CreateKeepsWellFormed(db);
    var item := Load(CreateMergeItem(db).0, CreateMergeItem(db).1);
    assert SomeNotCompleted(item);
    var v := Reload(stored, Some(""), notCompleted, false).visible;
    assert multiset(stored)[item] > 0;
    assert multiset(v)[item] > 0;
  }

  // ----- the Go-To prompt -----

  /** The two kinds of item the prompt can open. */
  datatype ItemType = WorkItemType | ChangesetType

  /** `ShowGoToItem()`: show the prompt with no error. */
  function ShowGoToItem(p: Prompt): (r: Prompt)
    ensures r.show && !r.errorOpeningItem && r.errorToolTip.None? && r.goingToItem == p.goingToItem
  {
    p.(show := true, errorOpeningItem := false, errorToolTip := None)
  }

  /** `CloseGoToItem()`. */
  function CloseGoToItem(p: Prompt): (r: Prompt)
    ensures !r.show && r == p.(show := false)
  {
    p.(show := false)
  }

  /** A prompt after an attempt, and which kind of lookup, if any, the attempt made. */
  datatype Attempt = Attempt(prompt: Prompt, lookup: Option<ItemType>)

  /**
   * A closed prompt is inert: going to an item does nothing, closing it again changes
   * nothing, and showing it again is the same as showing it before it was closed.
   */
  lemma ClosedPromptIsInert(p: Prompt, itemType: ItemType, itemId: NString, error: NString)
    ensures GoToItem(CloseGoToItem(p), itemType, itemId, error) == Attempt(CloseGoToItem(p), None)
    ensures CloseGoToItem(CloseGoToItem(p)) == CloseGoToItem(p)
    ensures ShowGoToItem(CloseGoToItem(p)) == ShowGoToItem(p)
  {
  }

  /**
   * The body shared by `GoToItem()` and `CopyItemUrl()`: a work item is always looked up, a
   * changeset only when the id is not empty; `error` is what the lookup returns. An empty
   * or absent error closes the prompt; any other is shown. Nothing is in flight at the end.
   */
  function TryOpen(p: Prompt, itemType: ItemType, itemId: NString, error: NString): (r: Attempt)
    ensures r.lookup.Some? <==> itemType == WorkItemType || !IsNullOrEmpty(itemId)
    ensures r.lookup.Some? ==> r.lookup.value == itemType
    ensures !r.prompt.goingToItem
    ensures var failed := r.lookup.Some? && !IsNullOrEmpty(error);
            && (failed ==> r.prompt == Prompt(p.show, false, true, error))
            && (!failed ==> r.prompt == Prompt(false, false, false, None))
  {
    var lookup := if itemType == WorkItemType || !IsNullOrEmpty(itemId) then Some(itemType) else None;
    var outcome := if lookup.Some? then error else None;
    if IsNullOrEmpty(outcome) then Attempt(Prompt(false, false, false, None), lookup)
    else Attempt(Prompt(p.show, false, true, outcome), lookup)
  }

  /** `GoToItem()`: does nothing unless the prompt is shown. */
  function GoToItem(p: Prompt, itemType: ItemType, itemId: NString, error: NString): (r: Attempt)
    ensures !p.show ==> r == Attempt(p, None)
    ensures p.show ==> !r.prompt.goingToItem
    ensures p.show ==> (r.prompt.show <==> r.lookup.Some? && !IsNullOrEmpty(error))
    ensures p.show ==> (r.prompt.errorOpeningItem <==> r.prompt.show)
    ensures p.show && r.prompt.show ==> r.prompt.errorToolTip == error
    ensures p.show && itemType == ChangesetType && IsNullOrEmpty(itemId) ==> r.lookup.None? && !r.prompt.show
  {
    if !p.show then Attempt(p, None) else TryOpen(p, itemType, itemId, error)
  }

  /** `CopyItemUrl()`: the same attempt, whether or not the prompt is shown. */
  function CopyItemUrl(p: Prompt, itemType: ItemType, itemId: NString, error: NString): (r: Attempt)
    ensures !r.prompt.goingToItem
    ensures r.lookup.Some? <==> itemType == WorkItemType || !IsNullOrEmpty(itemId)
    ensures r.lookup.Some? && !IsNullOrEmpty(error) ==> r.prompt.show == p.show && r.prompt.errorOpeningItem && r.prompt.errorToolTip == error
    ensures r.lookup.None? || IsNullOrEmpty(error) ==> !r.prompt.show && !r.prompt.errorOpeningItem
  {
    TryOpen(p, itemType, itemId, error)
  }

  /**
   * Showing the prompt and going to an item closes it iff the lookup succeeded or was
   * skipped; once closed, a second `GoToItem` does nothing.
   */
  lemma GoToClosesOnSuccess(p: Prompt, itemType: ItemType, itemId: NString, error: NString,
                            itemType2: ItemType, itemId2: NString, error2: NString)
    ensures var r := GoToItem(ShowGoToItem(p), itemType, itemId, error);
            && (!r.prompt.show <==> r.lookup.None? || IsNullOrEmpty(error))
            && (!r.prompt.show ==> GoToItem(r.prompt, itemType2, itemId2, error2) == Attempt(r.prompt, None))
  {
  }

  /** A failed attempt keeps the prompt open with the error, so a retry goes ahead. */
  lemma FailedGoToKeepsPromptOpen(p: Prompt, itemId: NString, error: NString)
    requires !IsNullOrEmpty(error)
    ensures var r := GoToItem(ShowGoToItem(p), WorkItemType, itemId, error);
            r.prompt.show && r.prompt.errorOpeningItem && r.prompt.errorToolTip == error &&
            GoToItem(r.prompt, WorkItemType, itemId, None).lookup == Some(WorkItemType)
  {
  }
}
