/**
 * The stored entities: merge items, their merge targets, and the parts of the root
 * configuration the core reads. Legacy and current names of one field are one field here
 * (`BugNumber`/`WorkItemId`, `Changeset`/`ChangesetId`); the migration maps the stored
 * documents onto the current names.
 */
module Entities {
  import opened Wrappers
  import opened Text

  /**
   * One branch a change must reach. `workItemServer` and `sourceControlServer` are the
   * per-target overrides (null when the target uses the configured default);
   * `isCompleted` is three-valued, null meaning undecided.
   */
  datatype MergeTarget = MergeTarget(
    objectId: int,
    targetBranch: NString,
    workItemId: NString,
    changesetId: NString,
    isOriginal: bool,
    isCompleted: Option<bool>,
    notes: NString,
    workItemServer: NString,
    sourceControlServer: NString)

  /** A change tracked across branches, with its targets in display order and its last error (not stored). */
  datatype MergeItem = MergeItem(objectId: int, name: NString, targets: seq<MergeTarget>, lastError: NString)

  /** The settings of the root configuration the core reads. */
  datatype Configuration = Configuration(
    workItemServers: Option<seq<NString>>,
    sourceControlServers: Option<seq<NString>>,
    useTfs: bool,
    checkInMessage: NString,
    filter: NString,
    notCompletedFilter: bool)

  /** The name a merge item is created with, and the one that invites an automatic rename. */
  const NewItemName: string := "New Merge Item"

  /** `list?.FirstOrDefault()`. */
  function FirstOrNull(list: Option<seq<NString>>): (r: NString)
    ensures list.None? || |list.value| == 0 ==> r.None?
    ensures list.Some? && |list.value| > 0 ==> r == list.value[0]
  {
    if list.Some? && |list.value| > 0 then list.value[0] else None
  }

  /** `DefaultWorkItemServer`: the first configured work-item server, or null when none is configured. */
  function DefaultWorkItemServer(config: Configuration): (r: NString)
    ensures config.workItemServers.None? || |config.workItemServers.value| == 0 ==> r.None?
    ensures config.workItemServers.Some? && |config.workItemServers.value| > 0 ==> r == config.workItemServers.value[0]
  {
    FirstOrNull(config.workItemServers)
  }

  /** `DefaultSourceControlServer`: the first configured source-control server, or null when none is configured. */
  function DefaultSourceControlServer(config: Configuration): (r: NString)
    ensures config.sourceControlServers.None? || |config.sourceControlServers.value| == 0 ==> r.None?
    ensures config.sourceControlServers.Some? && |config.sourceControlServers.value| > 0 ==>
              r == config.sourceControlServers.value[0]
  {
    FirstOrNull(config.sourceControlServers)
  }

  /** `HasLastError`: there is an error to show iff the last error is neither null nor empty. */
  predicate HasLastError(item: MergeItem) {
    !IsNullOrEmpty(item.lastError)
  }

  /**
   * Setting `LastError` decides `HasLastError` by the message alone: any message with a
   * non-empty prefix shows, while clearing it to null or to the empty string hides it.
   */
  lemma LastErrorShown(item: MergeItem, prefix: string, message: string)
    requires |prefix| > 0
    ensures HasLastError(item.(lastError := Some(prefix + message)))
    ensures !HasLastError(item.(lastError := None)) && !HasLastError(item.(lastError := Some("")))
    ensures HasLastError(item) <==> HasLastError(MergeItem(0, None, [], item.lastError))
  {
  }

  /** `MergeTargets.FirstOrDefault(t => t.IsOriginal)`. */
  function FirstOriginal(targets: seq<MergeTarget>): (r: Option<MergeTarget>)
    ensures r.None? <==> forall i :: 0 <= i < |targets| ==> !targets[i].isOriginal
    ensures r.Some? ==> exists i :: 0 <= i < |targets| && targets[i] == r.value &&
                          r.value.isOriginal && forall j :: 0 <= j < i ==> !targets[j].isOriginal
    decreases |targets|
  {
    if |targets| == 0 then None
    else if targets[0].isOriginal then Some(targets[0])
    else
      var rest := FirstOriginal(targets[1..]);
      assert forall j :: 1 <= j < |targets| ==> targets[j] == targets[1..][j - 1];
      rest
  }

  /** The ids of a list of targets, in order. */
  function TargetIds(targets: seq<MergeTarget>): (ids: seq<int>)
    ensures |ids| == |targets|
    ensures forall i :: 0 <= i < |targets| ==> ids[i] == targets[i].objectId
  {
    seq(|targets|, i requires 0 <= i < |targets| => targets[i].objectId)
  }
}
