# MergeTracker core in Dafny

MergeTracker tracks *merge items*. A merge item is a unit of work that has to be merged into several branches. Each branch gets one *merge target*, which records:

- the target branch;
- a work-item id and a changeset (or commit) id;
- whether it is the original target;
- a tri-state completion flag;
- notes;
- optional per-target overrides of the work-item server and the source-control server.

This project models the core of the application as immutable datatypes and pure functions:

- **the merge-item list of the main window** (`filter.dfy`, `window.dfy`):
  - the reload that filters and orders the stored items;
  - the two filter settings whose changes trigger a reload, and `ClearFilters`;
  - the Go-To prompt and how it handles the result of an attempt.
- **merge items and targets** (`entities.dfy`, `merge_items.dfy`, `targets.dfy`, `store.dfy`):
  - the single-original-target rule and the automatic rename;
  - opening a work item, and opening every changeset or commit listed in a target;
  - the per-target server override with its fallback to the first configured server;
  - the server menus with their `IsSelected` flags;
  - the `%o/%v/%b/%t` check-in note;
  - creating, deleting and saving items and targets in the store.
- **identifier parsing** (`text.dfy`, `numbers.dfy`, `identifiers.dfy`):
  - .NET `Split` with and without `RemoveEmptyEntries`;
  - `int.TryParse` under `NumberStyles.Integer`;
  - letter classification, which decides between commit and changeset;
  - the `server|project|repository` decomposition, both as an exact 3-part split and positionally;
  - the `org/repository` decomposition.
- **remote lookups** (`remote.dfy`, `tfs_utils.dfy`, `onprem.dfy`, `github.dfy`, `jira.dfy`):
  - every remote call is a function parameter that returns an optional record with a link map, or an error;
  - the URL and title rules and the error messages are stated over those parameters;
  - the `TfsUtils` global client cache with its "failed to connect" set.
- **client caches with credential snapshots** (`client_cache.dfy`): each provider holds a `(client?, snapshot)` pair. One generic state machine is instantiated for three snapshot policies:
  - the on-prem username and password;
  - the GitHub token;
  - the Jira password alone.
- **the one-shot schema migration** (`migration.dfy`): run at user version 0, as a transformation of maps of documents.

Exceptions become `Failure(message)` values of a `Result`. A nullable .NET string is `Option<string>` (`NString`).

## Model

| member | source | states |
|---|---|---|
| Text.Lower | MergeTracker/TfsUtils.cs:59 | lower-casing keeps the length and maps each character by itself (ASCII folding) |
| Text.Split | MergeTracker/OnPremTfsGitSourceControlServer.cs:53 | splitting always yields at least one piece and no piece contains a separator |
| Text.RemoveEmpty | MergeTracker/MergeItem.cs:238 | every kept piece is a non-empty input piece, every non-empty input piece is kept, and there are no more pieces than before |
| Text.RemoveEmptyIsFilter | MergeTracker/MergeItem.cs:238 | dropping empty pieces distributes over concatenation, drops a lone empty piece and keeps a lone non-empty one: it is the order-preserving filter |
| Text.SplitRemoveEmpty | MergeTracker/MergeItem.cs:238 | with `RemoveEmptyEntries` every piece is non-empty and separator-free |
| Text.SplitAtSeparator | MergeTracker/MergeItem.cs:238 | a separator cuts a split in two: the pieces of the text before it, then the pieces of the text after it |
| Text.SplitRemoveEmptyAtSeparator | MergeTracker/MergeItem.cs:238 | the same cut holds with `RemoveEmptyEntries` |
| Text.SplitRemoveEmptySkipsLeadingRun | MergeTracker/MergeItem.cs:238 | a leading run of separators adds no piece |
| Text.SplitRemoveEmptySkipsTrailingRun | MergeTracker/MergeItem.cs:238 | a trailing run of separators adds no piece |
| Text.WeaveSplitsBack | MergeTracker/MergeItem.cs:238 | non-empty separator-free pieces kept apart by non-empty separator runs split back into exactly those pieces, in order |
| Text.SplitRemoveEmptyWeave | MergeTracker/MergeItem.cs:238 | the same with separator runs, possibly empty, before and after: the inverse of splitting with `RemoveEmptyEntries` |
| Text.SplitFirstPiece | MergeTracker/OnPremTfsGitSourceControlServer.cs:53 | the first piece is the longest separator-free prefix: the text starts with it, and it ends at the end or at a separator |
| Text.SplitLastPiece | MergeTracker/GitHubWorkItemServer.cs:56 | the last piece is the longest separator-free suffix: the text ends with it, and it starts at the start or right after a separator |
| Text.SplitSingle | MergeTracker/OnPremTfsGitSourceControlServer.cs:55 | a split yields a single piece iff the text holds no separator |
| Text.SplitRemoveEmptyKeepsContent | MergeTracker/MergeItem.cs:238 | the pieces, concatenated in order, are the input with the separators deleted: nothing is lost or reordered |
| Text.JoinSplit | MergeTracker/OnPremTfsGitSourceControlServer.cs:53-57 | splitting without removal and re-joining with the separator gives back the input |
| Text.SplitJoin | MergeTracker/OnPremTfsGitSourceControlServer.cs:53-57 | joining separator-free parts and splitting again gives back exactly those parts |
| Text.ReplaceAbsent | MergeTracker/MergeTarget.cs:86-90 | replacing a marker that does not occur leaves the text unchanged, whatever the replacement |
| Text.Replace | MergeTracker/MergeTarget.cs:86-90 | a text in which the first character of the searched text never occurs comes back unchanged, and so does any text when a marker is replaced by itself |
| Text.ReplaceAfterFreePrefix | MergeTracker/MergeTarget.cs:86-90 | a prefix without the first character of the searched text is copied through and the scan goes on after it |
| Text.ReplaceAtStart | MergeTracker/MergeTarget.cs:86-90 | an occurrence at the start is replaced and the scan goes on after it, not inside the replacement |
| Text.ReplaceAfterNearMiss | MergeTracker/MergeTarget.cs:86-90 | a two-character text that only starts like the searched one, such as `%v` when `%o` is sought, is copied through |
| Numbers.TryParseInt32 | MergeTracker/MergeItem.cs:258 | a successful parse yields a value inside the Int32 range |
| Numbers.ParseFormatted | MergeTracker/MergeItem.cs:258 | every Int32 written in decimal parses back to itself |
| Numbers.ParseRejectsLetters | MergeTracker/MergeItem.cs:241-258 | a string with a letter never parses as an integer |
| Identifiers.ChangesetPieces | MergeTracker/MergeItem.cs:238 | the changeset field splits on `,` and `;` into non-empty pieces free of either separator |
| Identifiers.ChangesetPiecesRoundTrip | MergeTracker/MergeItem.cs:238 | ids free of `,` and `;`, written with runs of those separators between, before and after them, read back exactly and in order |
| Identifiers.GitServerParts | MergeTracker/MergeItem.cs:244 | a server names a Git repository iff it splits into exactly three non-empty pipe segments, and then each part is non-empty and pipe-free |
| Identifiers.RouteId | MergeTracker/TfsUtils.cs:165-182 | the routing of an id: a commit iff it has a letter and the server has three parts; a changeset iff it parses as Int32; a null-reference failure iff it has a letter and there is no server; otherwise nothing |
| Identifiers.CommitAndChangesetExclusive | MergeTracker/MergeItem.cs:241-258 | no id is both letter-bearing and an integer, so at most one branch applies |
| Identifiers.GitServerPartsRoundTrip | MergeTracker/TfsUtils.cs:168 | `a`, `b`, `c` joined by pipes with non-empty, pipe-free parts decomposes to exactly `(a, b, c)` |
| Identifiers.TwoPartsAreNotGitRepository | MergeTracker/TfsUtils.cs:168 | a two-part name is not a Git repository identifier |
| Identifiers.ElementAtOrDefault | MergeTracker/OnPremTfsGitSourceControlServer.cs:55 | `Skip(n).FirstOrDefault()` is the n-th element if there is one, else null |
| Identifiers.ActualServerName | MergeTracker/OnPremTfsGitSourceControlServer.cs:53 | the address is the text up to the first pipe, or the whole name when there is none |
| Identifiers.ProjectName | MergeTracker/OnPremTfsGitSourceControlServer.cs:55 | the project is null iff the name has no pipe, and otherwise pipe-free |
| Identifiers.RepoName | MergeTracker/OnPremTfsGitSourceControlServer.cs:57 | a repository is pipe-free and present only when a project is |
| Identifiers.PositionalDecomposition | MergeTracker/OnPremTfsGitSourceControlServer.cs:53-57 | server, project and repository are the first three pipe segments; a missing segment is null; extra ones are ignored |
| Identifiers.PositionalRoundTrip | MergeTracker/OnPremTfsGitSourceControlServer.cs:53-57 | composing `a`, `b`, `c` joined by pipes and decomposing positionally gives back `(a, b, c)`, with empty parts allowed |
| Identifiers.GitHubDecomposition | MergeTracker/GitHubWorkItemServer.cs:54-56 | the repository is the last `/` segment and the organisation the one before it, or null when there is none |
| Identifiers.GitHubRepository | MergeTracker/GitHubWorkItemServer.cs:56 | the repository is the text after the last `/`, or the whole name when there is none |
| Identifiers.GitHubOrg | MergeTracker/GitHubWorkItemServer.cs:54 | the organisation is null iff the name has no `/`, and otherwise `/`-free |
| Identifiers.GitHubOrgRepository | MergeTracker/GitHubSourceControlServer.cs:37-39 | `org/repo` gives `("org", "repo")`, and a bare `repo` gives a null organisation |
| Remote.LinkHref | MergeTracker/TfsUtils.cs:91 | a link is found iff there is a record whose link map has that relation as a reference link, and it is that link's href |
| Remote.TitleOf | MergeTracker/OnPremTfsWorkItemServer.cs:36 | no record gives a null title; a record without a title field fails; otherwise the title is that field |
| Remote.LinkOrThrow | MergeTracker/TfsUtils.cs:87-98 | a lookup error propagates; otherwise it returns the link if there is one, else fails with the "unable to access" message |
| Remote.TitleOrThrow | MergeTracker/OnPremTfsWorkItemServer.cs:34-37 | a lookup error propagates; otherwise the title rule applies |
| TfsUtils.PairEquals | MergeTracker/TfsUtils.cs:200-212 | two cache keys are equal iff the other is a key with the same server name and client type |
| TfsUtils.GetCredentialsForServer | MergeTracker/TfsUtils.cs:55-72 | token-only basic credentials with an empty user iff the name contains `dev.azure.com` in any case; otherwise Windows credentials with the username and password |
| TfsUtils.Initialize | MergeTracker/TfsUtils.cs:17-53 | a failed server gives a null client and builds nothing; a cache hit returns the cached client; a miss builds and stores a client; a build failure adds the server to the failed set and changes nothing else; the cache only grows |
| TfsUtils.MissBuildsWithCurrentCredentials | MergeTracker/TfsUtils.cs:34-41 | on a miss the new client is built for that server and type with the credentials derived from the current settings |
| TfsUtils.SecondRequestIsCacheHit | MergeTracker/TfsUtils.cs:26-29 | after a success, a second request for the same key returns the same result, even if the settings changed |
| TfsUtils.Run | MergeTracker/TfsUtils.cs:17-53 | a sequence of requests gives one result per request and only grows the cache |
| TfsUtils.FailedServerStaysDisabled | MergeTracker/TfsUtils.cs:24 | once a server is in the failed set, every later request for it, of any client type, yields a null client |
| TfsUtils.FailureDisablesServer | MergeTracker/TfsUtils.cs:43-47 | after a construction failure, every later request for that server yields a null client |
| TfsUtils.WithClient | MergeTracker/TfsUtils.cs:78-83 | a null client yields a null record without calling the service; an initialisation error propagates |
| TfsUtils.LookUp | MergeTracker/TfsUtils.cs:74-85 | the cache only grows and stays coherent; a disabled server gives a null record without a lookup; a cached client is asked directly; a construction failure is thrown and disables the server; any record comes from a client of that server and type |
| TfsUtils.GetWorkItem | MergeTracker/TfsUtils.cs:74-85 | the lookup rule above, asking a work-item client for the id |
| TfsUtils.GetChangeset | MergeTracker/TfsUtils.cs:105-116 | the lookup rule above, asking a TFVC client for the id |
| TfsUtils.GetCommit | MergeTracker/TfsUtils.cs:118-129 | the lookup rule above, asking a Git client on the repository's server for the commit in its project and repository |
| TfsUtils.UnableToAccess | MergeTracker/TfsUtils.cs:97 | the message starts with "Unable to access ", then names what, the id and the server, and ends with a full stop |
| TfsUtils.ResolveLink | MergeTracker/TfsUtils.cs:87-98 | a lookup error passes through; otherwise the record's reference link under the relation, or the given message when there is no record or no such link; the cache is the lookup's |
| TfsUtils.GetWorkItemUrl | MergeTracker/TfsUtils.cs:87-98 | the work item's `html` link, or "Unable to access work item ID" |
| TfsUtils.GetChangesetUrl | MergeTracker/TfsUtils.cs:131-142 | the changeset's `web` link, or "Unable to access changeset ID" |
| TfsUtils.GetCommitUrl | MergeTracker/TfsUtils.cs:149-160 | the commit's `web` link, or "Unable to access commit ID" |
| TfsUtils.GetChangesetOrCommitUrl | MergeTracker/TfsUtils.cs:162-183 | a letter-bearing id on a three-part server goes to the commit URL; an Int32 id to the changeset URL; a letter-bearing id with no server is a null reference; anything else fails with "Unable to access commit or changeset ID" |
| TfsUtils.DisabledServerHasNoUrl | MergeTracker/TfsUtils.cs:87-142 | on a failed server, the work-item and changeset URLs fail with their "Unable to access" messages and the cache is unchanged |
| TfsUtils.TwoPartIdentifierRejectsCommit | MergeTracker/TfsUtils.cs:165-182 | a commit id on a two-part (`host` and `project`) server is rejected |
| ClientCache.GetClient | MergeTracker/GitHubWorkItemServer.cs:39-50 | it rebuilds iff there is no client or the snapshot no longer matches the live settings; on reuse nothing changes; a successful rebuild stores a client built with the live settings and their snapshot; a failed build leaves the pair as it was; coherence is kept |
| ClientCache.SecondCallReuses | MergeTracker/GitHubWorkItemServer.cs:39-50 | with unchanged settings, a second call builds nothing and returns the same client |
| ClientCache.RebuildIffChanged | MergeTracker/GitHubWorkItemServer.cs:41-44 | an existing client is rebuilt iff the snapshot of its settings no longer matches the live ones |
| ClientCache.RetryAfterFailureUsesLiveSettings | MergeTracker/GitHubWorkItemServer.cs:46-49 | after a failed build, the next successful call returns a client built with the live settings |
| ClientCache.GetClientSnapshotFirst | MergeTracker/OnPremTfsWorkItemServer.cs:49-59 | as written: the snapshot is replaced before the build, so a failed build keeps the old client under the new snapshot |
| ClientCache.SnapshotFirstServesStaleClient | MergeTracker/OnPremTfsWorkItemServer.cs:56-58 | as written, a failed rebuild followed by a call with the same settings returns the stale client without rebuilding; the corrected cache rebuilds |
| OnPremTfs.GetWorkItem | MergeTracker/OnPremTfsWorkItemServer.cs:39-47 | a non-integer id fails with "must be integers" before any client is touched; any success is the service's answer for the parsed id on an up-to-date client; under the corrected cache order (see Left out) |
| OnPremTfs.GetWorkItemUrl | MergeTracker/OnPremTfsWorkItemServer.cs:21-32 | the URL is the record's `html` reference link; no record or no link fails with "Unable to access work item ID" |
| OnPremTfs.GetWorkItemTitle | MergeTracker/OnPremTfsWorkItemServer.cs:34-37 | the title is the `System.Title` field, and null when there is no record |
| OnPremTfs.GetChangeset | MergeTracker/OnPremTfsSourceControlServer.cs:33-41 | a non-integer changeset id fails before any client is built; any success is the answer for the parsed id on an up-to-date client; under the corrected cache order (see Left out) |
| OnPremTfs.GetChangesetUrl | MergeTracker/OnPremTfsSourceControlServer.cs:20-31 | the URL is the `web` link; its absence fails with "Unable to access changeset ID" |
| OnPremTfs.GetCommit | MergeTracker/OnPremTfsGitSourceControlServer.cs:34-49 | the commit id passes through unchecked; the client connects to the first pipe segment; the query uses the positional project and repository; under the corrected cache order (see Left out) |
| OnPremTfs.GetCommitUrl | MergeTracker/OnPremTfsGitSourceControlServer.cs:21-32 | the URL is the `web` link; its absence fails with "Unable to access commit ID" |
| OnPremTfs.RebuildIffCredentialsDiffer | MergeTracker/OnPremTfsWorkItemServer.cs:51-54 | an existing client is rebuilt iff the stored username or password differs from the live one |
| OnPremTfs.BuildAtMostOnce | MergeTracker/OnPremTfsWorkItemServer.cs:49-59 | with unchanged credentials, two calls build at most once |
| OnPremTfs.NullUserNameAlwaysRebuilds | MergeTracker/OnPremTfsWorkItemServer.cs:51 | if the credential normalises null, a null live username never matches the snapshot, so every call rebuilds |
| OnPremTfs.SnapshotFirstKeepsOldPassword | MergeTracker/OnPremTfsWorkItemServer.cs:56 | a concrete case: the password changes, the first rebuild fails, and the next call returns the client built with the old password |
| GitHub.GetPullRequest | MergeTracker/GitHubWorkItemServer.cs:29-37 | a non-integer id fails before any client is built; a success is the pull request of the parsed number in the parsed org and repository |
| GitHub.GetWorkItemUrl | MergeTracker/GitHubWorkItemServer.cs:19-22 | the URL is the pull request's `HtmlUrl` |
| GitHub.GetWorkItemTitle | MergeTracker/GitHubWorkItemServer.cs:24-27 | the title is the pull request's `Title` |
| GitHub.GetChangesetUrl | MergeTracker/GitHubSourceControlServer.cs:17-33 | the commit id passes to the lookup verbatim and the URL is the commit's `HtmlUrl`; the snapshot becomes the live token |
| GitHub.RebuildIffTokenChanged | MergeTracker/GitHubWorkItemServer.cs:41-44 | an existing client is rebuilt iff its token differs from the live one |
| GitHub.TokenSnapshotSettles | MergeTracker/GitHubSourceControlServer.cs:22-33 | after a successful call the snapshot is the live token, and the next call builds nothing |
| Jira.GetIssue | MergeTracker/JiraWorkItemServer.cs:27-30 | the issue key passes through verbatim to a client holding the live password; under the corrected cache order (see Left out) |
| Jira.GetWorkItemUrl | MergeTracker/JiraWorkItemServer.cs:16-20 | the URL is the client base URL, then `browse/`, then the issue key |
| Jira.GetWorkItemTitle | MergeTracker/JiraWorkItemServer.cs:22-25 | the title is the issue's `Summary` |
| Jira.RebuildIffPasswordChanged | MergeTracker/JiraWorkItemServer.cs:34-37 | an existing client is rebuilt iff the password differs |
| Jira.UsernameChangeKeepsClient | MergeTracker/JiraWorkItemServer.cs:34-37 | a change of username alone keeps the cached client |
| Jira.PasswordSnapshotSettles | MergeTracker/JiraWorkItemServer.cs:32-40 | after a successful call the next call builds nothing |
| Entities.FirstOrNull | MergeTracker/RootConfiguration.cs:74 | the first element, or null for a null or empty list |
| Entities.DefaultWorkItemServer | MergeTracker/RootConfiguration.cs:74 | the first configured work-item server, or null when the list is null or empty |
| Entities.DefaultSourceControlServer | MergeTracker/RootConfiguration.cs:84 | the first configured source-control server, or null when the list is null or empty |
| Entities.FirstOriginal | MergeTracker/MergeTarget.cs:83-84 | the first target marked original, and none iff no target is |
| Entities.LastErrorShown | MergeTracker/MergeItem.cs:113-126 | `HasLastError` depends on the message alone: a prefixed message shows, a null or empty one does not |
| Entities.TargetIds | MergeTracker/MergeItem.cs:105-110 | the stored references are the targets' ids, in order |
| Targets.EffectiveWorkItemServer | MergeTracker/MergeTarget.cs:61-65 | the per-target override when set, otherwise the configured default |
| Targets.EffectiveSourceControlServer | MergeTracker/MergeTarget.cs:68-72 | the per-target override when set, otherwise the configured default |
| Targets.NoOverrideUsesFirstConfigured | MergeTracker/MergeTarget.cs:61-72 | without overrides, the effective servers are the first configured ones, or null when none are configured |
| Targets.MenuEntriesReadAsTheirServers | MergeTracker/ServerItem.cs:14 | each menu entry reads as the configured server at its position, and choosing an entry that names a server makes the server it reads as the effective one |
| Targets.Menu | MergeTracker/MergeTarget.cs:76-79 | one entry per configured server, in order, selected iff it equals the chosen server |
| Targets.WorkItemServerItems | MergeTracker/MergeTarget.cs:76 | null iff no list is configured; otherwise one entry per server, in order, selected iff it names the effective work-item server |
| Targets.SourceControlServerItems | MergeTracker/MergeTarget.cs:79 | the same shape against the effective source-control server |
| Targets.Select | MergeTracker/ServerItem.cs:22-38 | selecting an entry sets the owner's server of that kind to the entry's name and changes nothing else |
| Targets.SelectMarksChosenEntry | MergeTracker/ServerItem.cs:33-37 | after selecting a work-item entry, exactly the entries with that name are selected and the source-control menu is unchanged |
| Targets.SelectMarksChosenSourceControlEntry | MergeTracker/ServerItem.cs:24-28 | after selecting a source-control entry, exactly the entries with that name are selected and the work-item menu is unchanged |
| Targets.GenerateCheckinNote | MergeTracker/MergeTarget.cs:81-93 | a null template fails with a null reference; any other template yields a note |
| Targets.NoMarkersNoChange | MergeTracker/MergeTarget.cs:86-90 | a template with none of the four markers is returned unchanged |
| Targets.OriginalIdTemplate | MergeTracker/MergeTarget.cs:83-87 | `%o` becomes the original target's work-item id, or is removed when there is no original target |
| Targets.BranchTemplate | MergeTracker/MergeTarget.cs:89 | `%b` becomes this target's branch |
| Targets.OriginalWorkItemId | MergeTracker/MergeTarget.cs:83 | the original target's id, or empty with no original target or a null id |
| Targets.OriginalBranchName | MergeTracker/MergeTarget.cs:84 | the original target's branch, or empty with no original target or a null branch |
| Targets.ReplaceSlot | MergeTracker/MergeTarget.cs:86-90 | one slot of a template: the sought marker becomes the value; another marker or `%`-free text is copied through |
| Targets.ReplaceInTemplate | MergeTracker/MergeTarget.cs:86-90 | replacing one marker in `%`-free text woven with markers and `%`-free values replaces exactly the slots holding it |
| Targets.FillMarkers | MergeTracker/MergeTarget.cs:86-90 | the four replacements in turn put the four values in the four markers' places |
| Targets.CheckinNoteFillsMarkers | MergeTracker/MergeTarget.cs:81-93 | a template of literal text around `%o`, `%v`, `%b`, `%t` gives that text with the original id, the original branch, this branch and this id in their places, when neither text nor values hold a `%` |
| MergeItems.SetOriginal | MergeTracker/MergeItem.cs:84-90 | when the changed target is original it becomes the only original; otherwise nothing changes; only `IsOriginal` flags change, only from true to false, and length and order are kept |
| MergeItems.EditIsOriginal | MergeTracker/MergeItem.cs:55-66 | editing a target's flag sets it to the new value and keeps the length |
| MergeItems.EditKeepsSingleOriginal | MergeTracker/MergeItem.cs:84-90 | "at most one original" survives every edit, and setting a flag makes that target the only original |
| MergeItems.GenerateName | MergeTracker/MergeItem.cs:68-82 | without the guard nothing changes; under it, a non-null fetched title becomes the name, a null title changes nothing, and an error from the lookup or the title becomes the prefixed `LastError`, so `HasLastError` holds; nothing else changes |
| MergeItems.RenameHappensOnce | MergeTracker/MergeItem.cs:72-75 | once renamed to something other than "New Merge Item", no later edit renames the item |
| MergeItems.OpenBug | MergeTracker/MergeItem.cs:205-228 | nothing opens without a selected target with an Int32 id; otherwise the work item's `html` link opens when it exists and nothing opens when it does not; a lookup error opens nothing and becomes the prefixed `LastError` |
| MergeItems.OpenPiece | MergeTracker/MergeItem.cs:240-265 | an unroutable piece is skipped; a letter-bearing piece with no server is a null reference; a routed piece opens the commit's or changeset's `web` link when there is one and nothing otherwise, and a lookup error passes through |
| MergeItems.OpenPieces | MergeTracker/MergeItem.cs:238-266 | at most one page opens per piece |
| MergeItems.OpenPiecesAppend | MergeTracker/MergeItem.cs:238-266 | pieces are processed in order: running `a + b` is running `a`, then `b` unless `a` failed, and the first error stops the loop |
| MergeItems.SkippedPiece | MergeTracker/MergeItem.cs:241-258 | a piece that routes nowhere is skipped silently |
| MergeItems.OpenChangeset | MergeTracker/MergeItem.cs:230-275 | an empty field does nothing; otherwise it opens the pieces' pages in order, and the first error becomes a prefixed `LastError` |
| MergeItems.CommitNeedsThreeParts | MergeTracker/MergeItem.cs:244 | a letter-bearing piece on a server without exactly three parts is skipped |
| MergeItems.ChangesetNeedsInteger | MergeTracker/MergeItem.cs:258 | a letter-free piece that is not an Int32 is skipped |
| Store.NextId | MergeTracker/MainWindow.xaml.cs:346 | an inserted record gets a positive id above every id in use |
| Store.LoadTargets | MergeTracker/MainWindow.xaml.cs:398 | the references resolve to the stored targets, in order |
| Store.Load | MergeTracker/MainWindow.xaml.cs:398 | a loaded item has its stored id, name and targets, in order, and no `LastError` |
| Store.CreateMergeItem | MergeTracker/MainWindow.xaml.cs:343-356 | adds one item "New Merge Item" under a fresh id, holding one fresh target that is original and not completed; every old record is unchanged |
| Store.CreateKeepsWellFormed | MergeTracker/MainWindow.xaml.cs:343-356 | creation keeps the store well formed, and the new item loads with one original, not-completed target |
| Store.CreateMergeTarget | MergeTracker/MergeItem.cs:169-174 | a blank target under a fresh id is stored and appended; everything else stays; "at most one original" is kept |
| Store.DeleteMergeTarget | MergeTracker/MergeItem.cs:176-183 | with a selected target, exactly that target leaves the item and the store; with none, nothing changes |
| Store.DeleteOps | MergeTracker/MergeItem.cs:191-192 | every target is deleted, in order, before the item itself |
| Store.ApplyRemoves | MergeTracker/MergeItem.cs:191-192 | running the deletions removes exactly the named records |
| Store.Delete | MergeTracker/MergeItem.cs:185-195 | unconfirmed, nothing happens; confirmed, the item and all its targets are gone and nothing else is touched |
| Store.DeleteKeepsWellFormed | MergeTracker/MergeItem.cs:185-195 | deleting a loaded item keeps the store well formed, removes its targets and keeps the other items |
| Store.UpdateTarget | MergeTracker/MergeTarget.cs:95-98 | updating a stored target replaces it; an unknown id changes nothing |
| Store.SaveTargets | MergeTracker/MergeItem.cs:137 | saving targets touches no item and no other target |
| Store.Save | MergeTracker/MergeItem.cs:135-139 | saving writes the item's name and target references and touches no other item or target |
| Store.SaveWritesTargets | MergeTracker/MergeItem.cs:137 | after saving, each stored target with a distinct id equals the saved one |
| Filter.AnyNotCompletedIn | MergeTracker/MainWindow.xaml.cs:408 | true iff some target's completion is not `true`, so both false and null count |
| Filter.AnyFieldIn | MergeTracker/MainWindow.xaml.cs:420-423 | true iff some target's field contains the text |
| Filter.StarterAnd | MergeTracker/MainWindow.xaml.cs:401-408 | `And` on an unstarted starter is the new clause alone; on a started one it is the conjunction |
| Filter.StarterOr | MergeTracker/MainWindow.xaml.cs:417-419 | `Or` on an unstarted starter is the new clause alone; on a started one it is the disjunction |
| Filter.BuildPredicate | MergeTracker/MainWindow.xaml.cs:400-424 | the predicate that is built holds of an item iff the item matches the not-completed clause and the text clause |
| Filter.AnyTargetContainsMeaning | MergeTracker/MainWindow.xaml.cs:419-423 | the four-way disjunction holds iff some target has some field containing the text |
| Filter.Where | MergeTracker/MainWindow.xaml.cs:434 | the kept items are exactly the matching ones, with multiplicity |
| Filter.WhereKeepsDistinct | MergeTracker/MainWindow.xaml.cs:434 | filtering keeps ids distinct |
| Filter.InsertDescending | MergeTracker/MainWindow.xaml.cs:434 | insertion keeps a descending list descending and adds exactly that item |
| Filter.InsertKeepsStrict | MergeTracker/MainWindow.xaml.cs:434 | inserting a new id keeps the list strictly descending |
| Filter.SortDescending | MergeTracker/MainWindow.xaml.cs:434 | the result is a permutation of the input, descending by `ObjectId` |
| Filter.SortStrict | MergeTracker/MainWindow.xaml.cs:434 | with distinct ids the order is strictly descending |
| Filter.Reload | MergeTracker/MainWindow.xaml.cs:428-441 | a failed query leaves an empty list and a zero count; otherwise the list is exactly the matching stored items, in descending id order, and the count is that of all stored items |
| Filter.ReloadStrictlyDescending | MergeTracker/MainWindow.xaml.cs:434 | with distinct ids, the list is strictly descending by `ObjectId` |
| Filter.ClearedFiltersListEverything | MergeTracker/MainWindow.xaml.cs:400-402 | with no text and the not-completed filter off, every stored item is listed |
| Filter.NotCompletedClause | MergeTracker/MainWindow.xaml.cs:405-409 | with only the not-completed filter, an item is listed iff it is stored and some target is not completed |
| Filter.TextClause | MergeTracker/MainWindow.xaml.cs:411-424 | with only a text, an item is listed iff it is stored and its name or some target's work-item id, changeset id, branch or notes contains the text, ignoring case |
| Filter.ClausesConjoin | MergeTracker/MainWindow.xaml.cs:434 | the listing with both clauses is the intersection of the listings with each clause |
| MainWindow.SetFilter | MergeTracker/MainWindow.xaml.cs:73-82 | setting the text reloads iff it changes; nothing else changes |
| MainWindow.SetNotCompletedFilter | MergeTracker/MainWindow.xaml.cs:73-82 | setting the flag reloads iff it changes; nothing else changes |
| MainWindow.ClearFilters | MergeTracker/MainWindow.xaml.cs:533-537 | afterwards the text is empty and the flag is off; it reloads only if either was set |
| MainWindow.ClearFiltersListsEverything | MergeTracker/MainWindow.xaml.cs:533-537 | after clearing filters that were set, every stored item is listed and counted |
| MainWindow.CreatedItemIsListed | MergeTracker/MainWindow.xaml.cs:343-356 | a newly created item is in the reloaded list whatever the not-completed filter says |
| MainWindow.ShowGoToItem | MergeTracker/MainWindow.xaml.cs:445-450 | showing the prompt clears the error flag and tooltip |
| MainWindow.ClosedPromptIsInert | MergeTracker/MainWindow.xaml.cs:491-494 | after closing, going to an item does nothing, closing again changes nothing, and showing the prompt again is the same as showing it before |
| MainWindow.TryOpen | MergeTracker/MainWindow.xaml.cs:456-487 | a work item is always looked up, a changeset only with a non-empty id; an empty or null error closes the prompt, any other is shown; nothing stays in flight |
| MainWindow.GoToItem | MergeTracker/MainWindow.xaml.cs:452-489 | nothing happens unless the prompt is shown; then the prompt stays open iff a lookup returned a non-empty error, and then shows it |
| MainWindow.CopyItemUrl | MergeTracker/MainWindow.xaml.cs:496-531 | the same handling, whether or not the prompt is shown |
| MainWindow.GoToClosesOnSuccess | MergeTracker/MainWindow.xaml.cs:452-489 | the prompt closes iff the lookup succeeded or was skipped, and a closed prompt ignores a second Go-To |
| MainWindow.FailedGoToKeepsPromptOpen | MergeTracker/MainWindow.xaml.cs:477-485 | a failed lookup keeps the prompt open with the error, so a retry goes ahead |
| Migration.CopyFields | MergeTracker/DatabaseEngine.cs:28-29 | after the copies, the written fields are present and every other field keeps its value |
| Migration.CopyFieldsCopies | MergeTracker/DatabaseEngine.cs:36-39 | with distinct written fields that are never read, each written field holds its legacy field's old value, or null if that was missing |
| Migration.CopyAll | MergeTracker/DatabaseEngine.cs:26-31 | every document is updated in place; none is added or removed |
| Migration.MigrateCollection | MergeTracker/DatabaseEngine.cs:25-31 | only the named collection changes, and only if it exists |
| Migration.Migrate | MergeTracker/DatabaseEngine.cs:23-44 | at a version other than 0 nothing changes; at 0 the version becomes 1, no collection or document is added or removed, and other collections are untouched |
| Migration.MigrateOnce | MergeTracker/DatabaseEngine.cs:23-43 | opening the database a second time migrates nothing |
| Migration.MergeTargetsCopied | MergeTracker/DatabaseEngine.cs:25-31 | every merge target gets `WorkItemId := BugNumber` and `ChangesetId := Changeset`, keeping the legacy and all other fields |
| Migration.RootConfigurationsCopied | MergeTracker/DatabaseEngine.cs:33-41 | every root configuration gets the four current settings from their legacy counterparts, keeping all other fields |

## Left out

- Windows, data grids, menus, the wait cursor, the clipboard and `Process.Start`. Opening a page is modelled as adding a URL to a list; copying a URL is modelled as the same attempt as opening it.
- The mapping from a server identifier to a provider class (`RootConfiguration.OpenWorkItem`, `OpenChangeset`, `CopyWorkItemUrl`, `CopyChangesetUrl`). It is not part of this model. The Go-To prompt takes the error it returns as a parameter.
- Remote services are function parameters. These include the Azure DevOps clients, Octokit, Atlassian.Jira, `VssConnection.GetClient` and the Jira REST client construction. Their failures are `Failure` values or `Option<string>` build errors.
- The certificate override in `TfsUtils.Initialize` is left out. It has no effect on the cache.
- Concurrency: `Task.Run`, `async` and the unsynchronised static dictionaries. Every call is modelled as sequential.
- LiteDB's query translation:
  - The filter runs over an in-memory sequence of stored items.
  - A query that throws is a boolean parameter.
  - `LIKE` is modelled as ASCII case-insensitive substring matching. Wildcard characters in the filter text are treated as literals.
- LiteDB's ids: an insert takes the largest id in use plus one. LiteDB's own id sequence may also skip ids that were used once and then deleted; only freshness and positivity are relied upon.
- LiteDB document keys are compared case-sensitively here.
- `char.IsLetter`, `ToLower` and case-insensitive matching are modelled on ASCII letters only.
- `int.TryParse` follows the `NumberStyles.Integer` grammar: optional whitespace, optional sign, digits, optional whitespace. The trailing-NUL tolerance of .NET is left out.
- `NetworkCredential` may normalise null strings. This is an explicit function parameter, and no behaviour of it is assumed.
- The exception text `{ex}` inside `LastError` and the error messages is modelled as the exception's message.
- Octokit and Atlassian.Jira records are assumed non-null when a call succeeds, as the source dereferences them unconditionally.
- `RootConfiguration.cs` in this revision declares none of these fields:
  - `Filter`, `CheckInMessage`, `GitHubToken`;
  - the Jira credentials;
  - the `OnPremTfs*` and `CloudAzureDevOpsToken` settings.

  Their meaning is taken from their use sites, and from the migration that maps the legacy names (`BugNumber`, `Changeset`, `TfsUsername`, …) onto the current ones. Each legacy/current pair is one field in the model.
- Setting `Filter` or `NotCompletedFilter` is assumed to notify only on an actual change, as MvvmLight's `Set` does.
- The migration copies the legacy fields and keeps them. It does not rename them.
- `RootConfiguration.Load` and `Save`, JSON settings files, the database file and `Shutdown` are left out. Only the store operations that the core performs are modelled.
- Hash codes of `ServerClientTypePair` are left out. The cache is keyed by the pair's value, which the equality lemma justifies.
- Targets.GenerateCheckinNote: its own contract states only the null-template failure. The substitutions are stated by `Targets.CheckinNoteFillsMarkers` for literal text around the four markers in the order `%o`, `%v`, `%b`, `%t`, and by `Targets.NoMarkersNoChange`, `Targets.OriginalIdTemplate` and `Targets.BranchTemplate`. These lemmas require that neither the text nor the values hold a `%`. A `%` can form a new marker across a boundary, for example the value `50%` followed by the text `v...`, and .NET then replaces that marker as well. Templates with markers in another order or repeated are not characterised beyond `Targets.ReplaceInTemplate`.
- MergeItems.OpenPieces: its own contract bounds only the number of pages. The order, the skipping and the stop at the first error are stated by `MergeItems.OpenPiecesAppend` and `MergeItems.SkippedPiece`.
- MergeItems.EditIsOriginal: its own contract states only the edited flag. The single-original rule is stated by `MergeItems.EditKeepsSingleOriginal`.
- TfsUtils.Run: its own contract states only the length and cache growth. Its effect on failed servers is stated by `TfsUtils.FailedServerStaysDisabled` and `TfsUtils.FailureDisablesServer`.
- OnPremTfs.GetWorkItem: runs the corrected cache order of `ClientCache.GetClient`, not the snapshot-first order at OnPremTfsWorkItemServer.cs:56-58. After a failed rebuild the program keeps the old client under the new snapshot and serves it on the next call; the model rebuilds instead. Its coherence clause and its "up-to-date client" clause hold of the corrected order only. The as-written order is `ClientCache.GetClientSnapshotFirst`, and `OnPremTfs.SnapshotFirstKeepsOldPassword` shows the difference; see Findings. `OnPremTfs.GetWorkItemUrl` and `OnPremTfs.GetWorkItemTitle` call it and share this.
- OnPremTfs.GetChangeset: runs the corrected cache order, not the snapshot-first order at OnPremTfsSourceControlServer.cs:50-52, with the same consequences as for `OnPremTfs.GetWorkItem`. `OnPremTfs.GetChangesetUrl` calls it and shares this.
- OnPremTfs.GetCommit: runs the corrected cache order, not the snapshot-first order at OnPremTfsGitSourceControlServer.cs:46-48, with the same consequences as for `OnPremTfs.GetWorkItem`. `OnPremTfs.GetCommitUrl` calls it and shares this.
- Jira.GetIssue: runs the corrected cache order, not the snapshot-first order at JiraWorkItemServer.cs:39. After a failed rebuild the program keeps the client built with the old password, so its "client holding the live password" clause holds of the corrected order only. It also does not restate that a password-only change rebuilds; that is `Jira.RebuildIffPasswordChanged`.
- The owner of a server-menu entry is the merge target that built the menu.

## Findings

| source | as written | input that shows it | evidently intended | confidence | as-written member | corrected member |
|---|---|---|---|---|---|---|
| MergeTracker/OnPremTfsWorkItemServer.cs:56-58 | the credential snapshot is assigned inside the constructor arguments, before `GetClient<T>()` runs; the same happens in OnPremTfsSourceControlServer.cs:50-52, OnPremTfsGitSourceControlServer.cs:46-48 and JiraWorkItemServer.cs:39 | a client is built for password `old`; the password changes to `new`; the rebuild throws once; the next call sees the snapshot `new` equal to the live password and returns the client built with `old` | the snapshot changes only together with a successfully built client, as in the GitHub providers; the model's on-prem and Jira providers run this corrected order | medium; not executed | ClientCache.GetClientSnapshotFirst | ClientCache.GetClient |
