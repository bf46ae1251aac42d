/**
 * The three on-prem TFS providers: work items, TFVC changesets and Git commits. Each holds
 * one client with a `NetworkCredential` snapshot of the on-prem user name and password,
 * rejects ids of the wrong shape before touching its client, and turns a record's reference
 * link into a browser address.
 */
module OnPremTfs {
  import opened Wrappers
  import opened Text
  import opened Numbers
  import opened Identifiers
  import opened Remote
  import opened ClientCache
  import TfsUtils

  /** The live `OnPremTfsUsername` and `OnPremTfsPassword` settings. */
  datatype OnPremCredentials = OnPremCredentials(username: NString, password: NString)

  /** The `NetworkCredential` snapshot: the user name and password as that object stores them. */
  datatype NetworkCredential = NetworkCredential(userName: NString, password: NString)

  type OnPremSlot = Slot<OnPremCredentials, NetworkCredential>

  /**
   * The reuse rule of the on-prem providers: the snapshot's user name and password must both
   * equal the live settings. `normalise` stands for what `NetworkCredential` does to the
   * text it is given, which is framework behaviour and left open.
   */
  function CredentialPolicy(normalise: NString -> NString): Policy<OnPremCredentials, NetworkCredential> {
    Policy((l: OnPremCredentials) => NetworkCredential(normalise(l.username), normalise(l.password)),
           (s: NetworkCredential, l: OnPremCredentials) => s.userName == l.username && s.password == l.password)
  }

  /**
   * The remote side of one provider: the credential normaliser, the client construction
   * (`new Uri`, `new VssConnection`, `GetClient<T>()`, answering the exception it throws,
   * if any, for a server address) and the record lookup made with a built client.
   */
  datatype Connection<!Q> = Connection(
    normalise: NString -> NString,
    connect: (NString, OnPremCredentials) -> Option<string>,
    lookup: (Handle<OnPremCredentials>, Q) -> Result<Option<TfsRecord>, string>)

  /** Reuse or build the client (a build throws `buildError` when present), then look `query` up with it. */
  function LookupWith<Q>(slot: OnPremSlot, live: OnPremCredentials, conn: Connection<Q>, buildError: Option<string>, query: Q)
    : Call<OnPremCredentials, NetworkCredential, Option<TfsRecord>>
  {
    var f := GetClient(slot, live, CredentialPolicy(conn.normalise), buildError);
    match f.result
    case Failure(e) => Call(f.slot, Failure(e))
    case Success(h) => Call(f.slot, conn.lookup(h, query))
  }

  /** The address under `rel` of a looked-up record, or `message` when there is none. */
  function UrlOf(c: Call<OnPremCredentials, NetworkCredential, Option<TfsRecord>>, rel: string, message: string)
    : Call<OnPremCredentials, NetworkCredential, string>
  {
    Call(c.slot, LinkOrThrow(c.result, rel, message))
  }

  // ----- OnPremTfsWorkItemServer -----

  const WorkItemIdMessage: string := "On-prem TFS work item IDs must be integers."

  /**
   * `GetWorkItem(workItemId)`: an id that does not parse as a 32-bit integer is rejected
   * before the client is reused or built; otherwise the record comes from a client that is
   * fit for the live credentials, and only a stale or missing client changes the slot.
   */
  function GetWorkItem(slot: OnPremSlot, serverName: NString, workItemId: NString, live: OnPremCredentials,
                       conn: Connection<int>): (r: Call<OnPremCredentials, NetworkCredential, Option<TfsRecord>>)
    ensures TryParseInt32(workItemId).None? ==> r == Call(slot, Failure(WorkItemIdMessage))
    ensures Coherent(slot, CredentialPolicy(conn.normalise)) ==> Coherent(r.slot, CredentialPolicy(conn.normalise))
    ensures r.slot != slot ==> !Reusable(slot, live, CredentialPolicy(conn.normalise))
    ensures Coherent(slot, CredentialPolicy(conn.normalise)) && r.result.Success? ==>
              TryParseInt32(workItemId).Some? &&
              exists h :: UpToDate(h, live, CredentialPolicy(conn.normalise)) &&
                          r.result == conn.lookup(h, TryParseInt32(workItemId).value)
  {
    match TryParseInt32(workItemId)
    case None => Call(slot, Failure(WorkItemIdMessage))
    case Some(n) => LookupWith(slot, live, conn, conn.connect(serverName, live), n)
  }

  /** `GetWorkItemUrl(workItemId)`: the record's "html" link, or the "Unable to access work item" error. */
  function GetWorkItemUrl(slot: OnPremSlot, serverName: NString, workItemId: NString, live: OnPremCredentials,
                          conn: Connection<int>): (r: Call<OnPremCredentials, NetworkCredential, string>)
    ensures var w := GetWorkItem(slot, serverName, workItemId, live, conn);
            && r.slot == w.slot
            && (w.result.Failure? ==> r.result == Failure(w.result.error))
            && (w.result.Success? ==> (r.result.Success? <==> LinkHref(w.result.value, HtmlRel).Some?))
            && (w.result.Success? && r.result.Success? ==> Some(r.result.value) == LinkHref(w.result.value, HtmlRel))
            && (w.result.Success? && r.result.Failure? ==>
                  r.result.error == TfsUtils.UnableToAccess("work item", OrEmpty(workItemId), serverName))
  {
    UrlOf(GetWorkItem(slot, serverName, workItemId, live, conn), HtmlRel,
          TfsUtils.UnableToAccess("work item", OrEmpty(workItemId), serverName))
  }

  /** `GetWorkItemTitle(workItemId)`: the `System.Title` field, null when no record comes back. */
  function GetWorkItemTitle(slot: OnPremSlot, serverName: NString, workItemId: NString, live: OnPremCredentials,
                            conn: Connection<int>): (r: Call<OnPremCredentials, NetworkCredential, NString>)
    ensures var w := GetWorkItem(slot, serverName, workItemId, live, conn);
            && r.slot == w.slot
            && (w.result.Failure? ==> r.result == Failure(w.result.error))
            && (w.result == Success(None) ==> r.result == Success(None))
            && (w.result.Success? && w.result.value.Some? && TitleKey in w.result.value.value.fields ==>
                  r.result == Success(w.result.value.value.fields[TitleKey]))
            && (w.result.Success? && w.result.value.Some? && TitleKey !in w.result.value.value.fields ==>
                  r.result.Failure?)
  {
    var w := GetWorkItem(slot, serverName, workItemId, live, conn);
    Call(w.slot, TitleOrThrow(w.result))
  }

  // ----- OnPremTfsSourceControlServer (TFVC) -----

  const ChangesetIdMessage: string := "On-prem TFS changeset IDs must be integers."

  /** `GetChangeset(changesetId)`: the integer guard comes before the client, as for work items. */
  function GetChangeset(slot: OnPremSlot, serverName: NString, changesetId: NString, live: OnPremCredentials,
                        conn: Connection<int>): (r: Call<OnPremCredentials, NetworkCredential, Option<TfsRecord>>)
    ensures TryParseInt32(changesetId).None? ==> r == Call(slot, Failure(ChangesetIdMessage))
    ensures Coherent(slot, CredentialPolicy(conn.normalise)) ==> Coherent(r.slot, CredentialPolicy(conn.normalise))
    ensures r.slot != slot ==> !Reusable(slot, live, CredentialPolicy(conn.normalise))
    ensures Coherent(slot, CredentialPolicy(conn.normalise)) && r.result.Success? ==>
              TryParseInt32(changesetId).Some? &&
              exists h :: UpToDate(h, live, CredentialPolicy(conn.normalise)) &&
                          r.result == conn.lookup(h, TryParseInt32(changesetId).value)
  {
    match TryParseInt32(changesetId)
    case None => Call(slot, Failure(ChangesetIdMessage))
    case Some(n) => LookupWith(slot, live, conn, conn.connect(serverName, live), n)
  }

  /** `GetChangesetUrl(changesetId)`: the changeset's "web" link, or the "Unable to access changeset" error. */
  function GetChangesetUrl(slot: OnPremSlot, serverName: NString, changesetId: NString, live: OnPremCredentials,
                           conn: Connection<int>): (r: Call<OnPremCredentials, NetworkCredential, string>)
    ensures var c := GetChangeset(slot, serverName, changesetId, live, conn);
            && r.slot == c.slot
            && (c.result.Failure? ==> r.result == Failure(c.result.error))
            && (c.result.Success? ==> (r.result.Success? <==> LinkHref(c.result.value, WebRel).Some?))
            && (c.result.Success? && r.result.Success? ==> Some(r.result.value) == LinkHref(c.result.value, WebRel))
            && (c.result.Success? && r.result.Failure? ==>
                  r.result.error == TfsUtils.UnableToAccess("changeset", OrEmpty(changesetId), serverName))
  {
    UrlOf(GetChangeset(slot, serverName, changesetId, live, conn), WebRel,
          TfsUtils.UnableToAccess("changeset", OrEmpty(changesetId), serverName))
  }

  // ----- OnPremTfsGitSourceControlServer -----

  /** The arguments of `GetCommitAsync(ProjectName, commitId, RepoName)`. */
  datatype CommitQuery = CommitQuery(project: NString, commitId: NString, repository: NString)

  /**
   * `GetCommit(commitId)`: the client connects to the first `|` segment of the server
   * identifier, and the commit id goes to the lookup unchecked, with the second and third
   * segments as project and repository. A null identifier throws before any lookup and
   * leaves the slot alone.
   */
  function GetCommit(slot: OnPremSlot, serverName: NString, commitId: NString, live: OnPremCredentials,
                     conn: Connection<CommitQuery>): (r: Call<OnPremCredentials, NetworkCredential, Option<TfsRecord>>)
    ensures serverName.None? ==> r == Call(slot, Failure(NullReferenceMessage))
    ensures Coherent(slot, CredentialPolicy(conn.normalise)) ==> Coherent(r.slot, CredentialPolicy(conn.normalise))
    ensures serverName.Some? && !Reusable(slot, live, CredentialPolicy(conn.normalise)) ==>
              (conn.connect(Some(ActualServerName(serverName.value)), live).None? ==> r.slot.client == Some(Handle(live))) &&
              (conn.connect(Some(ActualServerName(serverName.value)), live).Some? ==> r.slot == slot && r.result.Failure?)
    ensures Coherent(slot, CredentialPolicy(conn.normalise)) && r.result.Success? ==>
              serverName.Some? &&
              exists h :: UpToDate(h, live, CredentialPolicy(conn.normalise)) &&
                          r.result == conn.lookup(h, CommitQuery(ProjectName(serverName.value), commitId,
                                                                 RepoName(serverName.value)))
  {
    var buildError := if serverName.None? then Some(NullReferenceMessage)
                      else conn.connect(Some(ActualServerName(serverName.value)), live);
    var f := GetClient(slot, live, CredentialPolicy(conn.normalise), buildError);
    match f.result
    case Failure(e) => Call(f.slot, Failure(e))
    case Success(h) =>
      if serverName.None? then Call(f.slot, Failure(NullReferenceMessage))
      else Call(f.slot, conn.lookup(h, CommitQuery(ProjectName(serverName.value), commitId, RepoName(serverName.value))))
  }

  /** `GetChangesetUrl(changesetId)` of the Git provider: the commit's "web" link, or the "Unable to access commit" error. */
  function GetCommitUrl(slot: OnPremSlot, serverName: NString, commitId: NString, live: OnPremCredentials,
                        conn: Connection<CommitQuery>): (r: Call<OnPremCredentials, NetworkCredential, string>)
    ensures var c := GetCommit(slot, serverName, commitId, live, conn);
            && r.slot == c.slot
            && (c.result.Failure? ==> r.result == Failure(c.result.error))
            && (c.result.Success? ==> (r.result.Success? <==> LinkHref(c.result.value, WebRel).Some?))
            && (c.result.Success? && r.result.Success? ==> Some(r.result.value) == LinkHref(c.result.value, WebRel))
            && (c.result.Success? && r.result.Failure? ==>
                  r.result.error == TfsUtils.UnableToAccess("commit", OrEmpty(commitId), serverName))
  {
    UrlOf(GetCommit(slot, serverName, commitId, live, conn), WebRel,
          TfsUtils.UnableToAccess("commit", OrEmpty(commitId), serverName))
  }

  // ----- laws of the credential snapshot -----

  /**
   * For a slot holding a client, the client is rebuilt iff the stored user name or the
   * stored password differs from the live one.
   */
  lemma RebuildIffCredentialsDiffer(slot: OnPremSlot, live: OnPremCredentials, normalise: NString -> NString, e: Option<string>)
    requires Coherent(slot, CredentialPolicy(normalise)) && slot.client.Some?
    ensures GetClient(slot, live, CredentialPolicy(normalise), e).built <==>
              slot.snapshot.value.userName != live.username || slot.snapshot.value.password != live.password
  {
    RebuildIffChanged(slot, live, CredentialPolicy(normalise), e);
  }

  /**
   * With credentials the snapshot stores unchanged, two calls build at most once: after a
   * call that yields a client, the next one reuses it.
   */
  lemma BuildAtMostOnce(slot: OnPremSlot, live: OnPremCredentials, normalise: NString -> NString,
                        e1: Option<string>, e2: Option<string>)
    requires normalise(live.username) == live.username && normalise(live.password) == live.password
    requires Coherent(slot, CredentialPolicy(normalise))
    requires GetClient(slot, live, CredentialPolicy(normalise), e1).result.Success?
    ensures var first := GetClient(slot, live, CredentialPolicy(normalise), e1);
            !GetClient(first.slot, live, CredentialPolicy(normalise), e2).built
  {
    SecondCallReuses(slot, live, CredentialPolicy(normalise), e1, e2);
  }

  /**
   * If the snapshot never stores a null user name, a null live user name never matches it:
   * every call builds a new client.
   */
  lemma NullUserNameAlwaysRebuilds(slot: OnPremSlot, live: OnPremCredentials, normalise: NString -> NString, e: Option<string>)
    requires forall s :: normalise(s).Some?
    requires live.username.None?
    requires Coherent(slot, CredentialPolicy(normalise))
    ensures GetClient(slot, live, CredentialPolicy(normalise), e).built
  {
    if slot.client.Some? {
      assert slot.snapshot.value.userName == normalise(slot.client.value.builtWith.username);
    }
  }

  /**
   * The snapshot-first order of the on-prem providers, on a concrete run: a client built for
   * alice with password "old"; the password is changed to "new" and the rebuild throws; the
   * next call then serves the client built with "old". The corrected order rebuilds instead.
   */
  lemma SnapshotFirstKeepsOldPassword(error: string)
    ensures var normalise := (s: NString) => s;
            var policy := CredentialPolicy(normalise);
            var before := OnPremCredentials(Some("alice"), Some("old"));
            var live := OnPremCredentials(Some("alice"), Some("new"));
            var slot := Slot(Some(Handle(before)), Some(NetworkCredential(Some("alice"), Some("old"))));
            var first := GetClientSnapshotFirst(slot, live, policy, Some(error));
            var second := GetClientSnapshotFirst(first.slot, live, policy, None);
            var fixedFirst := GetClient(slot, live, policy, Some(error));
            var fixedSecond := GetClient(fixedFirst.slot, live, policy, None);
            && second.result == Success(Handle(before))
            && second.result.value.builtWith.password != live.password
            && fixedSecond.result == Success(Handle(live))
  {
    var normalise := (s: NString) => s;
    var policy := CredentialPolicy(normalise);
    var before := OnPremCredentials(Some("alice"), Some("old"));
    var live := OnPremCredentials(Some("alice"), Some("new"));
    var slot := Slot(Some(Handle(before)), Some(NetworkCredential(Some("alice"), Some("old"))));
    assert "old" != "new" by { assert "old"[0] != "new"[0]; }
    SnapshotFirstServesStaleClient(slot, live, policy, error);
  }
}
