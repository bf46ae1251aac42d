/**
 * The two GitHub providers: pull requests as work items and commits as changesets, read
 * from the repository named by an `organization/repository` server identifier. Each holds
 * one client with a snapshot of the token its credentials were made from.
 */
module GitHub {
  import opened Wrappers
  import opened Text
  import opened Numbers
  import opened Identifiers
  import opened ClientCache

  /** The live `GitHubToken` setting, and also the snapshot: `Credentials.Password` is the token. */
  type Token = NString

  type GitHubSlot = Slot<Token, Token>

  /** The reuse rule: the stored token equals the live one. */
  function TokenPolicy(): Policy<Token, Token> {
    Policy((t: Token) => t, (s: Token, t: Token) => s == t)
  }

  /** What the lookups return: a pull request or a commit, with its page address and its title. */
  datatype GitHubRecord = GitHubRecord(htmlUrl: NString, title: NString)

  /**
   * The remote side: client construction for an organization and token (answering the
   * exception it throws, if any), and the lookup `(client, organization, repository, id)`.
   */
  datatype GitHubConnection<!Q> = GitHubConnection(
    connect: (NString, Token) -> Option<string>,
    lookup: (Handle<Token>, NString, string, Q) -> Result<GitHubRecord, string>)

  /**
   * Reuse or build the client for the repository `serverName` names, then run the lookup
   * for `id`. `GetClient()` runs first; a null identifier then throws while `Org` is read.
   */
  function LookupWith<Q>(slot: GitHubSlot, serverName: NString, live: Token, conn: GitHubConnection<Q>, id: Q)
    : Call<Token, Token, GitHubRecord>
  {
    var buildError := if serverName.None? then Some(NullReferenceMessage) else conn.connect(GitHubOrg(serverName.value), live);
    var f := GetClient(slot, live, TokenPolicy(), buildError);
    match f.result
    case Failure(e) => Call(f.slot, Failure(e))
    case Success(h) =>
      if serverName.None? then Call(f.slot, Failure(NullReferenceMessage))
      else Call(f.slot, conn.lookup(h, GitHubOrg(serverName.value), GitHubRepository(serverName.value), id))
  }

  /** Keep the slot, map the looked-up record. */
  function Project<T>(c: Call<Token, Token, GitHubRecord>, f: GitHubRecord -> T): Call<Token, Token, T> {
    Call(c.slot, match c.result case Success(v) => Success(f(v)) case Failure(e) => Failure(e))
  }

  // ----- GitHubWorkItemServer -----

  const PullRequestIdMessage: string := "GitHub work item IDs must be integers."

  /**
   * `GetPullRequest(workItemId)`: an id that is not a 32-bit integer is rejected before the
   * client is touched; otherwise the pull request is fetched, from the penultimate and last
   * `/` segments of the identifier, with a client built from the live token.
   */
  function GetPullRequest(slot: GitHubSlot, serverName: NString, workItemId: NString, live: Token,
                          conn: GitHubConnection<int>): (r: Call<Token, Token, GitHubRecord>)
    ensures TryParseInt32(workItemId).None? ==> r == Call(slot, Failure(PullRequestIdMessage))
    ensures Coherent(slot, TokenPolicy()) ==> Coherent(r.slot, TokenPolicy())
    ensures serverName.None? ==> r.slot == slot && r.result.Failure?
    ensures Coherent(slot, TokenPolicy()) && r.result.Success? ==>
              && serverName.Some? && TryParseInt32(workItemId).Some?
              && r.result == conn.lookup(Handle(live), GitHubOrg(serverName.value), GitHubRepository(serverName.value),
                                         TryParseInt32(workItemId).value)
  {
    match TryParseInt32(workItemId)
    case None => Call(slot, Failure(PullRequestIdMessage))
    case Some(n) => LookupWith(slot, serverName, live, conn, n)
  }

  /** `GetWorkItemUrl(workItemId)`: the pull request's `HtmlUrl`. */
  function GetWorkItemUrl(slot: GitHubSlot, serverName: NString, workItemId: NString, live: Token,
                          conn: GitHubConnection<int>): (r: Call<Token, Token, NString>)
    ensures var p := GetPullRequest(slot, serverName, workItemId, live, conn);
            && r.slot == p.slot
            && (p.result.Success? ==> r.result == Success(p.result.value.htmlUrl))
            && (p.result.Failure? ==> r.result == Failure(p.result.error))
  {
    Project(GetPullRequest(slot, serverName, workItemId, live, conn), (p: GitHubRecord) => p.htmlUrl)
  }

  /** `GetWorkItemTitle(workItemId)`: the pull request's `Title`. */
  function GetWorkItemTitle(slot: GitHubSlot, serverName: NString, workItemId: NString, live: Token,
                            conn: GitHubConnection<int>): (r: Call<Token, Token, NString>)
    ensures var p := GetPullRequest(slot, serverName, workItemId, live, conn);
            && r.slot == p.slot
            && (p.result.Success? ==> r.result == Success(p.result.value.title))
            && (p.result.Failure? ==> r.result == Failure(p.result.error))
  {
    Project(GetPullRequest(slot, serverName, workItemId, live, conn), (p: GitHubRecord) => p.title)
  }

  // ----- GitHubSourceControlServer -----

  /**
   * `GetChangesetUrl(changesetId)`: the commit's `HtmlUrl`; the id goes to the lookup as it
   * is, with no format check, so a numeric or letter-bearing id alike reaches GitHub.
   */
  function GetChangesetUrl(slot: GitHubSlot, serverName: NString, changesetId: NString, live: Token,
                           conn: GitHubConnection<NString>): (r: Call<Token, Token, NString>)
    ensures Coherent(slot, TokenPolicy()) ==> Coherent(r.slot, TokenPolicy())
    ensures serverName.None? ==> r.slot == slot && r.result.Failure?
    ensures Coherent(slot, TokenPolicy()) && serverName.Some? && conn.connect(GitHubOrg(serverName.value), live).None? ==>
              var c := conn.lookup(Handle(live), GitHubOrg(serverName.value), GitHubRepository(serverName.value), changesetId);
              && r.slot.snapshot == Some(live)
              && (c.Success? ==> r.result == Success(c.value.htmlUrl))
              && (c.Failure? ==> r.result == Failure(c.error))
  {
    Project(LookupWith(slot, serverName, live, conn, changesetId), (c: GitHubRecord) => c.htmlUrl)
  }

  // ----- laws of the token snapshot -----

  /** For a slot holding a client, a call rebuilds iff the token the client was made from differs from the live token. */
  lemma RebuildIffTokenChanged(slot: GitHubSlot, live: Token, e: Option<string>)
    requires Coherent(slot, TokenPolicy()) && slot.client.Some?
    ensures GetClient(slot, live, TokenPolicy(), e).built <==> slot.client.value.builtWith != live
  {
    RebuildIffChanged(slot, live, TokenPolicy(), e);
  }

  /** After a call that yields a client, the snapshot is the live token and a second call builds nothing. */
  lemma TokenSnapshotSettles(slot: GitHubSlot, live: Token, e1: Option<string>, e2: Option<string>)
    requires Coherent(slot, TokenPolicy())
    requires GetClient(slot, live, TokenPolicy(), e1).result.Success?
    ensures var first := GetClient(slot, live, TokenPolicy(), e1);
            && first.slot.snapshot == Some(live)
            && !GetClient(first.slot, live, TokenPolicy(), e2).built
  {
    SecondCallReuses(slot, live, TokenPolicy(), e1, e2);
  }
}
