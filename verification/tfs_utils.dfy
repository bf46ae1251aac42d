/**
 * The process-wide TFS client cache: clients keyed by (server, client type), a set of
 * servers that once failed to connect and are never tried again, the choice of
 * credentials per server, and the URL lookups built on top of it.
 * Client construction and the remote lookups are oracles supplied by the caller.
 */
module TfsUtils {
  import opened Wrappers
  import opened Text
  import opened Numbers
  import opened Identifiers
  import opened Remote

  /** The three kinds of HTTP client the cache holds. */
  datatype ClientType = WorkItemTrackingClient | TfvcClient | GitClient

  /** The cache key. */
  datatype ServerClientTypePair = ServerClientTypePair(serverName: NString, clientType: ClientType)

  /**
   * `ServerClientTypePair.Equals(object)`: another pair with the same server name and
   * client type; never equal to null. So a datatype key identifies the same entries.
   */
  function PairEquals(self: ServerClientTypePair, obj: Option<ServerClientTypePair>): (r: bool)
    ensures r <==> obj == Some(self)
  {
    obj.Some? && self.serverName == obj.value.serverName && self.clientType == obj.value.clientType
  }

  /** The credentials a connection is opened with. */
  datatype VssCredentials =
    | BasicTokenCredential(user: string, token: NString)
    | WindowsCredential(username: NString, password: NString)

  /** The configured TFS user name, password and personal access token. */
  datatype TfsSettings = TfsSettings(username: NString, password: NString, token: NString)

  /** The host of the cloud service, which only accepts a personal access token. */
  const CloudHost: string := "dev.azure.com"

  lemma CloudHostIsLowerCase()
    ensures Lower(CloudHost) == CloudHost
  {
    assert forall i :: 0 <= i < |CloudHost| ==> LowerChar(CloudHost[i]) == CloudHost[i];
  }

  /**
   * A server whose name mentions the cloud host, in any letter case, gets token-only
   * basic credentials with an empty user; every other server gets the user name and password.
   */
  function GetCredentialsForServer(serverName: string, settings: TfsSettings): (c: VssCredentials)
    ensures c.BasicTokenCredential? <==> ContainsIgnoreCase(serverName, CloudHost)
    ensures c.BasicTokenCredential? ==> c.user == "" && c.token == settings.token
    ensures c.WindowsCredential? ==> c.username == settings.username && c.password == settings.password
  {
    CloudHostIsLowerCase();
    if Contains(Lower(serverName), CloudHost) then BasicTokenCredential("", settings.token)
    else WindowsCredential(settings.username, settings.password)
  }

  /** A constructed client and what it was constructed with. */
  datatype TfsClient = TfsClient(serverName: string, clientType: ClientType, credentials: VssCredentials)

  /** `_failedToConnect` and `_tfsClients`. */
  datatype TfsCache = TfsCache(failedToConnect: set<NString>, clients: map<ServerClientTypePair, TfsClient>)

  /** Every cached client sits under the key of its own server and type. */
  predicate Coherent(cache: TfsCache) {
    forall k :: k in cache.clients ==>
      k.serverName == Some(cache.clients[k].serverName) && k.clientType == cache.clients[k].clientType
  }

  /** The cache is only ever extended: failed servers stay failed and cached clients stay cached. */
  predicate Extends(later: TfsCache, earlier: TfsCache) {
    && earlier.failedToConnect <= later.failedToConnect
    && (forall k :: k in earlier.clients ==> k in later.clients && later.clients[k] == earlier.clients[k])
  }

  /**
   * The remote side: `connect` stands for `new Uri`, `new VssConnection` and `GetClient<T>()`
   * and answers `None` on success or the message of the exception; the three lookups answer
   * a record, null (`None`), or the message of an exception.
   */
  datatype TfsServices = TfsServices(
    settings: TfsSettings,
    connect: (string, ClientType, VssCredentials) -> Option<string>,
    workItems: (TfsClient, int) -> Result<Option<TfsRecord>, string>,
    changesets: (TfsClient, int) -> Result<Option<TfsRecord>, string>,
    commits: (TfsClient, string, string, string) -> Result<Option<TfsRecord>, string>)

  /** The cache after an operation, and what the operation returned or threw. */
  datatype Step<T> = Step(cache: TfsCache, result: Result<T, string>)

  /**
   * `Initialize<T>(serverName)`: a server that failed before yields null; a cache hit
   * yields the cached client whatever the credentials are now; a miss builds a client and
   * caches it, or records the server as failed and rethrows.
   */
  function Initialize(cache: TfsCache, serverName: NString, clientType: ClientType, services: TfsServices)
    : (r: Step<Option<TfsClient>>)
    ensures Extends(r.cache, cache)
    ensures Coherent(cache) ==> Coherent(r.cache)
    ensures serverName in cache.failedToConnect ==> r == Step(cache, Success(None))
    ensures serverName !in cache.failedToConnect && ServerClientTypePair(serverName, clientType) in cache.clients ==>
              r == Step(cache, Success(Some(cache.clients[ServerClientTypePair(serverName, clientType)])))
    ensures r.result.Success? && r.result.value.Some? ==>
              && ServerClientTypePair(serverName, clientType) in r.cache.clients
              && r.cache.clients[ServerClientTypePair(serverName, clientType)] == r.result.value.value
    ensures Coherent(cache) && r.result.Success? && r.result.value.Some? ==>
              serverName == Some(r.result.value.value.serverName) && r.result.value.value.clientType == clientType
    ensures r.result.Failure? <==>
              && serverName !in cache.failedToConnect
              && ServerClientTypePair(serverName, clientType) !in cache.clients
              && (serverName.None? ||
                  services.connect(serverName.value, clientType,
                                   GetCredentialsForServer(serverName.value, services.settings)).Some?)
    ensures r.result.Failure? ==> r.cache == cache.(failedToConnect := cache.failedToConnect + {serverName})
  {
    var key := ServerClientTypePair(serverName, clientType);
    if serverName in cache.failedToConnect then
      Step(cache, Success(None))
    else if key in cache.clients then
      Step(cache, Success(Some(cache.clients[key])))
    else if serverName.None? then
      Step(cache.(failedToConnect := cache.failedToConnect + {serverName}), Failure(NullReferenceMessage))
    else
      var credentials := GetCredentialsForServer(serverName.value, services.settings);
      match services.connect(serverName.value, clientType, credentials)
      case Some(error) =>
        Step(cache.(failedToConnect := cache.failedToConnect + {serverName}), Failure(error))
      case None =>
        var client := TfsClient(serverName.value, clientType, credentials);
        Step(cache.(clients := cache.clients[key := client]), Success(Some(client)))
  }

  /** A successful miss builds the client with the credentials chosen for that server at that moment. */
  lemma MissBuildsWithCurrentCredentials(cache: TfsCache, serverName: string, clientType: ClientType, services: TfsServices)
    requires Some(serverName) !in cache.failedToConnect
    requires ServerClientTypePair(Some(serverName), clientType) !in cache.clients
    requires Initialize(cache, Some(serverName), clientType, services).result.Success?
    ensures Initialize(cache, Some(serverName), clientType, services).result
            == Success(Some(TfsClient(serverName, clientType, GetCredentialsForServer(serverName, services.settings))))
  {
  }

  /**
   * A second request for the same server and type is served from the cache: it returns the
   * client the first request built, with the first request's credentials, whatever the
   * credential settings are by then, and it changes nothing.
   */
  lemma SecondRequestIsCacheHit(cache: TfsCache, serverName: NString, clientType: ClientType,
                                first: TfsServices, second: TfsServices)
    requires Initialize(cache, serverName, clientType, first).result.Success?
    ensures var one := Initialize(cache, serverName, clientType, first);
            var two := Initialize(one.cache, serverName, clientType, second);
            two == Step(one.cache, one.result)
  {
  }

  /** A sequence of `Initialize` calls against one cache. */
  datatype Request = Request(serverName: NString, clientType: ClientType, services: TfsServices)

  /** The cache after the requests, and each request's outcome in order. */
  function Run(cache: TfsCache, requests: seq<Request>): (r: (TfsCache, seq<Result<Option<TfsClient>, string>>))
    ensures |r.1| == |requests|
    ensures Extends(r.0, cache)
    decreases |requests|
  {
    if |requests| == 0 then (cache, [])
    else
      var step := Initialize(cache, requests[0].serverName, requests[0].clientType, requests[0].services);
      var rest := Run(step.cache, requests[1..]);
      (rest.0, [step.result] + rest.1)
  }

  /**
   * A server that failed to connect is disabled for good: every later request naming it,
   * for any client type and with any credentials, yields a null client and builds nothing.
   */
  lemma {:induction false} FailedServerStaysDisabled(cache: TfsCache, requests: seq<Request>, serverName: NString)
    requires serverName in cache.failedToConnect
    ensures forall i :: 0 <= i < |requests| && requests[i].serverName == serverName ==>
              Run(cache, requests).1[i] == Success(None)
    decreases |requests|
  {
    if |requests| > 0 {
      var step := Initialize(cache, requests[0].serverName, requests[0].clientType, requests[0].services);
      FailedServerStaysDisabled(step.cache, requests[1..], serverName);
      forall i | 0 <= i < |requests| && requests[i].serverName == serverName
        ensures Run(cache, requests).1[i] == Success(None)
      {
        if i > 0 {
          assert requests[1..][i - 1] == requests[i];
        }
      }
    }
  }

  /** A construction failure disables the server for every later request, whatever its client type. */
  lemma FailureDisablesServer(cache: TfsCache, first: Request, later: seq<Request>)
    requires Initialize(cache, first.serverName, first.clientType, first.services).result.Failure?
    ensures forall i :: 0 <= i < |later| && later[i].serverName == first.serverName ==>
              Run(cache, [first] + later).1[i + 1] == Success(None)
  {
    var step := Initialize(cache, first.serverName, first.clientType, first.services);
    assert ([first] + later)[1..] == later;
    FailedServerStaysDisabled(step.cache, later, first.serverName);
  }

  /** "Unable to access {what} ID {id} on server {serverName}.": a null server name adds nothing. */
  function UnableToAccess(what: string, id: string, serverName: NString): (r: string)
    ensures |r| == 33 + |what| + |id| + |OrEmpty(serverName)|
    ensures r[..17] == "Unable to access "
    ensures OccursAt(r, what, 17) && OccursAt(r, id, 17 + |what| + 4)
    ensures OccursAt(r, OrEmpty(serverName), |r| - 1 - |OrEmpty(serverName)|) && r[|r| - 1] == '.'
  {
    "Unable to access " + what + " ID " + id + " on server " + OrEmpty(serverName) + "."
  }

  /**
   * What a URL lookup gives for a looked-up record: an exception from the lookup passes
   * through; otherwise the address under `rel`, or `message` thrown when the record is
   * null or has no reference link under `rel`. The cache is the lookup's.
   */
  predicate ResolvedFrom(r: Step<string>, step: Step<Option<TfsRecord>>, rel: string, message: string) {
    && r.cache == step.cache
    && (step.result.Failure? ==> r.result == Failure(step.result.error))
    && (step.result.Success? && LinkHref(step.result.value, rel).Some? ==>
          r.result == Success(LinkHref(step.result.value, rel).value))
    && (step.result.Success? && LinkHref(step.result.value, rel).None? ==> r.result == Failure(message))
  }

  /**
   * The address under link relation `rel` of a looked-up record; a null record or a missing
   * or non-reference link throws `message`, and an exception from the lookup passes through.
   */
  function ResolveLink(step: Step<Option<TfsRecord>>, rel: string, message: string): (r: Step<string>)
    ensures ResolvedFrom(r, step, rel, message)
  {
    Step(step.cache, LinkOrThrow(step.result, rel, message))
  }

  /** Run a lookup with the client `Initialize` hands out; a null client means a null record. */
  function WithClient(init: Step<Option<TfsClient>>, lookup: TfsClient -> Result<Option<TfsRecord>, string>)
    : (r: Step<Option<TfsRecord>>)
    ensures r.cache == init.cache
    ensures init.result.Failure? ==> r.result == Failure(init.result.error)
    ensures init.result == Success(None) ==> r.result == Success(None)
    ensures init.result.Success? && init.result.value.Some? ==> r.result == lookup(init.result.value.value)
  {
    match init.result
    case Failure(e) => Step(init.cache, Failure(e))
    case Success(None) => Step(init.cache, Success(None))
    case Success(Some(client)) => Step(init.cache, lookup(client))
  }

  /**
   * What a lookup through the cache gives: the cache only grows and stays coherent; a
   * disabled server gives a null record without any lookup; a cached client is asked
   * directly; a construction failure is thrown; and any record comes from asking a client
   * of this server and type.
   */
  ghost predicate LookedUp(r: Step<Option<TfsRecord>>, cache: TfsCache, serverName: NString, clientType: ClientType,
                     services: TfsServices, lookup: TfsClient -> Result<Option<TfsRecord>, string>) {
    var key := ServerClientTypePair(serverName, clientType);
    && Extends(r.cache, cache)
    && (Coherent(cache) ==> Coherent(r.cache))
    && (serverName in cache.failedToConnect ==> r == Step(cache, Success(None)))
    && (serverName !in cache.failedToConnect && key in cache.clients ==> r == Step(cache, lookup(cache.clients[key])))
    && (Initialize(cache, serverName, clientType, services).result.Failure? ==>
          r == Step(cache.(failedToConnect := cache.failedToConnect + {serverName}),
                    Failure(Initialize(cache, serverName, clientType, services).result.error)))
    && (Coherent(cache) && r.result.Success? && r.result.value.Some? ==>
          exists c: TfsClient :: Some(c.serverName) == serverName && c.clientType == clientType && r.result == lookup(c))
  }

  /** The lookup behind every `Get…` call: `Initialize`, then ask the client it hands out. */
  function LookUp(cache: TfsCache, serverName: NString, clientType: ClientType, services: TfsServices,
                  lookup: TfsClient -> Result<Option<TfsRecord>, string>): (r: Step<Option<TfsRecord>>)
    ensures LookedUp(r, cache, serverName, clientType, services, lookup)
  {
    var init := Initialize(cache, serverName, clientType, services);
    var r := WithClient(init, lookup);
    assert init.result.Success? && init.result.value.Some? ==> r.result == lookup(init.result.value.value);
    r
  }

  /** `GetWorkItem(serverName, workItemId)`. */
  function GetWorkItem(cache: TfsCache, serverName: NString, workItemId: int, services: TfsServices)
    : (r: Step<Option<TfsRecord>>)
    ensures LookedUp(r, cache, serverName, WorkItemTrackingClient, services, client => services.workItems(client, workItemId))
  {
    LookUp(cache, serverName, WorkItemTrackingClient, services, client => services.workItems(client, workItemId))
  }

  /** `GetWorkItemUrl(serverName, workItemId)`: the record's "html" reference link. */
  function GetWorkItemUrl(cache: TfsCache, serverName: NString, workItemId: int, services: TfsServices): (r: Step<string>)
    ensures ResolvedFrom(r, GetWorkItem(cache, serverName, workItemId, services), HtmlRel,
                         UnableToAccess("work item", FormatInt(workItemId), serverName))
  {
    ResolveLink(GetWorkItem(cache, serverName, workItemId, services), HtmlRel,
                UnableToAccess("work item", FormatInt(workItemId), serverName))
  }

  /** `GetChangeset(serverName, changesetId)`. */
  function GetChangeset(cache: TfsCache, serverName: NString, changesetId: int, services: TfsServices)
    : (r: Step<Option<TfsRecord>>)
    ensures LookedUp(r, cache, serverName, TfvcClient, services, client => services.changesets(client, changesetId))
  {
    LookUp(cache, serverName, TfvcClient, services, client => services.changesets(client, changesetId))
  }

  /** `GetChangesetUrl(serverName, changesetId)`: the changeset's "web" reference link. */
  function GetChangesetUrl(cache: TfsCache, serverName: NString, changesetId: int, services: TfsServices): (r: Step<string>)
    ensures ResolvedFrom(r, GetChangeset(cache, serverName, changesetId, services), WebRel,
                         UnableToAccess("changeset", FormatInt(changesetId), serverName))
  {
    ResolveLink(GetChangeset(cache, serverName, changesetId, services), WebRel,
                UnableToAccess("changeset", FormatInt(changesetId), serverName))
  }

  /** `GetCommit(serverName, projectName, repositoryName, commitId)`: a Git client on `serverName`. */
  function GetCommit(cache: TfsCache, repo: GitRepository, commitId: string, services: TfsServices)
    : (r: Step<Option<TfsRecord>>)
    ensures LookedUp(r, cache, Some(repo.server), GitClient, services,
                     client => services.commits(client, repo.project, commitId, repo.repository))
  {
    LookUp(cache, Some(repo.server), GitClient, services,
           client => services.commits(client, repo.project, commitId, repo.repository))
  }

  /** `GetCommitUrl(...)`: the commit's "web" reference link. */
  function GetCommitUrl(cache: TfsCache, repo: GitRepository, commitId: string, services: TfsServices): (r: Step<string>)
    ensures ResolvedFrom(r, GetCommit(cache, repo, commitId, services), WebRel,
                         UnableToAccess("commit", commitId, Some(repo.server)))
  {
    ResolveLink(GetCommit(cache, repo, commitId, services), WebRel,
                UnableToAccess("commit", commitId, Some(repo.server)))
  }

  /**
   * `GetChangesetOrCommitUrl(serverName, id)`: a commit lookup against the first part of a
   * three-part identifier for an id with a letter, a changeset lookup for an id that parses
   * as an integer, and otherwise the "commit or changeset" error without any lookup.
   */
  function GetChangesetOrCommitUrl(cache: TfsCache, serverName: NString, id: string, services: TfsServices): (r: Step<string>)
    ensures HasLetter(id) && serverName.Some? && GitServerParts(serverName.value).Some? ==>
              r == GetCommitUrl(cache, GitServerParts(serverName.value).value, id, services)
    ensures TryParseInt32(Some(id)).Some? ==>
              r == GetChangesetUrl(cache, serverName, TryParseInt32(Some(id)).value, services)
    ensures HasLetter(id) && serverName.None? ==> r == Step(cache, Failure(NullReferenceMessage))
    ensures (HasLetter(id) && serverName.Some? && GitServerParts(serverName.value).None?)
            || (!HasLetter(id) && TryParseInt32(Some(id)).None?) ==>
              r == Step(cache, Failure(UnableToAccess("commit or changeset", id, serverName)))
  {
    match RouteId(serverName, id)
    case Failure(e) => Step(cache, Failure(e))
    case Success(CommitRoute(repo, commitId)) => GetCommitUrl(cache, repo, commitId, services)
    case Success(ChangesetRoute(n)) => GetChangesetUrl(cache, serverName, n, services)
    case Success(NoRoute) => Step(cache, Failure(UnableToAccess("commit or changeset", id, serverName)))
  }

  /** A disabled server gives no URL: its null client turns into the "Unable to access" error, and nothing is cached. */
  lemma DisabledServerHasNoUrl(cache: TfsCache, serverName: NString, workItemId: int, changesetId: int, services: TfsServices)
    requires serverName in cache.failedToConnect
    ensures GetWorkItemUrl(cache, serverName, workItemId, services)
            == Step(cache, Failure(UnableToAccess("work item", FormatInt(workItemId), serverName)))
    ensures GetChangesetUrl(cache, serverName, changesetId, services)
            == Step(cache, Failure(UnableToAccess("changeset", FormatInt(changesetId), serverName)))
  {
  }

  /** An on-prem Git identifier with only two parts cannot resolve a commit: the lookup is not attempted. */
  lemma TwoPartIdentifierRejectsCommit(cache: TfsCache, services: TfsServices)
    ensures GetChangesetOrCommitUrl(cache, Some("host|project"), "abc123", services)
            == Step(cache, Failure(UnableToAccess("commit or changeset", "abc123", Some("host|project"))))
  {
    assert IsLetter("abc123"[0]);
    TwoPartsAreNotGitRepository("host", "project");
    assert "host" + "|" + "project" == "host|project";
  }
}
