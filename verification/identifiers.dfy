/**
 * Parsing of item ids and server identifiers: the changeset field split on `,`/`;`,
 * the letter/number classification of each id, the two decompositions of an on-prem
 * Git identifier `server|project|repository`, and the `organization/repository`
 * identifier of a GitHub server.
 */
module Identifiers {
  import opened Wrappers
  import opened Text
  import opened Numbers

  /** The characters that separate several ids packed into one changeset field. */
  const ChangesetSeparators: set<char> := {',', ';'}

  /** `changeset.Split(new[] {",", ";"}, StringSplitOptions.RemoveEmptyEntries)`. */
  function ChangesetPieces(field: string): (pieces: seq<string>)
    ensures forall i :: 0 <= i < |pieces| ==> |pieces[i]| > 0 && NoneOf(pieces[i], ChangesetSeparators)
  {
    SplitRemoveEmpty(field, ChangesetSeparators)
  }

  /**
   * A changeset field reads back the ids it was written from: non-empty ids free of `,` and
   * `;`, kept apart by runs of those separators and with any such run before or after them,
   * come back exactly and in order.
   */
  lemma ChangesetPiecesRoundTrip(lead: string, ids: seq<string>, gaps: seq<string>, trail: string)
    requires |ids| >= 1 && |gaps| == |ids| - 1
    requires forall i :: 0 <= i < |ids| ==> |ids[i]| > 0 && NoneOf(ids[i], ChangesetSeparators)
    requires forall i :: 0 <= i < |gaps| ==> |gaps[i]| > 0 && OnlyOf(gaps[i], ChangesetSeparators)
    requires OnlyOf(lead, ChangesetSeparators) && OnlyOf(trail, ChangesetSeparators)
    ensures ChangesetPieces(lead + Weave(ids, gaps) + trail) == ids
  {
    SplitRemoveEmptyWeave(lead, ids, gaps, trail, ChangesetSeparators);
  }

  /** The server, project and repository an on-prem Git commit lookup needs. */
  datatype GitRepository = GitRepository(server: string, project: string, repository: string)

  /**
   * `serverName.Split("|", StringSplitOptions.RemoveEmptyEntries)` accepted only when it
   * yields exactly three parts; commit lookups use this form.
   */
  function GitServerParts(serverName: string): (r: Option<GitRepository>)
    ensures r.Some? <==> |SplitRemoveEmpty(serverName, {'|'})| == 3
    ensures r.Some? ==> |r.value.server| > 0 && |r.value.project| > 0 && |r.value.repository| > 0
    ensures r.Some? ==> NoneOf(r.value.server, {'|'}) && NoneOf(r.value.project, {'|'}) && NoneOf(r.value.repository, {'|'})
  {
    var parts := SplitRemoveEmpty(serverName, {'|'});
    if |parts| == 3 then Some(GitRepository(parts[0], parts[1], parts[2])) else None
  }

  /** Which lookup, if any, an id from a changeset field leads to. */
  datatype Route =
    | CommitRoute(repo: GitRepository, commitId: string)
    | ChangesetRoute(changesetId: int)
    | NoRoute

  /**
   * Classify one id against a source-control server: an id holding a letter is a Git
   * commit and needs a three-part server identifier; any other id is a TFVC changeset
   * and must parse as a 32-bit integer. Splitting a null server identifier throws.
   */
  function RouteId(serverName: NString, id: string): (r: Result<Route, string>)
    ensures r.Failure? <==> HasLetter(id) && serverName.None?
    ensures r.Success? && r.value.CommitRoute? <==>
              HasLetter(id) && serverName.Some? && GitServerParts(serverName.value).Some?
    ensures r.Success? && r.value.CommitRoute? ==>
              r.value.commitId == id && Some(r.value.repo) == GitServerParts(serverName.value)
    ensures r.Success? && r.value.ChangesetRoute? <==> TryParseInt32(Some(id)).Some?
    ensures r.Success? && r.value.ChangesetRoute? ==>
              !HasLetter(id) && TryParseInt32(Some(id)) == Some(r.value.changesetId)
  {
    if HasLetter(id) then
      ParseRejectsLetters(id);
      if serverName.None? then Failure(NullReferenceMessage)
      else
        match GitServerParts(serverName.value)
        case Some(g) => Success(CommitRoute(g, id))
        case None => Success(NoRoute)
    else
      match TryParseInt32(Some(id))
      case Some(n) => Success(ChangesetRoute(n))
      case None => Success(NoRoute)
  }

  /** The two lookup kinds exclude each other: no id both holds a letter and parses as an integer. */
  lemma CommitAndChangesetExclusive(id: string)
    ensures !(HasLetter(id) && TryParseInt32(Some(id)).Some?)
  {
    if HasLetter(id) {
      ParseRejectsLetters(id);
    }
  }

  /** Three non-empty, bar-free names joined with `|` decompose back into those names. */
  lemma GitServerPartsRoundTrip(server: string, project: string, repository: string)
    requires |server| > 0 && |project| > 0 && |repository| > 0
    requires NoneOf(server, {'|'}) && NoneOf(project, {'|'}) && NoneOf(repository, {'|'})
    ensures GitServerParts(server + "|" + project + "|" + repository)
            == Some(GitRepository(server, project, repository))
  {
    var parts := [server, project, repository];
    assert Join(parts, '|') == server + "|" + project + "|" + repository by {
      assert Join(parts[2..], '|') == repository;
      assert Join(parts[1..], '|') == project + "|" + repository;
    }
    var name := server + "|" + project + "|" + repository;
    SplitJoin(parts, '|');
    assert Split(name, {'|'}) == parts;
    assert RemoveEmpty(parts) == parts by {
      assert RemoveEmpty(parts[3..]) == [];
      assert parts[2..][1..] == parts[3..];
      assert RemoveEmpty(parts[2..]) == [repository] + RemoveEmpty(parts[3..]);
      assert parts[1..][1..] == parts[2..];
      assert RemoveEmpty(parts[1..]) == [project] + RemoveEmpty(parts[2..]);
      assert RemoveEmpty(parts) == [server] + RemoveEmpty(parts[1..]);
    }
  }

  /** Two names joined with `|` are not a commit-capable identifier: a third part is required. */
  lemma TwoPartsAreNotGitRepository(server: string, project: string)
    requires |server| > 0 && |project| > 0
    requires NoneOf(server, {'|'}) && NoneOf(project, {'|'})
    ensures GitServerParts(server + "|" + project).None?
  {
    var parts := [server, project];
    assert Join(parts, '|') == server + "|" + project by {
      assert Join(parts[1..], '|') == project;
    }
    SplitJoin(parts, '|');
    assert RemoveEmpty(parts) == parts by {
      assert RemoveEmpty(parts[2..]) == [];
      assert parts[1..][1..] == parts[2..];
      assert RemoveEmpty(parts[1..]) == [project] + RemoveEmpty(parts[2..]);
      assert RemoveEmpty(parts) == [server] + RemoveEmpty(parts[1..]);
    }
  }

  /** `parts.Skip(n).FirstOrDefault()`. */
  function ElementAtOrDefault(parts: seq<string>, n: nat): (r: NString)
    ensures r.Some? <==> n < |parts|
    ensures r.Some? ==> r.value == parts[n]
  {
    if n < |parts| then Some(parts[n]) else None
  }

  /** The first `|` segment of an on-prem Git identifier: the address the client connects to. */
  function ActualServerName(serverName: string): (r: string)
    ensures NoneOf(r, {'|'})
    ensures |r| <= |serverName| && r == serverName[..|r|]
    ensures |r| < |serverName| ==> serverName[|r|] == '|'
  {
    SplitFirstPiece(serverName, {'|'});
    Split(serverName, {'|'})[0]
  }

  /** The second `|` segment, or null when there is none. */
  function ProjectName(serverName: string): (r: NString)
    ensures r.None? <==> NoneOf(serverName, {'|'})
    ensures r.Some? ==> NoneOf(r.value, {'|'})
  {
    SplitSingle(serverName, {'|'});
    ElementAtOrDefault(Split(serverName, {'|'}), 1)
  }

  /** The third `|` segment, or null when there is none. */
  function RepoName(serverName: string): (r: NString)
    ensures r.Some? ==> NoneOf(r.value, {'|'}) && ProjectName(serverName).Some?
  {
    ElementAtOrDefault(Split(serverName, {'|'}), 2)
  }

  /**
   * The positional decomposition reads back the segments an identifier was joined from:
   * the first is the server, the next two (when present) the project and repository,
   * and any further segments are ignored. Empty segments are kept, unlike `GitServerParts`.
   */
  lemma {:induction false} PositionalDecomposition(parts: seq<string>)
    requires |parts| >= 1
    requires forall i :: 0 <= i < |parts| ==> NoneOf(parts[i], {'|'})
    ensures ActualServerName(Join(parts, '|')) == parts[0]
    ensures ProjectName(Join(parts, '|')) == (if |parts| > 1 then Some(parts[1]) else None)
    ensures RepoName(Join(parts, '|')) == (if |parts| > 2 then Some(parts[2]) else None)
  {
    SplitJoin(parts, '|');
  }

  /** Round trip for the usual three-segment identifier. */
  lemma PositionalRoundTrip(server: string, project: string, repository: string)
    requires NoneOf(server, {'|'}) && NoneOf(project, {'|'}) && NoneOf(repository, {'|'})
    ensures ActualServerName(server + "|" + project + "|" + repository) == server
    ensures ProjectName(server + "|" + project + "|" + repository) == Some(project)
    ensures RepoName(server + "|" + project + "|" + repository) == Some(repository)
  {
    var parts := [server, project, repository];
    assert Join(parts, '|') == server + "|" + project + "|" + repository by {
      assert Join(parts[2..], '|') == repository;
      assert Join(parts[1..], '|') == project + "|" + repository;
    }
    PositionalDecomposition(parts);
  }

  /** `serverName.Split('/').LastOrDefault()`: the repository of a GitHub identifier. */
  function GitHubRepository(serverName: string): (r: string)
    ensures NoneOf(r, {'/'})
    ensures |r| <= |serverName| && r == serverName[|serverName| - |r|..]
    ensures |r| < |serverName| ==> serverName[|serverName| - |r| - 1] == '/'
  {
    SplitLastPiece(serverName, {'/'});
    var parts := Split(serverName, {'/'});
    parts[|parts| - 1]
  }

  /** `serverName.Split('/').Reverse().Skip(1).FirstOrDefault()`: the penultimate segment, or null. */
  function GitHubOrg(serverName: string): (r: NString)
    ensures r.None? <==> NoneOf(serverName, {'/'})
    ensures r.Some? ==> NoneOf(r.value, {'/'})
  {
    SplitSingle(serverName, {'/'});
    var parts := Split(serverName, {'/'});
    if |parts| >= 2 then Some(parts[|parts| - 2]) else None
  }

  /** The GitHub identifier reads back as its last and penultimate `/` segments. */
  lemma {:induction false} GitHubDecomposition(parts: seq<string>)
    requires |parts| >= 1
    requires forall i :: 0 <= i < |parts| ==> NoneOf(parts[i], {'/'})
    ensures GitHubRepository(Join(parts, '/')) == parts[|parts| - 1]
    ensures GitHubOrg(Join(parts, '/')) == (if |parts| >= 2 then Some(parts[|parts| - 2]) else None)
  {
    var name := Join(parts, '/');
    SplitJoin(parts, '/');
    var split := Split(name, {'/'});
    assert split == parts;
    assert GitHubRepository(name) == split[|split| - 1];
    assert GitHubOrg(name) == (if |split| >= 2 then Some(split[|split| - 2]) else None);
  }

  /** `org/repo` names organization `org` and repository `repo`; a name without `/` has no organization. */
  lemma GitHubOrgRepository(org: string, repo: string)
    requires NoneOf(org, {'/'}) && NoneOf(repo, {'/'})
    ensures GitHubOrg(org + "/" + repo) == Some(org) && GitHubRepository(org + "/" + repo) == repo
    ensures GitHubOrg(repo) == None && GitHubRepository(repo) == repo
  {
    assert Join([org, repo], '/') == org + "/" + repo;
    GitHubDecomposition([org, repo]);
    GitHubDecomposition([repo]);
  }
}
