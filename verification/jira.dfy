/**
 * The Jira work-item provider: issues fetched by key, a browser address built from the
 * tracker's base address, and one client whose snapshot records only the password.
 */
module Jira {
  import opened Wrappers
  import opened Text
  import opened ClientCache

  /** The live `JiraUsername` and `JiraPassword` settings. */
  datatype JiraSettings = JiraSettings(username: NString, password: NString)

  /** The snapshot is the password alone (`_password`). */
  type JiraSlot = Slot<JiraSettings, NString>

  /** The reuse rule: the stored password equals the live one; the user name is not compared. */
  function PasswordPolicy(): Policy<JiraSettings, NString> {
    Policy((l: JiraSettings) => l.password, (s: NString, l: JiraSettings) => s == l.password)
  }

  /** An issue: the base address of the tracker it came from, its key and its summary. */
  datatype Issue = Issue(jiraUrl: NString, key: NString, summary: NString)

  /** The remote side: `Jira.CreateRestClient` (answering the exception it throws, if any) and `GetIssueAsync`. */
  datatype JiraConnection = JiraConnection(
    connect: (NString, JiraSettings) -> Option<string>,
    lookup: (Handle<JiraSettings>, NString) -> Result<Issue, string>)

  /** The path segment between the base address and the issue key. */
  const BrowsePath: string := "browse/"

  /**
   * `GetWorkItem(workItemId)`: the id goes to the tracker as it is, with no format check,
   * through a client whose password is the live one.
   */
  function GetIssue(slot: JiraSlot, serverName: NString, workItemId: NString, live: JiraSettings, conn: JiraConnection)
    : (r: Call<JiraSettings, NString, Issue>)
    ensures Coherent(slot, PasswordPolicy()) ==> Coherent(r.slot, PasswordPolicy())
    ensures Coherent(slot, PasswordPolicy()) && r.result.Success? ==>
              exists h: Handle<JiraSettings> :: h.builtWith.password == live.password && r.result == conn.lookup(h, workItemId)
  {
    var f := GetClient(slot, live, PasswordPolicy(), conn.connect(serverName, live));
    match f.result
    case Failure(e) => Call(f.slot, Failure(e))
    case Success(h) => Call(f.slot, conn.lookup(h, workItemId))
  }

  /**
   * `GetWorkItemUrl(workItemId)`: the tracker's base address, then "browse/", then the key
   * of the issue that came back (a null part contributes nothing).
   */
  function GetWorkItemUrl(slot: JiraSlot, serverName: NString, workItemId: NString, live: JiraSettings, conn: JiraConnection)
    : (r: Call<JiraSettings, NString, string>)
    ensures var g := GetIssue(slot, serverName, workItemId, live, conn);
            && r.slot == g.slot
            && (g.result.Failure? ==> r.result == Failure(g.result.error))
            && (g.result.Success? ==>
                  var base, key := OrEmpty(g.result.value.jiraUrl), OrEmpty(g.result.value.key);
                  && r.result.Success?
                  && |r.result.value| == |base| + |BrowsePath| + |key|
                  && r.result.value[..|base|] == base
                  && r.result.value[|base|..|base| + |BrowsePath|] == BrowsePath
                  && r.result.value[|base| + |BrowsePath|..] == key)
  {
    var g := GetIssue(slot, serverName, workItemId, live, conn);
    Call(g.slot, match g.result
                 case Success(issue) => Success(OrEmpty(issue.jiraUrl) + BrowsePath + OrEmpty(issue.key))
                 case Failure(e) => Failure(e))
  }

  /** `GetWorkItemTitle(workItemId)`: the issue's summary. */
  function GetWorkItemTitle(slot: JiraSlot, serverName: NString, workItemId: NString, live: JiraSettings, conn: JiraConnection)
    : (r: Call<JiraSettings, NString, NString>)
    ensures var g := GetIssue(slot, serverName, workItemId, live, conn);
            && r.slot == g.slot
            && (g.result.Success? ==> r.result == Success(g.result.value.summary))
            && (g.result.Failure? ==> r.result == Failure(g.result.error))
  {
    var g := GetIssue(slot, serverName, workItemId, live, conn);
    Call(g.slot, match g.result case Success(issue) => Success(issue.summary) case Failure(e) => Failure(e))
  }

  /** For a slot holding a client, a call rebuilds iff the password changed. */
  lemma RebuildIffPasswordChanged(slot: JiraSlot, live: JiraSettings, e: Option<string>)
    requires Coherent(slot, PasswordPolicy()) && slot.client.Some?
    ensures GetClient(slot, live, PasswordPolicy(), e).built <==> slot.client.value.builtWith.password != live.password
  {
    RebuildIffChanged(slot, live, PasswordPolicy(), e);
  }

  /**
   * A change of user name alone keeps the old client: it is returned, still logged in as
   * the previous user, and nothing is rebuilt.
   */
  lemma UsernameChangeKeepsClient(slot: JiraSlot, live: JiraSettings, e: Option<string>)
    requires Coherent(slot, PasswordPolicy()) && slot.client.Some?
    requires slot.client.value.builtWith.password == live.password
    ensures var f := GetClient(slot, live, PasswordPolicy(), e);
            !f.built && f.result == Success(slot.client.value) && f.slot == slot
  {
  }

  /** A call that yields a client leaves a snapshot under which the next call with the same settings reuses it. */
  lemma PasswordSnapshotSettles(slot: JiraSlot, live: JiraSettings, e1: Option<string>, e2: Option<string>)
    requires Coherent(slot, PasswordPolicy())
    requires GetClient(slot, live, PasswordPolicy(), e1).result.Success?
    ensures var first := GetClient(slot, live, PasswordPolicy(), e1);
            !GetClient(first.slot, live, PasswordPolicy(), e2).built
  {
    SecondCallReuses(slot, live, PasswordPolicy(), e1, e2);
  }
}
