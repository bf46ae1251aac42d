/**
 * What a merge target derives from the configuration: its effective servers (the override,
 * else the configured default), the server menus with the effective server marked, the
 * menu entries' `Select`, and the check-in note built from a template.
 */
module Targets {
  import opened Wrappers
  import opened Text
  import opened Entities

  /** `WorkItemServer`: the target's override when it has one, otherwise the configured default. */
  function EffectiveWorkItemServer(t: MergeTarget, config: Configuration): (r: NString)
    ensures t.workItemServer.Some? ==> r == t.workItemServer
    ensures t.workItemServer.None? ==> r == DefaultWorkItemServer(config)
  {
    if t.workItemServer.Some? then t.workItemServer else DefaultWorkItemServer(config)
  }

  /** `SourceControlServer`: the target's override when it has one, otherwise the configured default. */
  function EffectiveSourceControlServer(t: MergeTarget, config: Configuration): (r: NString)
    ensures t.sourceControlServer.Some? ==> r == t.sourceControlServer
    ensures t.sourceControlServer.None? ==> r == DefaultSourceControlServer(config)
  {
    if t.sourceControlServer.Some? then t.sourceControlServer else DefaultSourceControlServer(config)
  }

  /** A target without overrides uses the first configured server of each kind, or none when none is configured. */
  lemma NoOverrideUsesFirstConfigured(t: MergeTarget, config: Configuration)
    requires t.workItemServer.None? && t.sourceControlServer.None?
    ensures config.workItemServers.Some? && |config.workItemServers.value| > 0 ==>
              EffectiveWorkItemServer(t, config) == config.workItemServers.value[0]
    ensures config.workItemServers.None? || |config.workItemServers.value| == 0 ==>
              EffectiveWorkItemServer(t, config).None?
    ensures config.sourceControlServers.Some? && |config.sourceControlServers.value| > 0 ==>
              EffectiveSourceControlServer(t, config) == config.sourceControlServers.value[0]
    ensures config.sourceControlServers.None? || |config.sourceControlServers.value| == 0 ==>
              EffectiveSourceControlServer(t, config).None?
  {
  }

  /** Which menu an entry belongs to. */
  datatype ServerKind = WorkItemKind | SourceControlKind

  /** A menu entry: the server it names and whether it is the owner's current choice. */
  datatype ServerItem = ServerItem(kind: ServerKind, serverName: NString, isSelected: bool)

  /** `ServerItem.ToString()`: the server name. */
  function ServerItemText(item: ServerItem): (r: NString)
    ensures r == item.serverName
  {
    item.serverName
  }

  /**
   * Each entry of a target's menus reads as the configured server at its position, and
   * choosing an entry that names a server makes the server it reads as the effective one.
   */
  lemma MenuEntriesReadAsTheirServers(t: MergeTarget, config: Configuration)
    ensures var menu := WorkItemServerItems(t, config);
            menu.Some? ==> forall i :: 0 <= i < |menu.value| ==>
              && ServerItemText(menu.value[i]) == config.workItemServers.value[i]
              && (ServerItemText(menu.value[i]).Some? ==>
                    EffectiveWorkItemServer(Select(menu.value[i], t), config) == ServerItemText(menu.value[i]))
    ensures var menu := SourceControlServerItems(t, config);
            menu.Some? ==> forall i :: 0 <= i < |menu.value| ==>
              && ServerItemText(menu.value[i]) == config.sourceControlServers.value[i]
              && (ServerItemText(menu.value[i]).Some? ==>
                    EffectiveSourceControlServer(Select(menu.value[i], t), config) == ServerItemText(menu.value[i]))
  {
  }

  /** One entry per configured server, in order, marked iff it names `chosen`. */
  function Menu(kind: ServerKind, servers: seq<NString>, chosen: NString): (r: seq<ServerItem>)
    ensures |r| == |servers|
    ensures forall i :: 0 <= i < |r| ==>
              r[i].kind == kind && r[i].serverName == servers[i] && (r[i].isSelected <==> servers[i] == chosen)
  {
    seq(|servers|, i requires 0 <= i < |servers| => ServerItem(kind, servers[i], servers[i] == chosen))
  }

  /** `WorkItemServers`: the work-item menu of a target, null when no list is configured. */
  function WorkItemServerItems(t: MergeTarget, config: Configuration): (r: Option<seq<ServerItem>>)
    ensures r.Some? <==> config.workItemServers.Some?
    ensures r.Some? ==> |r.value| == |config.workItemServers.value|
    ensures r.Some? ==> forall i :: 0 <= i < |r.value| ==>
              && r.value[i].kind == WorkItemKind
              && r.value[i].serverName == config.workItemServers.value[i]
              && (r.value[i].isSelected <==> config.workItemServers.value[i] == EffectiveWorkItemServer(t, config))
  {
    match config.workItemServers
    case None => None
    case Some(servers) => Some(Menu(WorkItemKind, servers, EffectiveWorkItemServer(t, config)))
  }

  /** `SourceControlServers`: the source-control menu of a target, null when no list is configured. */
  function SourceControlServerItems(t: MergeTarget, config: Configuration): (r: Option<seq<ServerItem>>)
    ensures r.Some? <==> config.sourceControlServers.Some?
    ensures r.Some? ==> |r.value| == |config.sourceControlServers.value|
    ensures r.Some? ==> forall i :: 0 <= i < |r.value| ==>
              && r.value[i].kind == SourceControlKind
              && r.value[i].serverName == config.sourceControlServers.value[i]
              && (r.value[i].isSelected <==> config.sourceControlServers.value[i] == EffectiveSourceControlServer(t, config))
  {
    match config.sourceControlServers
    case None => None
    case Some(servers) => Some(Menu(SourceControlKind, servers, EffectiveSourceControlServer(t, config)))
  }

  /**
   * `Select()` on a menu entry: the owner's override of that kind becomes the entry's
   * server; the other override and every other field stay as they were.
   */
  function Select(item: ServerItem, t: MergeTarget): (r: MergeTarget)
    ensures item.kind == WorkItemKind ==> r.workItemServer == item.serverName && r.sourceControlServer == t.sourceControlServer
    ensures item.kind == SourceControlKind ==> r.sourceControlServer == item.serverName && r.workItemServer == t.workItemServer
    ensures r.(workItemServer := t.workItemServer, sourceControlServer := t.sourceControlServer) == t
  {
    match item.kind
    case WorkItemKind => t.(workItemServer := item.serverName)
    case SourceControlKind => t.(sourceControlServer := item.serverName)
  }

  /**
   * Choosing an entry from a target's menu makes its server the effective one, so the
   * rebuilt menu marks exactly the entries with that name, the chosen entry among them,
   * and the other menu is unchanged.
   */
  lemma SelectMarksChosenEntry(t: MergeTarget, config: Configuration, i: int)
    requires WorkItemServerItems(t, config).Some?
    requires 0 <= i < |WorkItemServerItems(t, config).value|
    requires WorkItemServerItems(t, config).value[i].serverName.Some?
    ensures var t' := Select(WorkItemServerItems(t, config).value[i], t);
            var menu := WorkItemServerItems(t', config).value;
            && EffectiveWorkItemServer(t', config) == config.workItemServers.value[i]
            && menu[i].isSelected
            && (forall j :: 0 <= j < |menu| ==> (menu[j].isSelected <==> menu[j].serverName == config.workItemServers.value[i]))
            && SourceControlServerItems(t', config) == SourceControlServerItems(t, config)
  {
  }

  /** The same for the source-control menu. */
  lemma SelectMarksChosenSourceControlEntry(t: MergeTarget, config: Configuration, i: int)
    requires SourceControlServerItems(t, config).Some?
    requires 0 <= i < |SourceControlServerItems(t, config).value|
    requires SourceControlServerItems(t, config).value[i].serverName.Some?
    ensures var t' := Select(SourceControlServerItems(t, config).value[i], t);
            var menu := SourceControlServerItems(t', config).value;
            && EffectiveSourceControlServer(t', config) == config.sourceControlServers.value[i]
            && menu[i].isSelected
            && (forall j :: 0 <= j < |menu| ==> (menu[j].isSelected <==> menu[j].serverName == config.sourceControlServers.value[i]))
            && WorkItemServerItems(t', config) == WorkItemServerItems(t, config)
  {
  }

  /** The four markers of a check-in template, replaced in this order. */
  const OriginalIdMarker: string := "%o"
  const OriginalBranchMarker: string := "%v"
  const BranchMarker: string := "%b"
  const IdMarker: string := "%t"

  /** The original target's work-item id as the note shows it: empty with no original target or a null id. */
  function OriginalWorkItemId(item: MergeItem): (r: string)
    ensures FirstOriginal(item.targets).None? ==> r == ""
    ensures FirstOriginal(item.targets).Some? ==> r == OrEmpty(FirstOriginal(item.targets).value.workItemId)
  {
    var original := FirstOriginal(item.targets);
    if original.Some? then OrEmpty(original.value.workItemId) else ""
  }

  /** The original target's branch as the note shows it: empty with no original target or a null branch. */
  function OriginalBranchName(item: MergeItem): (r: string)
    ensures FirstOriginal(item.targets).None? ==> r == ""
    ensures FirstOriginal(item.targets).Some? ==> r == OrEmpty(FirstOriginal(item.targets).value.targetBranch)
  {
    var original := FirstOriginal(item.targets);
    if original.Some? then OrEmpty(original.value.targetBranch) else ""
  }

  /**
   * `GenerateCheckinNote(mergeItem)`: the template with `%o`, `%v`, `%b` and `%t` replaced,
   * one after the other, by the original target's id and branch and this target's branch
   * and id; with no original target, or a null value, the marker is deleted. A null
   * template throws.
   */
  function GenerateCheckinNote(item: MergeItem, t: MergeTarget, template: NString): (r: Result<string, string>)
    ensures template.None? <==> r.Failure?
    ensures r.Failure? ==> r.error == NullReferenceMessage
  {
    match template
    case None => Failure(NullReferenceMessage)
    case Some(message) =>
      Success(Replace(Replace(Replace(Replace(message, OriginalIdMarker, OriginalWorkItemId(item)),
                                      OriginalBranchMarker, OriginalBranchName(item)),
                              BranchMarker, OrEmpty(t.targetBranch)),
                      IdMarker, OrEmpty(t.workItemId)))
  }

  /** A template holding none of the four markers is the note itself. */
  lemma NoMarkersNoChange(item: MergeItem, t: MergeTarget, message: string)
    requires !Contains(message, OriginalIdMarker) && !Contains(message, OriginalBranchMarker)
    requires !Contains(message, BranchMarker) && !Contains(message, IdMarker)
    ensures GenerateCheckinNote(item, t, Some(message)) == Success(message)
  {
    ReplaceAbsent(message, OriginalIdMarker, OriginalWorkItemId(item));
    ReplaceAbsent(message, OriginalBranchMarker, OriginalBranchName(item));
    ReplaceAbsent(message, BranchMarker, OrEmpty(t.targetBranch));
    ReplaceAbsent(message, IdMarker, OrEmpty(t.workItemId));
  }

  /** A whole-marker text is replaced by the value. */
  lemma ReplaceWhole(marker: string, value: string)
    requires |marker| > 0
    ensures Replace(marker, marker, value) == value
  {
    assert marker[..|marker|] == marker;
    assert marker[|marker|..] == [];
  }

  /**
   * A template that is just `%o` gives the original target's id, and the empty text when
   * no target is original, provided the id holds none of the later markers.
   */
  lemma OriginalIdTemplate(item: MergeItem, t: MergeTarget)
    requires var o := FirstOriginal(item.targets);
             o.Some? ==> !Contains(OrEmpty(o.value.workItemId), OriginalBranchMarker) &&
                         !Contains(OrEmpty(o.value.workItemId), BranchMarker) &&
                         !Contains(OrEmpty(o.value.workItemId), IdMarker)
    ensures FirstOriginal(item.targets).None? ==> GenerateCheckinNote(item, t, Some(OriginalIdMarker)) == Success("")
    ensures FirstOriginal(item.targets).Some? ==>
              GenerateCheckinNote(item, t, Some(OriginalIdMarker)) == Success(OrEmpty(FirstOriginal(item.targets).value.workItemId))
  {
    var o := FirstOriginal(item.targets);
    var v := if o.Some? then OrEmpty(o.value.workItemId) else "";
    var ob := OrEmpty(if o.Some? then o.value.targetBranch else None);
    ReplaceWhole(OriginalIdMarker, v);
    assert !Contains("", OriginalBranchMarker) && !Contains("", BranchMarker) && !Contains("", IdMarker);
    ReplaceAbsent(v, OriginalBranchMarker, ob);
    ReplaceAbsent(v, BranchMarker, OrEmpty(t.targetBranch));
    ReplaceAbsent(v, IdMarker, OrEmpty(t.workItemId));
  }

  /** A template that is just `%b` gives this target's branch, provided the branch holds no `%t`. */
  lemma BranchTemplate(item: MergeItem, t: MergeTarget)
    requires !Contains(OrEmpty(t.targetBranch), IdMarker)
    ensures GenerateCheckinNote(item, t, Some(BranchMarker)) == Success(OrEmpty(t.targetBranch))
  {
    var o := FirstOriginal(item.targets);
    var oi := OrEmpty(if o.Some? then o.value.workItemId else None);
    var ob := OrEmpty(if o.Some? then o.value.targetBranch else None);
    assert BranchMarker[0..2][1] == 'b' != OriginalIdMarker[1];
    assert BranchMarker[0..2][1] != OriginalBranchMarker[1];
    ReplaceAbsent(BranchMarker, OriginalIdMarker, oi);
    ReplaceAbsent(BranchMarker, OriginalBranchMarker, ob);
    ReplaceWhole(BranchMarker, OrEmpty(t.targetBranch));
    ReplaceAbsent(OrEmpty(t.targetBranch), IdMarker, OrEmpty(t.workItemId));
  }

  /** A two-character marker: `%` and then any other character. */
  predicate IsMarker(m: string) {
    |m| == 2 && m[0] == '%' && m[1] != '%'
  }

  /** What stands between the literal parts of a template while it is filled in: a marker, or text without `%`. */
  predicate Fillable(f: string) {
    IsMarker(f) || NoneOf(f, {'%'})
  }

  /** The slots after replacing `marker` by `value`. */
  function Substitute(fills: seq<string>, marker: string, value: string): (r: seq<string>)
    ensures |r| == |fills|
    ensures forall i :: 0 <= i < |fills| ==> r[i] == if fills[i] == marker then value else fills[i]
  {
    seq(|fills|, i requires 0 <= i < |fills| => if fills[i] == marker then value else fills[i])
  }

  /** One slot of a template: the marker sought becomes the value; any other slot is copied through. */
  lemma ReplaceSlot(f: string, rest: string, marker: string, value: string)
    requires Fillable(f) && IsMarker(marker)
    ensures Replace(f + rest, marker, value) == (if f == marker then value else f) + Replace(rest, marker, value)
  {
    if f == marker {
      ReplaceAtStart(rest, marker, value);
    } else if NoneOf(f, {'%'}) {
      assert {marker[0]} == {'%'};
      ReplaceAfterFreePrefix(f, rest, marker, value);
    } else {
      ReplaceAfterNearMiss(f, rest, marker, value);
    }
  }

  /**
   * In a template of `%`-free literal parts woven with markers and `%`-free values,
   * replacing one marker replaces exactly the slots holding it and touches nothing else.
   */
  lemma {:induction false} ReplaceInTemplate(parts: seq<string>, fills: seq<string>, marker: string, value: string)
    requires |parts| >= 1 && |fills| == |parts| - 1
    requires forall i :: 0 <= i < |parts| ==> NoneOf(parts[i], {'%'})
    requires forall i :: 0 <= i < |fills| ==> Fillable(fills[i])
    requires IsMarker(marker)
    ensures Replace(Weave(parts, fills), marker, value) == Weave(parts, Substitute(fills, marker, value))
    decreases |parts|
  {
    assert NoneOf(parts[0], {marker[0]});
    var subst := Substitute(fills, marker, value);
    if |parts| > 1 {
      var f := fills[0];
      var rest := Weave(parts[1..], fills[1..]);
      var rest' := Weave(parts[1..], subst[1..]);
      assert Weave(parts, fills) == parts[0] + (f + rest);
      assert Weave(parts, subst) == parts[0] + (subst[0] + rest');
      ReplaceAfterFreePrefix(parts[0], f + rest, marker, value);
      ReplaceSlot(f, rest, marker, value);
      assert subst[1..] == Substitute(fills[1..], marker, value);
      assert forall i :: 0 <= i < |parts| - 1 ==> parts[1..][i] == parts[i + 1];
      assert forall i :: 0 <= i < |fills| - 1 ==> fills[1..][i] == fills[i + 1];
      ReplaceInTemplate(parts[1..], fills[1..], marker, value);
    }
  }

  /** Five literal parts woven with four slots. */
  lemma WeaveFive(p0: string, p1: string, p2: string, p3: string, p4: string,
                  f0: string, f1: string, f2: string, f3: string)
    ensures Weave([p0, p1, p2, p3, p4], [f0, f1, f2, f3]) == p0 + f0 + p1 + f1 + p2 + f2 + p3 + f3 + p4
  {
    var parts := [p0, p1, p2, p3, p4];
    var fills := [f0, f1, f2, f3];
    assert Weave(parts[4..], fills[4..]) == p4;
    assert Weave(parts[3..], fills[3..]) == p3 + f3 + p4;
    assert Weave(parts[2..], fills[2..]) == p2 + f2 + (p3 + f3 + p4);
    assert Weave(parts[1..], fills[1..]) == p1 + f1 + (p2 + f2 + (p3 + f3 + p4));
  }

  /** The four markers in the order they are replaced. */
  const Markers: seq<string> := [OriginalIdMarker, OriginalBranchMarker, BranchMarker, IdMarker]

  /**
   * Replacing the four markers in turn, in a template of `%`-free parts woven with the four
   * markers, puts the four `%`-free values in their places.
   */
  lemma FillMarkers(parts: seq<string>, oi: string, ob: string, b: string, id: string)
    requires |parts| == 5 && forall i :: 0 <= i < 5 ==> NoneOf(parts[i], {'%'})
    requires NoneOf(oi, {'%'}) && NoneOf(ob, {'%'}) && NoneOf(b, {'%'}) && NoneOf(id, {'%'})
    ensures Replace(Replace(Replace(Replace(Weave(parts, Markers), OriginalIdMarker, oi),
                                    OriginalBranchMarker, ob), BranchMarker, b), IdMarker, id)
            == Weave(parts, [oi, ob, b, id])
  {
    var f1 := [oi, OriginalBranchMarker, BranchMarker, IdMarker];
    var f2 := [oi, ob, BranchMarker, IdMarker];
    var f3 := [oi, ob, b, IdMarker];
    assert IsMarker(OriginalIdMarker) && IsMarker(OriginalBranchMarker) && IsMarker(BranchMarker) && IsMarker(IdMarker);
    ReplaceInTemplate(parts, Markers, OriginalIdMarker, oi);
    assert Substitute(Markers, OriginalIdMarker, oi) == f1;
    ReplaceInTemplate(parts, f1, OriginalBranchMarker, ob);
    assert Substitute(f1, OriginalBranchMarker, ob) == f2;
    ReplaceInTemplate(parts, f2, BranchMarker, b);
    assert Substitute(f2, BranchMarker, b) == f3;
    ReplaceInTemplate(parts, f3, IdMarker, id);
    assert Substitute(f3, IdMarker, id) == [oi, ob, b, id];
  }

  /**
   * A full template: with literal text around the four markers, the note is that text
   * with the original target's id, the original target's branch, this target's branch and
   * this target's id in the markers' places, provided neither the text nor those values
   * hold a `%`.
   */
  lemma CheckinNoteFillsMarkers(item: MergeItem, t: MergeTarget, p0: string, p1: string, p2: string, p3: string, p4: string)
    requires NoneOf(p0, {'%'}) && NoneOf(p1, {'%'}) && NoneOf(p2, {'%'}) && NoneOf(p3, {'%'}) && NoneOf(p4, {'%'})
    requires NoneOf(OriginalWorkItemId(item), {'%'}) && NoneOf(OriginalBranchName(item), {'%'})
    requires NoneOf(OrEmpty(t.targetBranch), {'%'}) && NoneOf(OrEmpty(t.workItemId), {'%'})
    ensures GenerateCheckinNote(item, t, Some(p0 + "%o" + p1 + "%v" + p2 + "%b" + p3 + "%t" + p4))
            == Success(p0 + OriginalWorkItemId(item) + p1 + OriginalBranchName(item) + p2 + OrEmpty(t.targetBranch)
                       + p3 + OrEmpty(t.workItemId) + p4)
  {
    var parts := [p0, p1, p2, p3, p4];
    WeaveFive(p0, p1, p2, p3, p4, OriginalIdMarker, OriginalBranchMarker, BranchMarker, IdMarker);
    FillMarkers(parts, OriginalWorkItemId(item), OriginalBranchName(item), OrEmpty(t.targetBranch), OrEmpty(t.workItemId));
    WeaveFive(p0, p1, p2, p3, p4, OriginalWorkItemId(item), OriginalBranchName(item), OrEmpty(t.targetBranch), OrEmpty(t.workItemId));
  }
}
