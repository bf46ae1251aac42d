/**
 * The per-provider client cache: a provider object holds at most one client together with
 * a snapshot of the credentials it was built from, and `GetClient` hands out the cached
 * client while the snapshot still matches the live credentials, and otherwise builds a new
 * one. A provider chooses what the snapshot records (`Policy.snap`) and how it is compared
 * with the live settings (`Policy.current`).
 */
module ClientCache {
  import opened Wrappers

  /** A client, known by the live settings it was built from. */
  datatype Handle<L> = Handle(builtWith: L)

  /** The provider's `_client` field and its credential snapshot field. */
  datatype Slot<L, S> = Slot(client: Option<Handle<L>>, snapshot: Option<S>)

  /** What a provider snapshots from the live settings and its reuse comparison. */
  datatype Policy<!L, !S> = Policy(snap: L -> S, current: (S, L) -> bool)

  /** The slot after a `GetClient` call, the client it returned or the exception it threw, and whether it tried to build. */
  datatype Fetch<L, S> = Fetch(slot: Slot<L, S>, result: Result<Handle<L>, string>, built: bool)

  /** The slot after a provider operation, and what the operation returned or threw. */
  datatype Call<L, S, T> = Call(slot: Slot<L, S>, result: Result<T, string>)

  /** A freshly constructed provider: no client and no snapshot. */
  function Empty<L, S>(): Slot<L, S> {
    Slot(None, None)
  }

  /** The snapshot describes the cached client. */
  predicate Coherent<L(==), S(==)>(slot: Slot<L, S>, policy: Policy<L, S>) {
    slot.client.Some? ==> slot.snapshot == Some(policy.snap(slot.client.value.builtWith))
  }

  /** The reuse test: a client exists and the snapshot matches the live settings. */
  predicate Reusable<L(==), S(==)>(slot: Slot<L, S>, live: L, policy: Policy<L, S>) {
    slot.client.Some? && slot.snapshot.Some? && policy.current(slot.snapshot.value, live)
  }

  /** A client fit for the live settings: built from them, or built from settings whose snapshot they still match. */
  predicate UpToDate<L(==), S(==)>(h: Handle<L>, live: L, policy: Policy<L, S>) {
    h.builtWith == live || policy.current(policy.snap(h.builtWith), live)
  }

  /**
   * `GetClient()` with the snapshot recorded only once the client exists: a reusable slot
   * is returned untouched; otherwise the client is built from the live settings (the
   * construction throws `buildError` when that is present, leaving the slot as it was).
   */
  function GetClient<L(==), S(==)>(slot: Slot<L, S>, live: L, policy: Policy<L, S>, buildError: Option<string>): (r: Fetch<L, S>)
    ensures r.built <==> !Reusable(slot, live, policy)
    ensures !r.built ==> r.slot == slot && r.result == Success(slot.client.value)
    ensures r.built ==> (r.result.Success? <==> buildError.None?)
    ensures r.built && r.result.Success? ==>
              r.result.value.builtWith == live && r.slot == Slot(Some(r.result.value), Some(policy.snap(live)))
    ensures r.result.Failure? ==> r.slot == slot && r.result.error == buildError.value
    ensures Coherent(slot, policy) ==> Coherent(r.slot, policy)
    ensures Coherent(slot, policy) && r.result.Success? ==> UpToDate(r.result.value, live, policy)
  {
    if Reusable(slot, live, policy) then Fetch(slot, Success(slot.client.value), false)
    else if buildError.Some? then Fetch(slot, Failure(buildError.value), true)
    else
      var h := Handle(live);
      Fetch(Slot(Some(h), Some(policy.snap(live))), Success(h), true)
  }

  /**
   * Idempotence: once a call has produced a client, a second call with the same live
   * settings builds nothing and returns the same client, provided the policy recognises
   * a snapshot of the live settings as current.
   */
  lemma SecondCallReuses<L, S>(slot: Slot<L, S>, live: L, policy: Policy<L, S>, e1: Option<string>, e2: Option<string>)
    requires policy.current(policy.snap(live), live)
    requires Coherent(slot, policy)
    requires GetClient(slot, live, policy, e1).result.Success?
    ensures var first := GetClient(slot, live, policy, e1);
            var second := GetClient(first.slot, live, policy, e2);
            !second.built && second.slot == first.slot && second.result == first.result
  {
    var first := GetClient(slot, live, policy, e1);
    if !first.built {
      assert slot.snapshot == Some(policy.snap(slot.client.value.builtWith));
    }
  }

  /** Rebuild iff changed: for a slot holding a client, a call builds iff its snapshot no longer matches the live settings. */
  lemma RebuildIffChanged<L, S>(slot: Slot<L, S>, live: L, policy: Policy<L, S>, e: Option<string>)
    requires Coherent(slot, policy) && slot.client.Some?
    ensures GetClient(slot, live, policy, e).built
            <==> !policy.current(policy.snap(slot.client.value.builtWith), live)
  {
  }

  /** After a failed construction, the next successful call serves a client built from the live settings. */
  lemma RetryAfterFailureUsesLiveSettings<L, S>(slot: Slot<L, S>, live: L, policy: Policy<L, S>, error: string)
    requires Coherent(slot, policy)
    requires GetClient(slot, live, policy, Some(error)).result.Failure?
    ensures var first := GetClient(slot, live, policy, Some(error));
            GetClient(first.slot, live, policy, None).result == Success(Handle(live))
  {
  }

  /**
   * `GetClient()` as the on-prem TFS providers write it: the new snapshot is stored while
   * the construction arguments are evaluated, before the client is built, so a throwing
   * construction leaves the old client paired with the new snapshot.
   */
  function GetClientSnapshotFirst<L(==), S(==)>(slot: Slot<L, S>, live: L, policy: Policy<L, S>, buildError: Option<string>)
    : (r: Fetch<L, S>)
    ensures r.built <==> !Reusable(slot, live, policy)
    ensures !r.built ==> r.slot == slot && r.result == Success(slot.client.value)
    ensures r.built ==> r.slot.snapshot == Some(policy.snap(live))
    ensures r.built && r.result.Failure? ==> r.slot.client == slot.client
  {
    if Reusable(slot, live, policy) then Fetch(slot, Success(slot.client.value), false)
    else
      var snapped := slot.(snapshot := Some(policy.snap(live)));
      if buildError.Some? then Fetch(snapped, Failure(buildError.value), true)
      else
        var h := Handle(live);
        Fetch(Slot(Some(h), Some(policy.snap(live))), Success(h), true)
  }

  /**
   * The snapshot-first order hands out a stale client: when the credentials change and the
   * rebuild throws, the next call finds the new snapshot, takes the slot as up to date and
   * returns the client built from the old credentials, which the live ones do not match.
   * The corrected `GetClient` rebuilds on that second call instead.
   */
  lemma SnapshotFirstServesStaleClient<L, S>(slot: Slot<L, S>, live: L, policy: Policy<L, S>, error: string)
    requires Coherent(slot, policy) && slot.client.Some?
    requires !policy.current(policy.snap(slot.client.value.builtWith), live)
    requires policy.current(policy.snap(live), live)
    ensures var first := GetClientSnapshotFirst(slot, live, policy, Some(error));
            var second := GetClientSnapshotFirst(first.slot, live, policy, None);
            && first.result.Failure?
            && !Coherent(first.slot, policy)
            && !second.built
            && second.result == Success(slot.client.value)
            && !UpToDate(second.result.value, live, policy)
    ensures var first := GetClient(slot, live, policy, Some(error));
            var second := GetClient(first.slot, live, policy, None);
            first.result.Failure? && second.built && second.result == Success(Handle(live))
  {
    var old_ := slot.client.value;
    assert old_.builtWith != live;
  }
}
