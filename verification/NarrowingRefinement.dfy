/** Narrowing refines authority: whatever a narrowed grant permits, the grant it was narrowed from
    permits too (src/access/access-grant-service.ts, src/access/authorization-service.ts). */
module NarrowingRefinement {
  import opened Options
  import opened ClientConstraints
  import opened AccessTypes
  import opened GrantNarrowing
  import opened Authorization

  /** The request passes every check before approval and the client is admitted. */
  predicate Permits(grant: Grant, request: Request, client: Client, now: int) {
    PreApproval(grant, request, now).None? && ClientAllowed(client, grant.clientConstraints)
  }

  predicate CapNoLarger(a: Option<int>, b: Option<int>) {
    b.Some? ==> a.Some? && a.value <= b.value
  }

  /** No checked cap of `a` is larger than in `b`, no permission flag is looser, no requirement dropped. */
  ghost predicate LimitsNoLooser(a: Grant, b: Grant) {
    && CapNoLarger(a.executionLimits.maxConcurrentMissions, b.executionLimits.maxConcurrentMissions)
    && CapNoLarger(a.executionLimits.maxMissionDurationMinutes, b.executionLimits.maxMissionDurationMinutes)
    && CapNoLarger(a.executionLimits.maxRepairAttempts, b.executionLimits.maxRepairAttempts)
    && CapNoLarger(a.executionLimits.maxFilesChanged, b.executionLimits.maxFilesChanged)
    && CapNoLarger(a.executionLimits.maxDiffLines, b.executionLimits.maxDiffLines)
    && CapNoLarger(a.executionLimits.maxCommits, b.executionLimits.maxCommits)
    && CapNoLarger(a.sessionLimits.maxConcurrentSessions, b.sessionLimits.maxConcurrentSessions)
    && CapNoLarger(a.sessionLimits.maxSessionDurationMinutes, b.sessionLimits.maxSessionDurationMinutes)
    && CapNoLarger(a.sessionLimits.inactivityTimeoutMinutes, b.sessionLimits.inactivityTimeoutMinutes)
    && (Allows(a.executionLimits.sandboxNetworkAccess) ==> Allows(b.executionLimits.sandboxNetworkAccess))
    && (Allows(a.executionLimits.allowDirectPush) ==> Allows(b.executionLimits.allowDirectPush))
    && (Requires(b.executionLimits.requirePullRequest) ==> Requires(a.executionLimits.requirePullRequest))
    && (Requires(b.sessionLimits.singleUse) ==> Requires(a.sessionLimits.singleUse))
  }

  /** `a` refines `b`. */
  ghost predicate Refines(a: Grant, b: Grant) {
    && (forall request, client, now :: Permits(a, request, client, now) ==> Permits(b, request, client, now))
    && LimitsNoLooser(a, b)
  }

  /** What an accepted patch does to each part that a check reads. */
  ghost predicate NarrowedParts(a: Grant, b: Grant) {
    && a == b.(version := a.version, expiresAt := a.expiresAt, deniedCapabilities := a.deniedCapabilities,
               symbolWrightCapabilities := a.symbolWrightCapabilities, githubCapabilities := a.githubCapabilities,
               executionLimits := a.executionLimits, sessionLimits := a.sessionLimits, clientConstraints := a.clientConstraints)
    && a.expiresAt <= b.expiresAt
    && (forall c :: c in b.deniedCapabilities ==> c in a.deniedCapabilities)
    && (forall c :: c in a.symbolWrightCapabilities ==> c in b.symbolWrightCapabilities)
    && (forall c :: c in a.githubCapabilities ==> c in b.githubCapabilities)
    && (Allows(a.executionLimits.allowDirectPush) ==> Allows(b.executionLimits.allowDirectPush))
    && (forall x :: Admits(a.executionLimits.allowedCommands, x) ==> Admits(b.executionLimits.allowedCommands, x))
    && (RestrictsList(b.executionLimits.allowedCommands) ==> RestrictsList(a.executionLimits.allowedCommands))
    && ListRefines(IpsOf(a.clientConstraints), IpsOf(b.clientConstraints))
    && ListRefines(ClientIdsOf(a.clientConstraints), ClientIdsOf(b.clientConstraints))
  }

  predicate RestrictsList(list: Option<seq<string>>) {
    list.Some? && list.value != []
  }

  ghost predicate ListRefines(a: Option<seq<string>>, b: Option<seq<string>>) {
    RestrictsList(b) ==> RestrictsList(a) && forall x :: x in a.value ==> x in b.value
  }

  lemma NarrowingNarrowsParts(grant: Grant, patch: Patch)
    requires NarrowGrant(grant, patch).Narrowed?
    ensures NarrowedParts(NarrowGrant(grant, patch).grant, grant)
  {
    var narrowed := NarrowGrant(grant, patch).grant;
    if patch.executionLimits.Some? {
      var p := patch.executionLimits.value;
      FlagChecksAreExact(grant.executionLimits.allowDirectPush, p.allowDirectPush);
    }
    if patch.clientConstraints.Some? {
      var p := patch.clientConstraints.value;
    }
  }

  lemma NarrowingTightensLimits(grant: Grant, patch: Patch)
    requires NarrowGrant(grant, patch).Narrowed?
    ensures LimitsNoLooser(NarrowGrant(grant, patch).grant, grant)
  {
    if patch.executionLimits.Some? {
      var p := patch.executionLimits.value;
      FlagChecksAreExact(grant.executionLimits.allowDirectPush, p.allowDirectPush);
      FlagChecksAreExact(grant.executionLimits.sandboxNetworkAccess, p.sandboxNetworkAccess);
      FlagChecksAreExact(grant.executionLimits.requirePullRequest, p.requirePullRequest);
    }
    if patch.sessionLimits.Some? {
      FlagChecksAreExact(grant.sessionLimits.singleUse, patch.sessionLimits.value.singleUse);
    }
  }

  lemma PartsRefineChecks(a: Grant, b: Grant, request: Request, now: int)
    requires NarrowedParts(a, b) && PreApproval(a, request, now).None?
    ensures PreApproval(b, request, now).None?
  {
    assert CheckGrantStatus(b, now).None?;
    assert CheckCapabilityMembership(a, request.capability).None?;
    PartsRefineMembership(a, b, request.capability);
    assert CheckExecutionLimits(a, request).None?;
    PartsRefineLimits(a, b, request);
  }

  lemma PartsRefineMembership(a: Grant, b: Grant, capability: string)
    requires NarrowedParts(a, b) && CheckCapabilityMembership(a, capability).None?
    ensures CheckCapabilityMembership(b, capability).None?
  {
    var aliases := Aliases(capability);
    assert !exists c :: c in aliases && c in a.deniedCapabilities;
    var c :| c in aliases && (c in a.symbolWrightCapabilities || c in a.githubCapabilities);
    assert c in b.symbolWrightCapabilities || c in b.githubCapabilities;
  }

  lemma PartsRefineLimits(a: Grant, b: Grant, request: Request)
    requires NarrowedParts(a, b) && CheckExecutionLimits(a, request).None?
    ensures CheckExecutionLimits(b, request).None?
  {
    if Canonical(request.capability) == OFFLINE_SANDBOX && RestrictsList(b.executionLimits.allowedCommands) {
      assert RestrictsList(a.executionLimits.allowedCommands);
      assert Admits(a.executionLimits.allowedCommands, Binary(request.command.value));
    }
  }

  /** One accepted patch refines the grant. */
  lemma NarrowingRefinesAuthority(grant: Grant, patch: Patch)
    requires NarrowGrant(grant, patch).Narrowed?
    ensures Refines(NarrowGrant(grant, patch).grant, grant)
  {
    var narrowed := NarrowGrant(grant, patch).grant;
    NarrowingNarrowsParts(grant, patch);
    NarrowingTightensLimits(grant, patch);
    forall request, client, now | Permits(narrowed, request, client, now)
      ensures Permits(grant, request, client, now)
    {
      PartsRefineChecks(narrowed, grant, request, now);
    }
  }

  /** Applies patches one after the other; a rejected patch changes nothing. */
  function NarrowAll(grant: Grant, patches: seq<Patch>): Grant {
    if patches == [] then grant
    else
      var before := NarrowAll(grant, patches[..|patches| - 1]);
      var result := NarrowGrant(before, patches[|patches| - 1]);
      if result.Narrowed? then result.grant else before
  }

  /** How many patches of the chain are accepted. */
  function Accepted(grant: Grant, patches: seq<Patch>): nat {
    if patches == [] then 0
    else
      var front := patches[..|patches| - 1];
      Accepted(grant, front) + if NarrowGrant(NarrowAll(grant, front), patches[|patches| - 1]).Narrowed? then 1 else 0
  }

  /** After any chain of patches the grant refines the original, and its version counts the
      accepted ones. */
  lemma {:induction false} ChainsOfPatchesRefine(grant: Grant, patches: seq<Patch>)
    ensures Refines(NarrowAll(grant, patches), grant)
    ensures NarrowAll(grant, patches).version == grant.version + Accepted(grant, patches)
  {
    if patches != [] {
      var front, last := patches[..|patches| - 1], patches[|patches| - 1];
      var before := NarrowAll(grant, front);
      ChainsOfPatchesRefine(grant, front);
      if NarrowGrant(before, last).Narrowed? {
        NarrowingRefinesAuthority(before, last);
      }
    }
  }
}
