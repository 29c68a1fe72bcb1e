/** What narrowing does to a grant (src/access/access-grant-service.ts): an accepted patch takes effect in
    every field it names and in no other, and what the narrowed grant permits is exactly what the grant
    and the patch both permit. */
module NarrowingEffect {
  import opened Options
  import opened ClientConstraints
  import opened AccessTypes
  import opened GrantNarrowing
  import opened Authorization
  import opened AuthorizationDecisions
  import opened NarrowingRefinement

  // ----- acceptance

  ghost predicate CapNarrows(current: Option<int>, next: Option<int>) {
    next.Some? ==> forall n :: WithinCap(next, n) ==> WithinCap(current, n)
  }

  ghost predicate AllowNarrows(current: Option<bool>, next: Option<bool>) {
    next.Some? ==> (Allows(next) ==> Allows(current))
  }

  ghost predicate RequireNarrows(current: Option<bool>, next: Option<bool>) {
    next.Some? ==> (Requires(current) ==> Requires(next))
  }

  ghost predicate ListNarrows(current: Option<seq<string>>, next: Option<seq<string>>) {
    next.Some? ==> forall entry :: Admits(next, entry) ==> Admits(current, entry)
  }

  ghost predicate ExecutionNarrows(c: ExecutionLimits, p: ExecutionLimits) {
    && CapNarrows(c.maxConcurrentMissions, p.maxConcurrentMissions)
    && CapNarrows(c.maxMissionDurationMinutes, p.maxMissionDurationMinutes)
    && CapNarrows(c.maxRepairAttempts, p.maxRepairAttempts)
    && CapNarrows(c.maxFilesChanged, p.maxFilesChanged)
    && CapNarrows(c.maxDiffLines, p.maxDiffLines)
    && CapNarrows(c.maxCommits, p.maxCommits)
    && AllowNarrows(c.sandboxNetworkAccess, p.sandboxNetworkAccess)
    && AllowNarrows(c.allowDirectPush, p.allowDirectPush)
    && RequireNarrows(c.requirePullRequest, p.requirePullRequest)
    && ListNarrows(c.allowedCommands, p.allowedCommands)
  }

  ghost predicate SessionNarrows(c: SessionLimits, p: SessionLimits) {
    && CapNarrows(c.maxConcurrentSessions, p.maxConcurrentSessions)
    && CapNarrows(c.maxSessionDurationMinutes, p.maxSessionDurationMinutes)
    && CapNarrows(c.inactivityTimeoutMinutes, p.inactivityTimeoutMinutes)
    && RequireNarrows(c.singleUse, p.singleUse)
  }

  ghost predicate ClientsNarrow(c: Option<Constraints>, p: Constraints) {
    && ListNarrows(if c.Some? then c.value.allowedIpCidrs else None, p.allowedIpCidrs)
    && ListNarrows(if c.Some? then c.value.allowedClientIds else None, p.allowedClientIds)
  }

  /** The expiry is absent or an earlier date, and no field of the patch admits anything new. */
  ghost predicate Acceptable(grant: Grant, patch: Patch) {
    && (patch.expiresAt.Some? ==> patch.expiresAt.value.ExpiresAt? && patch.expiresAt.value.time < grant.expiresAt)
    && (patch.executionLimits.Some? ==> ExecutionNarrows(grant.executionLimits, patch.executionLimits.value))
    && (patch.sessionLimits.Some? ==> SessionNarrows(grant.sessionLimits, patch.sessionLimits.value))
    && (patch.clientConstraints.Some? ==> ClientsNarrow(grant.clientConstraints, patch.clientConstraints.value))
  }

  lemma CapIsExact(c: Option<int>, p: Option<int>)
    ensures IsNarrowerOrEqualCap(c, p) <==> CapNarrows(c, p)
  {
    CapCheckIsExact(c, p);
  }

  lemma ListIsExact(c: Option<seq<string>>, p: Option<seq<string>>)
    ensures IsSubsetAllowlist(c, p) <==> ListNarrows(c, p)
  {
    AllowlistCheckIsExact(c, p);
  }

  lemma FlagIsExact(c: Option<bool>, p: Option<bool>)
    ensures IsNarrowerOrEqualAllowFlag(c, p) <==> AllowNarrows(c, p)
    ensures IsNarrowerOrEqualRequireFlag(c, p) <==> RequireNarrows(c, p)
  {
    FlagChecksAreExact(c, p);
  }

  lemma ExecutionIsExact(c: ExecutionLimits, p: ExecutionLimits)
    ensures FindExecutionLimitsWideningViolation(c, p).None? <==> ExecutionNarrows(c, p)
  {
    CapIsExact(c.maxConcurrentMissions, p.maxConcurrentMissions);
    CapIsExact(c.maxMissionDurationMinutes, p.maxMissionDurationMinutes);
    CapIsExact(c.maxRepairAttempts, p.maxRepairAttempts);
    CapIsExact(c.maxFilesChanged, p.maxFilesChanged);
    CapIsExact(c.maxDiffLines, p.maxDiffLines);
    CapIsExact(c.maxCommits, p.maxCommits);
    FlagIsExact(c.sandboxNetworkAccess, p.sandboxNetworkAccess);
    FlagIsExact(c.allowDirectPush, p.allowDirectPush);
    FlagIsExact(c.requirePullRequest, p.requirePullRequest);
    ListIsExact(c.allowedCommands, p.allowedCommands);
  }

  lemma SessionIsExact(c: SessionLimits, p: SessionLimits)
    ensures FindSessionLimitsWideningViolation(c, p).None? <==> SessionNarrows(c, p)
  {
    CapIsExact(c.maxConcurrentSessions, p.maxConcurrentSessions);
    CapIsExact(c.maxSessionDurationMinutes, p.maxSessionDurationMinutes);
    CapIsExact(c.inactivityTimeoutMinutes, p.inactivityTimeoutMinutes);
    FlagIsExact(c.singleUse, p.singleUse);
  }

  lemma ClientsAreExact(c: Option<Constraints>, p: Constraints)
    ensures FindClientConstraintsWideningViolation(c, p).None? <==> ClientsNarrow(c, p)
  {
    ListIsExact(IpsOf(c), p.allowedIpCidrs);
    ListIsExact(ClientIdsOf(c), p.allowedClientIds);
  }

  /** A patch is accepted exactly when it narrows. */
  lemma AcceptanceIsExact(grant: Grant, patch: Patch)
    ensures NarrowGrant(grant, patch).Narrowed? <==> Acceptable(grant, patch)
  {
    if patch.executionLimits.Some? { ExecutionIsExact(grant.executionLimits, patch.executionLimits.value); }
    if patch.sessionLimits.Some? { SessionIsExact(grant.sessionLimits, patch.sessionLimits.value); }
    if patch.clientConstraints.Some? { ClientsAreExact(grant.clientConstraints, patch.clientConstraints.value); }
  }

  // ----- effect

  /** What is enforced after the patch: what its field enforces, or what was before if it has none. */
  ghost predicate CapTakes(c: Option<int>, p: Option<int>, g: Option<int>) {
    if p.None? then g == c else forall n :: WithinCap(g, n) <==> WithinCap(p, n)
  }

  ghost predicate AllowTakes(c: Option<bool>, p: Option<bool>, g: Option<bool>) {
    if p.None? then g == c else Allows(g) <==> Allows(p)
  }

  ghost predicate RequireTakes(c: Option<bool>, p: Option<bool>, g: Option<bool>) {
    if p.None? then g == c else Requires(g) <==> Requires(p)
  }

  ghost predicate ListTakes(c: Option<seq<string>>, p: Option<seq<string>>, g: Option<seq<string>>) {
    if p.None? then g == c else forall entry :: Admits(g, entry) <==> Admits(p, entry)
  }

  ghost predicate ExecutionTakes(c: ExecutionLimits, p: ExecutionLimits, g: ExecutionLimits) {
    && CapTakes(c.maxConcurrentMissions, p.maxConcurrentMissions, g.maxConcurrentMissions)
    && CapTakes(c.maxMissionDurationMinutes, p.maxMissionDurationMinutes, g.maxMissionDurationMinutes)
    && CapTakes(c.maxRepairAttempts, p.maxRepairAttempts, g.maxRepairAttempts)
    && CapTakes(c.maxFilesChanged, p.maxFilesChanged, g.maxFilesChanged)
    && CapTakes(c.maxDiffLines, p.maxDiffLines, g.maxDiffLines)
    && CapTakes(c.maxCommits, p.maxCommits, g.maxCommits)
    && AllowTakes(c.sandboxNetworkAccess, p.sandboxNetworkAccess, g.sandboxNetworkAccess)
    && AllowTakes(c.allowDirectPush, p.allowDirectPush, g.allowDirectPush)
    && RequireTakes(c.requirePullRequest, p.requirePullRequest, g.requirePullRequest)
    && ListTakes(c.allowedCommands, p.allowedCommands, g.allowedCommands)
  }

  ghost predicate SessionTakes(c: SessionLimits, p: SessionLimits, g: SessionLimits) {
    && CapTakes(c.maxConcurrentSessions, p.maxConcurrentSessions, g.maxConcurrentSessions)
    && CapTakes(c.maxSessionDurationMinutes, p.maxSessionDurationMinutes, g.maxSessionDurationMinutes)
    && CapTakes(c.inactivityTimeoutMinutes, p.inactivityTimeoutMinutes, g.inactivityTimeoutMinutes)
    && RequireTakes(c.singleUse, p.singleUse, g.singleUse)
  }

  ghost predicate ClientsTake(c: Option<Constraints>, p: Constraints, g: Option<Constraints>) {
    && g.Some?
    && ListTakes(if c.Some? then c.value.allowedIpCidrs else None, p.allowedIpCidrs, g.value.allowedIpCidrs)
    && ListTakes(if c.Some? then c.value.allowedClientIds else None, p.allowedClientIds, g.value.allowedClientIds)
  }

  /** Denied: what was denied and what the patch adds. Held: what was held and is not denied, with
      nothing repeated or left out. Every other field of the grant is as it was. */
  ghost predicate TakesEffect(grant: Grant, patch: Patch, g: Grant) {
    && g == Grant(grant.id, grant.version + 1, grant.principalId, grant.startsAt, g.expiresAt, grant.status,
                  grant.repositoryScope, grant.branchScope, g.symbolWrightCapabilities, g.githubCapabilities,
                  g.deniedCapabilities, grant.approvalRules, g.executionLimits, g.sessionLimits, g.clientConstraints)
    && g.expiresAt == (if patch.expiresAt.Some? && patch.expiresAt.value.ExpiresAt? then patch.expiresAt.value.time else grant.expiresAt)
    && (forall c :: c in g.deniedCapabilities <==> c in grant.deniedCapabilities || c in patch.additionalDeniedCapabilities)
    && Keeps(grant.symbolWrightCapabilities, g.symbolWrightCapabilities, g.deniedCapabilities)
    && Keeps(grant.githubCapabilities, g.githubCapabilities, g.deniedCapabilities)
    && (if patch.executionLimits.Some? then ExecutionTakes(grant.executionLimits, patch.executionLimits.value, g.executionLimits)
        else g.executionLimits == grant.executionLimits)
    && (if patch.sessionLimits.Some? then SessionTakes(grant.sessionLimits, patch.sessionLimits.value, g.sessionLimits)
        else g.sessionLimits == grant.sessionLimits)
    && (if patch.clientConstraints.Some? then ClientsTake(grant.clientConstraints, patch.clientConstraints.value, g.clientConstraints)
        else g.clientConstraints == grant.clientConstraints)
  }

  ghost predicate Keeps(before: seq<string>, after: seq<string>, denied: seq<string>) {
    forall c :: multiset(after)[c] == if c in denied then 0 else multiset(before)[c]
  }

  lemma {:induction false} WithoutKeeps(capabilities: seq<string>, denied: seq<string>)
    ensures Keeps(capabilities, Without(capabilities, denied), denied)
  {
    if capabilities != [] {
      var n := |capabilities| - 1;
      assert capabilities == capabilities[..n] + [capabilities[n]];
      WithoutKeeps(capabilities[..n], denied);
    }
  }

  /** An accepted patch takes effect, and changes nothing else. */
  lemma AcceptedPatchTakesEffect(grant: Grant, patch: Patch)
    requires NarrowGrant(grant, patch).Narrowed?
    ensures TakesEffect(grant, patch, NarrowGrant(grant, patch).grant)
  {
    var denied := Union(grant.deniedCapabilities, patch.additionalDeniedCapabilities);
    WithoutKeeps(grant.symbolWrightCapabilities, denied);
    WithoutKeeps(grant.githubCapabilities, denied);
  }

  // ----- authority

  /** The patch, taken by itself, lets the request and the client through. */
  ghost predicate PatchPermits(patch: Patch, request: Request, client: Client, now: int) {
    && (patch.expiresAt.Some? ==> patch.expiresAt.value.ExpiresAt? && now < patch.expiresAt.value.time)
    && (forall c :: c in NamesOf(request.capability) ==> c !in patch.additionalDeniedCapabilities)
    && (patch.executionLimits.Some? ==> LimitsPermit(patch.executionLimits.value, request))
    && (patch.clientConstraints.Some? ==> ClientAllowed(client, patch.clientConstraints))
  }

  /** Push and command limits, the two a single request can run into. */
  ghost predicate LimitsPermit(limits: ExecutionLimits, request: Request) {
    && (request.capability == "repo.commit.push" ==> limits.allowDirectPush != Some(false))
    && (request.capability in SANDBOX_NAMES && RestrictsList(limits.allowedCommands) ==> Runs(request, limits.allowedCommands.value))
  }

  lemma StatusIntersects(grant: Grant, g: Grant, now: int)
    requires g.status == grant.status && g.startsAt == grant.startsAt && g.expiresAt <= grant.expiresAt
    ensures CheckGrantStatus(g, now).None? <==> CheckGrantStatus(grant, now).None? && now < g.expiresAt
  {}

  lemma MembershipIntersects(grant: Grant, patch: Patch, g: Grant, capability: string)
    requires TakesEffect(grant, patch, g)
    ensures CheckCapabilityMembership(g, capability).None? <==>
              && CheckCapabilityMembership(grant, capability).None?
              && forall c :: c in NamesOf(capability) ==> c !in patch.additionalDeniedCapabilities
  {
    MembershipCheckIsExact(grant, capability);
    MembershipCheckIsExact(g, capability);
    forall c | c !in g.deniedCapabilities
      ensures c in g.symbolWrightCapabilities <==> c in grant.symbolWrightCapabilities
      ensures c in g.githubCapabilities <==> c in grant.githubCapabilities
    {
      assert multiset(g.symbolWrightCapabilities)[c] == multiset(grant.symbolWrightCapabilities)[c];
      assert multiset(g.githubCapabilities)[c] == multiset(grant.githubCapabilities)[c];
    }
  }

  lemma LimitsArePermitted(grant: Grant, request: Request)
    ensures CheckExecutionLimits(grant, request).None? <==> LimitsPermit(grant.executionLimits, request)
  {
    LimitsCheckIsExact(grant, request);
  }

  lemma LimitsIntersect(c: ExecutionLimits, p: ExecutionLimits, request: Request)
    requires IsNarrowerOrEqualAllowFlag(c.allowDirectPush, p.allowDirectPush) && IsSubsetAllowlist(c.allowedCommands, p.allowedCommands)
    ensures LimitsPermit(MergeExecutionLimits(c, p), request) <==> LimitsPermit(c, request) && LimitsPermit(p, request)
  {
    var g := MergeExecutionLimits(c, p);
    assert g.allowDirectPush != Some(false) <==> c.allowDirectPush != Some(false) && p.allowDirectPush != Some(false) by {
      FlagChecksAreExact(c.allowDirectPush, p.allowDirectPush);
    }
    if RestrictsList(p.allowedCommands) && RestrictsList(c.allowedCommands) {
      RunsMore(request, p.allowedCommands.value, c.allowedCommands.value);
    }
  }

  lemma RunsMore(request: Request, few: seq<string>, many: seq<string>)
    requires forall x :: x in few ==> x in many
    ensures Runs(request, few) ==> Runs(request, many)
  {}

  lemma ClientsIntersect(c: Option<Constraints>, p: Constraints, client: Client)
    requires FindClientConstraintsWideningViolation(c, p).None?
    ensures ClientAllowed(client, Some(MergeConstraints(c, p))) <==> ClientAllowed(client, c) && ClientAllowed(client, Some(p))
  {}

  /** What a permission consists of. */
  ghost predicate PermitsParts(grant: Grant, request: Request, client: Client, now: int) {
    && grant.principalId == request.principalId && CheckGrantStatus(grant, now).None?
    && CheckCapabilityMembership(grant, request.capability).None? && LimitsPermit(grant.executionLimits, request)
    && CheckScopes(grant, request).None? && ClientAllowed(client, grant.clientConstraints)
  }

  lemma PermitsHasParts(grant: Grant, request: Request, client: Client, now: int)
    ensures Permits(grant, request, client, now) <==> PermitsParts(grant, request, client, now)
  {
    LimitsArePermitted(grant, request);
  }

  lemma PartsIntersect(grant: Grant, patch: Patch, g: Grant, request: Request, client: Client, now: int)
    requires TakesEffect(grant, patch, g) && g.expiresAt <= grant.expiresAt
    requires patch.expiresAt.Some? ==> patch.expiresAt.value.ExpiresAt?
    requires LimitsPermit(g.executionLimits, request) <==>
               LimitsPermit(grant.executionLimits, request)
               && (patch.executionLimits.Some? ==> LimitsPermit(patch.executionLimits.value, request))
    requires ClientAllowed(client, g.clientConstraints) <==>
               ClientAllowed(client, grant.clientConstraints)
               && (patch.clientConstraints.Some? ==> ClientAllowed(client, patch.clientConstraints))
    ensures PermitsParts(g, request, client, now) <==>
              PermitsParts(grant, request, client, now) && PatchPermits(patch, request, client, now)
  {
    StatusIntersects(grant, g, now);
    MembershipIntersects(grant, patch, g, request.capability);
    assert CheckScopes(g, request) == CheckScopes(grant, request);
  }

  /** What the narrowed grant permits is exactly what the grant permits and the patch permits. */
  lemma NarrowingIntersects(grant: Grant, patch: Patch, request: Request, client: Client, now: int)
    requires NarrowGrant(grant, patch).Narrowed?
    ensures Permits(NarrowGrant(grant, patch).grant, request, client, now) <==>
              Permits(grant, request, client, now) && PatchPermits(patch, request, client, now)
  {
    PermitsHasParts(grant, request, client, now);
    PermitsHasParts(NarrowGrant(grant, patch).grant, request, client, now);
    AcceptedPatchTakesEffect(grant, patch);
    if patch.executionLimits.Some? { LimitsIntersect(grant.executionLimits, patch.executionLimits.value, request); }
    if patch.clientConstraints.Some? { ClientsIntersect(grant.clientConstraints, patch.clientConstraints.value, client); }
    PartsIntersect(grant, patch, NarrowGrant(grant, patch).grant, request, client, now);
  }

  /** Every accepted patch of the chain permits the request and the client. */
  ghost predicate AllPermit(grant: Grant, patches: seq<Patch>, request: Request, client: Client, now: int) {
    patches != [] ==>
      var front, last := patches[..|patches| - 1], patches[|patches| - 1];
      && AllPermit(grant, front, request, client, now)
      && (NarrowGrant(NarrowAll(grant, front), last).Narrowed? ==> PatchPermits(last, request, client, now))
  }

  /** After any chain of patches: what is permitted is what the first grant and every accepted patch
      permit. */
  lemma {:induction false} ChainsIntersect(grant: Grant, patches: seq<Patch>, request: Request, client: Client, now: int)
    ensures Permits(NarrowAll(grant, patches), request, client, now) <==>
              Permits(grant, request, client, now) && AllPermit(grant, patches, request, client, now)
  {
    if patches != [] {
      var front, last := patches[..|patches| - 1], patches[|patches| - 1];
      ChainsIntersect(grant, front, request, client, now);
      if NarrowGrant(NarrowAll(grant, front), last).Narrowed? {
        NarrowingIntersects(NarrowAll(grant, front), last, request, client, now);
      }
    }
  }

  /** So an added denial is enforced against every name of the capability, and an earlier end against
      every request from then on. */
  lemma DenialsAndEndsAreEnforced(grant: Grant, patch: Patch, request: Request, now: int)
    requires NarrowGrant(grant, patch).Narrowed?
    requires || (exists c :: c in NamesOf(request.capability) && c in patch.additionalDeniedCapabilities)
             || (patch.expiresAt.Some? && patch.expiresAt.value.ExpiresAt? && now >= patch.expiresAt.value.time)
    ensures PreApproval(NarrowGrant(grant, patch).grant, request, now).Some?
  {
    AcceptedPatchTakesEffect(grant, patch);
    EndsOrDenies(grant, patch, NarrowGrant(grant, patch).grant, request, now);
  }

  lemma EndsOrDenies(grant: Grant, patch: Patch, g: Grant, request: Request, now: int)
    requires TakesEffect(grant, patch, g)
    requires || (exists c :: c in NamesOf(request.capability) && c in patch.additionalDeniedCapabilities)
             || (patch.expiresAt.Some? && patch.expiresAt.value.ExpiresAt? && now >= patch.expiresAt.value.time)
    ensures PreApproval(g, request, now).Some?
  {
    if c :| c in NamesOf(request.capability) && c in patch.additionalDeniedCapabilities {
      assert c in g.deniedCapabilities;
      MembershipCheckIsExact(g, request.capability);
    } else {
      assert g.expiresAt <= now;
    }
  }
}
