/** The authorisation decision and its approvals (src/access/authorization-service.ts,
    src/access/branch-scope-guard.ts). The capability catalogue, the clock and generated ids are
    parameters; the hashed operation key is the tuple of what is hashed; listing order is the order
    in which approvals were first written. */
module Authorization {
  import opened Options
  import opened BranchGlob
  import opened Text
  import opened AccessTypes

  // ----- capabilities

  const LEGACY_SANDBOX := "symbolwright.sandbox.execute"
  const OFFLINE_SANDBOX := "symbolwright.sandbox.execute.offline"

  function Canonical(capability: string): string {
    if capability == LEGACY_SANDBOX then OFFLINE_SANDBOX else capability
  }

  function Aliases(capability: string): seq<string> {
    if Canonical(capability) == OFFLINE_SANDBOX then [OFFLINE_SANDBOX, LEGACY_SANDBOX] else [Canonical(capability)]
  }

  predicate BranchSensitive(capability: string) {
    capability in {
      "repo.branch.create", "repo.branch.update", "repo.branch.delete", "repo.content.create", "repo.content.update",
      "repo.content.delete", "repo.commit.create", "repo.commit.push", "repo.pull_request.create",
      "symbolwright.checkpoint.restore" }
  }

  // ----- the checks before approval; each answers a refusal or none

  datatype Refusal =
    | UnknownCapability | GrantNotFound | PrincipalMismatch
    | GrantRevoked | GrantPaused | GrantNotActive | GrantExpired
    | CapabilityDenied | CapabilityNotGranted | DirectPushDisabled | CommandNotAllowed
    | RepositoryOutOfScope | BranchProtected | DefaultBranchProtected | BranchOutOfScope

  function CheckGrantStatus(grant: Grant, now: int): Option<Refusal> {
    if grant.status == Revoked then Some(GrantRevoked)
    else if grant.status == Paused then Some(GrantPaused)
    else if grant.status == PendingGrant then Some(GrantNotActive)
    else if grant.status == ExpiredGrant || grant.expiresAt <= now then Some(GrantExpired)
    else if grant.startsAt > now then Some(GrantNotActive)
    else None
  }

  function CheckCapabilityMembership(grant: Grant, capability: string): Option<Refusal> {
    var aliases := Aliases(capability);
    if exists a :: a in aliases && a in grant.deniedCapabilities then Some(CapabilityDenied)
    else if !exists a :: a in aliases && (a in grant.symbolWrightCapabilities || a in grant.githubCapabilities)
    then Some(CapabilityNotGranted)
    else None
  }

  function Token(s: string): string {
    if s == "" || IsSpace(s[0]) then "" else [s[0]] + Token(s[1..])
  }

  /** The first word of the trimmed command. */
  function Binary(command: string): string {
    if command != "" && IsSpace(command[0]) then Binary(command[1..]) else Token(command)
  }

  function CheckExecutionLimits(grant: Grant, request: Request): Option<Refusal> {
    var limits := grant.executionLimits;
    if request.capability == "repo.commit.push" && limits.allowDirectPush == Some(false) then Some(DirectPushDisabled)
    else if Canonical(request.capability) == OFFLINE_SANDBOX && limits.allowedCommands.Some? && limits.allowedCommands.value != []
            && (request.command.None? || Binary(request.command.value) !in limits.allowedCommands.value)
    then Some(CommandNotAllowed)
    else None
  }

  function Lower(s: string): string {
    seq(|s|, i requires 0 <= i < |s| => if 'A' <= s[i] <= 'Z' then (s[i] as int + 32) as char else s[i])
  }

  predicate MatchesAnyRepository(repository: string, patterns: seq<string>) {
    exists p :: p in patterns && Lower(p) == Lower(repository)
  }

  function CheckRepositoryScope(scope: RepositoryScope, repository: string): Option<Refusal> {
    var owner := Split(repository, '/')[0];
    var inScope := match scope.mode
      case Single => MatchesAnyRepository(repository, scope.repositories)
      case Selected => MatchesAnyRepository(repository, scope.repositories)
      case Organization => exists o :: o in scope.organizations && Lower(o) == Lower(owner)
      case Installation => true
      case Discovery => MatchesAnyRepository(repository, scope.activatedRepositories);
    if inScope then None else Some(RepositoryOutOfScope)
  }

  function CheckBranchScope(scope: BranchScope, branch: string, isDefaultBranch: bool): Option<Refusal> {
    if MatchesAnyBranchPattern(branch, scope.deniedPatterns).Some? then Some(BranchProtected)
    else if isDefaultBranch && !scope.defaultBranchMutationAllowed then Some(DefaultBranchProtected)
    else if !isDefaultBranch && MatchesAnyBranchPattern(branch, scope.allowedPatterns).None? then Some(BranchOutOfScope)
    else None
  }

  function OrElse(a: Option<Refusal>, b: Option<Refusal>): Option<Refusal> {
    if a.Some? then a else b
  }

  /** Everything `evaluateInternal` checks on a grant before the approval policy, in order. */
  function PreApproval(grant: Grant, request: Request, now: int): Option<Refusal> {
    if grant.principalId != request.principalId then Some(PrincipalMismatch)
    else
      OrElse(CheckGrantStatus(grant, now),
      OrElse(CheckCapabilityMembership(grant, request.capability),
      OrElse(CheckExecutionLimits(grant, request),
      OrElse(if request.repository.Some? then CheckRepositoryScope(grant.repositoryScope, request.repository.value) else None,
             if request.branch.Some? && BranchSensitive(request.capability)
             then CheckBranchScope(grant.branchScope, request.branch.value, request.isDefaultBranch) else None))))
  }

  // ----- approvals

  datatype ApprovalStatus = Pending | Approved | Denied | Expired | Consumed

  /** What the bound operation key is a hash of. */
  datatype OperationKey = OperationKey(grantId: string, capability: string, repository: string, branch: string,
                                       missionId: string, policyVersions: Option<map<string, int>>)

  datatype Approval = Approval(
    id: string,
    grantId: string,
    key: OperationKey,
    grantVersion: Option<int>,
    policyVersions: Option<map<string, int>>,
    createdAt: int,
    expiresAt: int,
    status: ApprovalStatus)

  function OrEmpty(s: Option<string>): string {
    if s.Some? then s.value else ""
  }

  function BoundOperationKey(r: Request): OperationKey {
    OperationKey(r.grantId, Canonical(r.capability), OrEmpty(r.repository), OrEmpty(r.branch), OrEmpty(r.missionId), r.policyVersions)
  }

  function FirstRule(rules: seq<ApprovalRule>, names: seq<string>): Option<Requirement> {
    if rules == [] then None
    else if rules[0].name in names then Some(rules[0].requirement)
    else FirstRule(rules[1..], names)
  }

  function MatchApprovalRequirement(catalog: Catalog, grant: Grant, capability: string): Requirement {
    var exact := FirstRule(grant.approvalRules, Aliases(capability));
    var highRisk := FirstRule(grant.approvalRules, ["high-risk"]);
    var wildcard := FirstRule(grant.approvalRules, ["*"]);
    if exact.Some? then exact.value
    else if Canonical(capability) in catalog.highRisk && highRisk.Some? then highRisk.value
    else if wildcard.Some? then wildcard.value
    else NeedsApproval("every-high-risk-operation")
  }

  predicate MatchesCurrentAuthority(a: Approval, grant: Grant, request: Request) {
    && (a.grantVersion.None? || a.grantVersion.value == grant.version)
    && a.policyVersions == request.policyVersions
  }

  /** The approval bears on this request now, in the given status. */
  predicate Bears(a: Approval, status: ApprovalStatus, grant: Grant, request: Request, now: int) {
    && a.grantId == grant.id
    && a.key == BoundOperationKey(request)
    && a.status == status
    && a.expiresAt > now
    && MatchesCurrentAuthority(a, grant, request)
  }

  function FindBearing(approvals: seq<Approval>, status: ApprovalStatus, grant: Grant, request: Request, now: int): (r: Option<nat>)
    ensures r.Some? ==> r.value < |approvals| && Bears(approvals[r.value], status, grant, request, now)
    ensures r.None? ==> forall i :: 0 <= i < |approvals| ==> !Bears(approvals[i], status, grant, request, now)
  {
    if approvals == [] then None
    else
      var front := FindBearing(approvals[..|approvals| - 1], status, grant, request, now);
      if front.Some? then front
      else if Bears(approvals[|approvals| - 1], status, grant, request, now) then Some(|approvals| - 1)
      else None
  }

  const APPROVAL_TTL_MS := 24 * 60 * 60 * 1000

  function NewApproval(grant: Grant, request: Request, id: string, now: int): Approval {
    Approval(id, grant.id, BoundOperationKey(request), Some(grant.version), request.policyVersions, now, now + APPROVAL_TTL_MS, Pending)
  }

  datatype Decision =
    | Refused(refusal: Refusal)
    | RefusedByPolicy
    | AllowedWithoutApproval
    | AllowedByApproval(approvalId: string)
    | ApprovalRequired(pendingId: string)

  datatype ServiceState = ServiceState(grants: map<string, Grant>, approvals: seq<Approval>)

  /** `checkApprovalPolicy`: a bearing approval is consumed, otherwise a bearing pending one is
      named or a new one is created. */
  function CheckApprovalPolicy(s: ServiceState, catalog: Catalog, grant: Grant, request: Request, freshId: string, now: int): (ServiceState, Decision) {
    match MatchApprovalRequirement(catalog, grant, request.capability)
    case DeniedByPolicy => (s, RefusedByPolicy)
    case NoApproval => (s, AllowedWithoutApproval)
    case NeedsApproval(_) =>
      var existing := FindBearing(s.approvals, Approved, grant, request, now);
      if existing.Some? then
        var a := s.approvals[existing.value];
        (s.(approvals := s.approvals[existing.value := a.(status := Consumed)]), AllowedByApproval(a.id))
      else
        var pending := FindBearing(s.approvals, Pending, grant, request, now);
        if pending.Some? then (s, ApprovalRequired(s.approvals[pending.value].id))
        else (s.(approvals := s.approvals + [NewApproval(grant, request, freshId, now)]), ApprovalRequired(freshId))
  }

  /** `evaluate`; a grant found past its expiry is stored as expired. */
  function Evaluate(s: ServiceState, catalog: Catalog, request: Request, freshId: string, now: int): (ServiceState, Decision) {
    if Canonical(request.capability) !in catalog.known then (s, Refused(UnknownCapability))
    else if request.grantId !in s.grants then (s, Refused(GrantNotFound))
    else
      var grant := s.grants[request.grantId];
      var refusal := PreApproval(grant, request, now);
      if refusal == Some(GrantExpired) then
        (s.(grants := s.grants[request.grantId := grant.(status := ExpiredGrant)]), Refused(GrantExpired))
      else if refusal.Some? then (s, Refused(refusal.value))
      else CheckApprovalPolicy(s, catalog, grant, request, freshId, now)
  }

  function FindApproval(approvals: seq<Approval>, id: string): (r: Option<nat>)
    ensures r.Some? ==> r.value < |approvals| && approvals[r.value].id == id
    ensures r.None? ==> forall i :: 0 <= i < |approvals| ==> approvals[i].id != id
  {
    if approvals == [] then None
    else
      var front := FindApproval(approvals[..|approvals| - 1], id);
      if front.Some? then front
      else if approvals[|approvals| - 1].id == id then Some(|approvals| - 1)
      else None
  }

  datatype DecideResult = ApprovalNotFound | AlreadyDecided | ApprovalExpired | Decided(approval: Approval)

  /** `decideApproval`: only a pending, unexpired approval of this grant can be decided. */
  function DecideApproval(s: ServiceState, grantId: string, approvalId: string, approve: bool, now: int): (ServiceState, DecideResult) {
    var i := FindApproval(s.approvals, approvalId);
    if i.None? || s.approvals[i.value].grantId != grantId then (s, ApprovalNotFound)
    else
      var a := s.approvals[i.value];
      if a.status != Pending then (s, AlreadyDecided)
      else if a.expiresAt <= now then (s.(approvals := s.approvals[i.value := a.(status := Expired)]), ApprovalExpired)
      else
        var decided := a.(status := if approve then Approved else Denied);
        (s.(approvals := s.approvals[i.value := decided]), Decided(decided))
  }

  class AuthorizationService {
    const catalog: Catalog
    var grants: map<string, Grant>
    var approvals: seq<Approval>

    constructor (catalog: Catalog, grants: map<string, Grant>)
      ensures this.catalog == catalog && State() == ServiceState(grants, [])
    {
      this.catalog := catalog;
      this.grants := grants;
      approvals := [];
    }

    ghost function State(): ServiceState
      reads this
    {
      ServiceState(grants, approvals)
    }

    method EvaluateRequest(request: Request, freshId: string, now: int) returns (decision: Decision)
      modifies this
      ensures (State(), decision) == Evaluate(old(State()), catalog, request, freshId, now)
    {
      if Canonical(request.capability) !in catalog.known { return Refused(UnknownCapability); }
      if request.grantId !in grants { return Refused(GrantNotFound); }
      var grant := grants[request.grantId];
      var refusal := PreApproval(grant, request, now);
      if refusal.Some? {
        if refusal.value == GrantExpired {
          grants := grants[request.grantId := grant.(status := ExpiredGrant)];
        }
        return Refused(refusal.value);
      }
      var requirement := MatchApprovalRequirement(catalog, grant, request.capability);
      if requirement == DeniedByPolicy { return RefusedByPolicy; }
      if requirement == NoApproval { return AllowedWithoutApproval; }
      var existing := FindBearing(approvals, Approved, grant, request, now);
      if existing.Some? {
        var a := approvals[existing.value];
        approvals := approvals[existing.value := a.(status := Consumed)];
        return AllowedByApproval(a.id);
      }
      var pending := FindBearing(approvals, Pending, grant, request, now);
      if pending.Some? { return ApprovalRequired(approvals[pending.value].id); }
      approvals := approvals + [NewApproval(grant, request, freshId, now)];
      decision := ApprovalRequired(freshId);
    }

    method Decide(grantId: string, approvalId: string, approve: bool, now: int) returns (result: DecideResult)
      modifies this`approvals
      ensures (State(), result) == DecideApproval(old(State()), grantId, approvalId, approve, now)
    {
      var i := FindApproval(approvals, approvalId);
      if i.None? || approvals[i.value].grantId != grantId { return ApprovalNotFound; }
      var a := approvals[i.value];
      if a.status != Pending { return AlreadyDecided; }
      if a.expiresAt <= now {
        approvals := approvals[i.value := a.(status := Expired)];
        return ApprovalExpired;
      }
      var decided := a.(status := if approve then Approved else Denied);
      approvals := approvals[i.value := decided];
      result := Decided(decided);
    }
  }
}
