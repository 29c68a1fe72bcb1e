/** Grants and requests of the delegated-access layer (src/access/access-types.ts). Display fields,
    audit data and sandbox policy references are not part of the records; times are milliseconds. */
module AccessTypes {
  import opened Options
  import opened ClientConstraints

  datatype GrantStatus = PendingGrant | Active | Paused | ExpiredGrant | Revoked

  datatype ScopeMode = Single | Selected | Installation | Organization | Discovery

  datatype RepositoryScope = RepositoryScope(mode: ScopeMode, repositories: seq<string>, organizations: seq<string>,
                                             activatedRepositories: seq<string>)

  datatype BranchScope = BranchScope(allowedPatterns: seq<string>, deniedPatterns: seq<string>, defaultBranchMutationAllowed: bool)

  datatype Requirement = NoApproval | DeniedByPolicy | NeedsApproval(rule: string)

  datatype ApprovalRule = ApprovalRule(name: string, requirement: Requirement)

  datatype ExecutionLimits = ExecutionLimits(
    maxConcurrentMissions: Option<int>,
    maxMissionDurationMinutes: Option<int>,
    maxRepairAttempts: Option<int>,
    maxFilesChanged: Option<int>,
    maxDiffLines: Option<int>,
    maxCommits: Option<int>,
    sandboxNetworkAccess: Option<bool>,
    allowDirectPush: Option<bool>,
    requirePullRequest: Option<bool>,
    allowedCommands: Option<seq<string>>)

  datatype SessionLimits = SessionLimits(
    maxConcurrentSessions: Option<int>,
    maxSessionDurationMinutes: Option<int>,
    inactivityTimeoutMinutes: Option<int>,
    singleUse: Option<bool>)

  datatype Grant = Grant(
    id: string,
    version: int,
    principalId: string,
    startsAt: int,
    expiresAt: int,
    status: GrantStatus,
    repositoryScope: RepositoryScope,
    branchScope: BranchScope,
    symbolWrightCapabilities: seq<string>,
    githubCapabilities: seq<string>,
    deniedCapabilities: seq<string>,
    approvalRules: seq<ApprovalRule>,
    executionLimits: ExecutionLimits,
    sessionLimits: SessionLimits,
    clientConstraints: Option<Constraints>)

  /** `policyVersions` is the well-formed part of the request metadata, none if there is none. */
  datatype Request = Request(
    principalId: string,
    grantId: string,
    capability: string,
    repository: Option<string>,
    branch: Option<string>,
    isDefaultBranch: bool,
    missionId: Option<string>,
    command: Option<string>,
    policyVersions: Option<map<string, int>>)

  /** The capability tables. */
  datatype Catalog = Catalog(known: set<string>, highRisk: set<string>)
}
