/** Narrowing a grant (src/access/grant-narrowing.ts and `narrowGrant` of
    src/access/access-grant-service.ts). A field of a patch is none when its key is absent. */
module GrantNarrowing {
  import opened Options
  import opened ClientConstraints
  import opened AccessTypes

  // ----- the monotonicity checks

  predicate IsNarrowerOrEqualCap(current: Option<int>, next: Option<int>) {
    next.None? || current.None? || next.value <= current.value
  }

  predicate IsNarrowerOrEqualAllowFlag(current: Option<bool>, next: Option<bool>) {
    next == Some(true) ==> current != Some(false)
  }

  predicate IsNarrowerOrEqualRequireFlag(current: Option<bool>, next: Option<bool>) {
    next == Some(false) ==> current != Some(true)
  }

  predicate IsSubsetAllowlist(current: Option<seq<string>>, next: Option<seq<string>>) {
    if next.None? then true
    else if current.None? || current.value == [] then true
    else next.value != [] && forall entry :: entry in next.value ==> entry in current.value
  }

  /** The spread of a patched field over the current one. */
  function Merge<T>(current: Option<T>, next: Option<T>): Option<T> {
    if next.None? then current else next
  }

  // ----- what the fields enforce

  predicate WithinCap(cap: Option<int>, n: int) {
    cap.None? || n <= cap.value
  }

  predicate Allows(flag: Option<bool>) {
    flag != Some(false)
  }

  predicate Requires(flag: Option<bool>) {
    flag == Some(true)
  }

  predicate Admits(list: Option<seq<string>>, entry: string) {
    list.None? || list.value == [] || entry in list.value
  }

  /** Each check accepts a patch exactly when the merged field enforces at least as much. */
  lemma CapCheckIsExact(current: Option<int>, next: Option<int>)
    ensures IsNarrowerOrEqualCap(current, next) <==>
              forall n :: WithinCap(Merge(current, next), n) ==> WithinCap(current, n)
  {
    if !IsNarrowerOrEqualCap(current, next) {
      assert WithinCap(Merge(current, next), next.value) && !WithinCap(current, next.value);
    }
  }

  lemma FlagChecksAreExact(current: Option<bool>, next: Option<bool>)
    ensures IsNarrowerOrEqualAllowFlag(current, next) <==> (Allows(Merge(current, next)) ==> Allows(current))
    ensures IsNarrowerOrEqualRequireFlag(current, next) <==> (Requires(current) ==> Requires(Merge(current, next)))
  {
    match next {
      case None =>
      case Some(b) => assert Merge(current, next) == Some(b);
    }
    match current {
      case None =>
      case Some(b) => if b {} else {}
    }
  }

  function Longest(xs: seq<string>): (n: nat)
    ensures forall x :: x in xs ==> |x| <= n
  {
    if xs == [] then 0
    else
      var n := Longest(xs[1..]);
      assert xs == [xs[0]] + xs[1..];
      if |xs[0]| > n then |xs[0]| else n
  }

  lemma AllowlistCheckIsExact(current: Option<seq<string>>, next: Option<seq<string>>)
    ensures IsSubsetAllowlist(current, next) <==>
              forall entry :: Admits(Merge(current, next), entry) ==> Admits(current, entry)
  {
    if !IsSubsetAllowlist(current, next) {
      if next.value == [] {
        var outside: string := seq(Longest(current.value) + 1, i => 'x');
        assert Admits(next, outside) && !Admits(current, outside);
      } else {
        var entry :| entry in next.value && entry !in current.value;
        assert Admits(next, entry) && !Admits(current, entry);
      }
    }
  }

  // ----- findXWideningViolation: the first field that would widen

  function FindExecutionLimitsWideningViolation(current: ExecutionLimits, patch: ExecutionLimits): Option<string> {
    if !IsNarrowerOrEqualCap(current.maxConcurrentMissions, patch.maxConcurrentMissions) then Some("maxConcurrentMissions")
    else if !IsNarrowerOrEqualCap(current.maxMissionDurationMinutes, patch.maxMissionDurationMinutes) then Some("maxMissionDurationMinutes")
    else if !IsNarrowerOrEqualCap(current.maxRepairAttempts, patch.maxRepairAttempts) then Some("maxRepairAttempts")
    else if !IsNarrowerOrEqualCap(current.maxFilesChanged, patch.maxFilesChanged) then Some("maxFilesChanged")
    else if !IsNarrowerOrEqualCap(current.maxDiffLines, patch.maxDiffLines) then Some("maxDiffLines")
    else if !IsNarrowerOrEqualCap(current.maxCommits, patch.maxCommits) then Some("maxCommits")
    else if !IsNarrowerOrEqualAllowFlag(current.sandboxNetworkAccess, patch.sandboxNetworkAccess) then Some("sandboxNetworkAccess")
    else if !IsNarrowerOrEqualAllowFlag(current.allowDirectPush, patch.allowDirectPush) then Some("allowDirectPush")
    else if !IsNarrowerOrEqualRequireFlag(current.requirePullRequest, patch.requirePullRequest) then Some("requirePullRequest")
    else if !IsSubsetAllowlist(current.allowedCommands, patch.allowedCommands) then Some("allowedCommands")
    else None
  }

  function FindSessionLimitsWideningViolation(current: SessionLimits, patch: SessionLimits): Option<string> {
    if !IsNarrowerOrEqualCap(current.maxConcurrentSessions, patch.maxConcurrentSessions) then Some("maxConcurrentSessions")
    else if !IsNarrowerOrEqualCap(current.maxSessionDurationMinutes, patch.maxSessionDurationMinutes) then Some("maxSessionDurationMinutes")
    else if !IsNarrowerOrEqualCap(current.inactivityTimeoutMinutes, patch.inactivityTimeoutMinutes) then Some("inactivityTimeoutMinutes")
    else if !IsNarrowerOrEqualRequireFlag(current.singleUse, patch.singleUse) then Some("singleUse")
    else None
  }

  function IpsOf(c: Option<Constraints>): Option<seq<string>> {
    if c.None? then None else c.value.allowedIpCidrs
  }

  function ClientIdsOf(c: Option<Constraints>): Option<seq<string>> {
    if c.None? then None else c.value.allowedClientIds
  }

  function FindClientConstraintsWideningViolation(current: Option<Constraints>, patch: Constraints): Option<string> {
    if !IsSubsetAllowlist(IpsOf(current), patch.allowedIpCidrs) then Some("allowedIpCidrs")
    else if !IsSubsetAllowlist(ClientIdsOf(current), patch.allowedClientIds) then Some("allowedClientIds")
    else None
  }

  // ----- narrowGrant

  datatype ExpiryPatch = NotADate | ExpiresAt(time: int)

  datatype Patch = Patch(
    additionalDeniedCapabilities: seq<string>,
    expiresAt: Option<ExpiryPatch>,
    executionLimits: Option<ExecutionLimits>,
    sessionLimits: Option<SessionLimits>,
    clientConstraints: Option<Constraints>)

  datatype NarrowResult = Narrowed(grant: Grant) | Rejected(reason: string)

  function MergeExecutionLimits(c: ExecutionLimits, p: ExecutionLimits): ExecutionLimits {
    ExecutionLimits(
      Merge(c.maxConcurrentMissions, p.maxConcurrentMissions),
      Merge(c.maxMissionDurationMinutes, p.maxMissionDurationMinutes),
      Merge(c.maxRepairAttempts, p.maxRepairAttempts),
      Merge(c.maxFilesChanged, p.maxFilesChanged),
      Merge(c.maxDiffLines, p.maxDiffLines),
      Merge(c.maxCommits, p.maxCommits),
      Merge(c.sandboxNetworkAccess, p.sandboxNetworkAccess),
      Merge(c.allowDirectPush, p.allowDirectPush),
      Merge(c.requirePullRequest, p.requirePullRequest),
      Merge(c.allowedCommands, p.allowedCommands))
  }

  function MergeSessionLimits(c: SessionLimits, p: SessionLimits): SessionLimits {
    SessionLimits(
      Merge(c.maxConcurrentSessions, p.maxConcurrentSessions),
      Merge(c.maxSessionDurationMinutes, p.maxSessionDurationMinutes),
      Merge(c.inactivityTimeoutMinutes, p.inactivityTimeoutMinutes),
      Merge(c.singleUse, p.singleUse))
  }

  function MergeConstraints(c: Option<Constraints>, p: Constraints): Constraints {
    Constraints(Merge(IpsOf(c), p.allowedIpCidrs), Merge(ClientIdsOf(c), p.allowedClientIds))
  }

  function Without(capabilities: seq<string>, denied: seq<string>): (r: seq<string>)
    ensures forall c :: c in r <==> c in capabilities && c !in denied
  {
    if capabilities == [] then []
    else
      var last := capabilities[|capabilities| - 1];
      assert capabilities == capabilities[..|capabilities| - 1] + [last];
      Without(capabilities[..|capabilities| - 1], denied) + if last in denied then [] else [last]
  }

  function Union(a: seq<string>, b: seq<string>): (r: seq<string>)
    ensures forall x :: x in r <==> x in a || x in b
  {
    a + Without(b, a)
  }

  function NarrowGrant(grant: Grant, patch: Patch): NarrowResult {
    if patch.expiresAt == Some(NotADate) then Rejected("expiresAt must be a valid date.")
    else if patch.expiresAt.Some? && patch.expiresAt.value.time >= grant.expiresAt then Rejected("expiresAt")
    else if patch.executionLimits.Some? && FindExecutionLimitsWideningViolation(grant.executionLimits, patch.executionLimits.value).Some? then
      Rejected(FindExecutionLimitsWideningViolation(grant.executionLimits, patch.executionLimits.value).value)
    else if patch.sessionLimits.Some? && FindSessionLimitsWideningViolation(grant.sessionLimits, patch.sessionLimits.value).Some? then
      Rejected(FindSessionLimitsWideningViolation(grant.sessionLimits, patch.sessionLimits.value).value)
    else if patch.clientConstraints.Some? && FindClientConstraintsWideningViolation(grant.clientConstraints, patch.clientConstraints.value).Some? then
      Rejected(FindClientConstraintsWideningViolation(grant.clientConstraints, patch.clientConstraints.value).value)
    else
      var denied := Union(grant.deniedCapabilities, patch.additionalDeniedCapabilities);
      Narrowed(grant.(
        version := grant.version + 1,
        expiresAt := if patch.expiresAt.Some? then patch.expiresAt.value.time else grant.expiresAt,
        deniedCapabilities := denied,
        symbolWrightCapabilities := Without(grant.symbolWrightCapabilities, denied),
        githubCapabilities := Without(grant.githubCapabilities, denied),
        executionLimits := if patch.executionLimits.Some? then MergeExecutionLimits(grant.executionLimits, patch.executionLimits.value) else grant.executionLimits,
        sessionLimits := if patch.sessionLimits.Some? then MergeSessionLimits(grant.sessionLimits, patch.sessionLimits.value) else grant.sessionLimits,
        clientConstraints := if patch.clientConstraints.Some? then Some(MergeConstraints(grant.clientConstraints, patch.clientConstraints.value)) else grant.clientConstraints))
  }
}
