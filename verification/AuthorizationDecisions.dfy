/** What decides a request (src/access/authorization-service.ts): the table of refusals before the
    approval policy, the rule of the policy that applies, and the approval it takes. */
module AuthorizationDecisions {
  import opened Options
  import opened BranchGlob
  import opened Text
  import opened AccessTypes
  import opened Authorization

  // ----- the vocabulary

  const SANDBOX_NAMES := {"symbolwright.sandbox.execute", "symbolwright.sandbox.execute.offline"}

  /** The names of a capability: the old and the new name of offline execution stand for each other. */
  function NamesOf(capability: string): set<string> {
    if capability in SANDBOX_NAMES then SANDBOX_NAMES else {capability}
  }

  lemma AliasesAreNames(capability: string)
    ensures forall c :: c in Aliases(capability) <==> c in NamesOf(capability)
    ensures Canonical(capability) == if capability in SANDBOX_NAMES then "symbolwright.sandbox.execute.offline" else capability
  {}

  /** The first word stands between these positions: after leading white space, up to the next or the
      end; it is empty when there is nothing else. */
  ghost predicate WordAt(command: string, from: nat, to: nat) {
    && from <= to <= |command|
    && (forall i :: 0 <= i < from ==> IsSpace(command[i]))
    && (forall i :: from <= i < to ==> !IsSpace(command[i]))
    && (to == |command| || (from < to && IsSpace(command[to])))
  }

  ghost predicate FirstWord(command: string, word: string) {
    exists from: nat, to: nat :: WordAt(command, from, to) && word == command[from..to]
  }

  ghost predicate SameLetter(a: char, b: char) {
    a == b || ('A' <= a <= 'Z' && a as int + 32 == b as int) || ('A' <= b <= 'Z' && b as int + 32 == a as int)
  }

  /** The names differ at most in the case of letters. */
  ghost predicate SameName(a: string, b: string) {
    |a| == |b| && forall i :: 0 <= i < |a| ==> SameLetter(a[i], b[i])
  }

  ghost predicate Listed(name: string, names: seq<string>) {
    exists n :: n in names && SameName(n, name)
  }

  /** What stands before the first slash, or the whole name. */
  ghost predicate Owner(repository: string, owner: string) {
    '/' !in owner && (repository == owner || exists rest :: repository == owner + "/" + rest)
  }

  ghost predicate InScope(scope: RepositoryScope, repository: string) {
    match scope.mode
    case Single => Listed(repository, scope.repositories)
    case Selected => Listed(repository, scope.repositories)
    case Discovery => Listed(repository, scope.activatedRepositories)
    case Installation => true
    case Organization => exists owner :: Owner(repository, owner) && Listed(owner, scope.organizations)
  }

  ghost predicate Matches(branch: string, patterns: seq<string>) {
    exists p :: p in patterns && MatchesBranchPattern(branch, p)
  }

  ghost predicate Runs(request: Request, allowed: seq<string>) {
    request.command.Some? && exists word :: FirstWord(request.command.value, word) && word in allowed
  }

  ghost predicate Mutates(capability: string) {
    || capability in {"repo.branch.create", "repo.branch.update", "repo.branch.delete"}
    || capability in {"repo.content.create", "repo.content.update", "repo.content.delete"}
    || capability in {"repo.commit.create", "repo.commit.push", "repo.pull_request.create", "symbolwright.checkpoint.restore"}
  }

  // ----- refusals

  datatype Check = Check(fails: bool, refusal: Refusal)

  /** Every reason to refuse a request that has a grant, in the order of precedence. */
  ghost function Checks(grant: Grant, request: Request, now: int): seq<Check> {
    var names, limits := NamesOf(request.capability), grant.executionLimits;
    var branched := request.branch.Some? && Mutates(request.capability);
    [ Check(grant.principalId != request.principalId, PrincipalMismatch),
      Check(grant.status == Revoked, GrantRevoked),
      Check(grant.status == Paused, GrantPaused),
      Check(grant.status == PendingGrant, GrantNotActive),
      Check(grant.status == ExpiredGrant || now >= grant.expiresAt, GrantExpired),
      Check(now < grant.startsAt, GrantNotActive),
      Check(exists c :: c in names && c in grant.deniedCapabilities, CapabilityDenied),
      Check(forall c :: c in names ==> c !in grant.symbolWrightCapabilities && c !in grant.githubCapabilities, CapabilityNotGranted),
      Check(request.capability == "repo.commit.push" && limits.allowDirectPush == Some(false), DirectPushDisabled),
      Check(request.capability in SANDBOX_NAMES && limits.allowedCommands.Some? && limits.allowedCommands.value != []
              && !Runs(request, limits.allowedCommands.value), CommandNotAllowed),
      Check(request.repository.Some? && !InScope(grant.repositoryScope, request.repository.value), RepositoryOutOfScope),
      Check(branched && Matches(request.branch.value, grant.branchScope.deniedPatterns), BranchProtected),
      Check(branched && request.isDefaultBranch && !grant.branchScope.defaultBranchMutationAllowed, DefaultBranchProtected),
      Check(branched && !request.isDefaultBranch && !Matches(request.branch.value, grant.branchScope.allowedPatterns), BranchOutOfScope) ]
  }

  ghost predicate FirstFailure(checks: seq<Check>, k: nat) {
    k < |checks| && checks[k].fails && forall j :: 0 <= j < k ==> !checks[j].fails
  }

  lemma {:induction false} TokenIsWord(s: string) returns (n: nat)
    ensures n <= |s| && Token(s) == s[..n] && (forall i :: 0 <= i < n ==> !IsSpace(s[i])) && (n == |s| || IsSpace(s[n]))
  {
    if s == "" || IsSpace(s[0]) {
      n := 0;
    } else {
      var m := TokenIsWord(s[1..]);
      n := m + 1;
    }
  }

  lemma {:induction false} BinaryIsFirstWord(command: string) returns (from: nat, to: nat)
    ensures WordAt(command, from, to) && Binary(command) == command[from..to]
  {
    if command != "" && IsSpace(command[0]) {
      var rest := command[1..];
      var i, j := BinaryIsFirstWord(rest);
      from, to := i + 1, j + 1;
      WordMoves(command, i, j);
    } else {
      from := 0;
      to := TokenIsWord(command);
    }
  }

  lemma WordMoves(command: string, from: nat, to: nat)
    requires command != "" && IsSpace(command[0]) && WordAt(command[1..], from, to)
    ensures WordAt(command, from + 1, to + 1) && command[from + 1..to + 1] == command[1..][from..to]
  {
    var rest := command[1..];
    forall i | 0 < i < |command|
      ensures command[i] == rest[i - 1]
    {}
  }

  lemma FirstWordIsUnique(command: string, from: nat, to: nat, from': nat, to': nat)
    requires WordAt(command, from, to) && WordAt(command, from', to')
    ensures from == from' && to == to'
  {
    NoEarlierWord(command, from, to, from', to');
    NoEarlierWord(command, from', to', from, to);
    NoShorterWord(command, from, to, to');
    NoShorterWord(command, from, to', to);
  }

  lemma NoEarlierWord(command: string, from: nat, to: nat, from': nat, to': nat)
    requires WordAt(command, from, to) && WordAt(command, from', to')
    ensures from >= from'
  {
    if from < |command| {
      assert IsSpace(command[from]) <==> from < from';
    }
  }

  lemma NoShorterWord(command: string, from: nat, to: nat, to': nat)
    requires WordAt(command, from, to) && WordAt(command, from, to')
    ensures to >= to'
  {
    if to < |command| {
      assert IsSpace(command[to]);
    }
  }

  lemma LowerKeepsNames(a: string, b: string)
    ensures Lower(a) == Lower(b) <==> SameName(a, b)
  {
    if Lower(a) == Lower(b) {
      forall i | 0 <= i < |a|
        ensures SameLetter(a[i], b[i])
      {
        assert Lower(a)[i] == Lower(b)[i];
      }
    }
  }

  lemma ListedIffMatched(name: string, names: seq<string>)
    ensures (exists n :: n in names && Lower(n) == Lower(name)) <==> Listed(name, names)
  {
    forall n | n in names
      ensures Lower(n) == Lower(name) <==> SameName(n, name)
    {
      LowerKeepsNames(n, name);
    }
  }

  lemma OwnerIsFirstPiece(repository: string, owner: string)
    ensures Owner(repository, owner) <==> owner == Split(repository, '/')[0]
  {
    var pieces := Split(repository, '/');
    JoinSplit(repository, '/');
    if |pieces| > 1 {
      JoinFront(pieces, '/');
      assert repository == pieces[0] + "/" + Join(pieces[1..], '/');
    }
    OwnerEndsAtSlash(repository, pieces[0]);
    if Owner(repository, owner) {
      OwnerEndsAtSlash(repository, owner);
    }
  }

  lemma OwnerEndsAtSlash(repository: string, owner: string)
    requires Owner(repository, owner)
    ensures var slash := IndexOf(repository, '/');
            owner == if slash.None? then repository else repository[..slash.value]
  {
    if repository != owner {
      var rest :| repository == owner + "/" + rest;
      IndexOfFirst(owner, '/', rest);
      assert owner + "/" + rest == owner + ['/'] + rest;
    }
  }

  lemma ScopeCheckIsExact(scope: RepositoryScope, repository: string)
    ensures CheckRepositoryScope(scope, repository) == if InScope(scope, repository) then None else Some(RepositoryOutOfScope)
  {
    var owner := Split(repository, '/')[0];
    ListedIffMatched(repository, scope.repositories);
    ListedIffMatched(repository, scope.activatedRepositories);
    ListedIffMatched(owner, scope.organizations);
    OwnerIsFirstPiece(repository, owner);
    forall other | Owner(repository, other)
      ensures other == owner
    {
      OwnerIsFirstPiece(repository, other);
    }
  }

  lemma RunsIffAllowed(request: Request, allowed: seq<string>)
    ensures Runs(request, allowed) <==> request.command.Some? && Binary(request.command.value) in allowed
  {
    if request.command.Some? {
      var command := request.command.value;
      var from, to := BinaryIsFirstWord(command);
      forall word | FirstWord(command, word)
        ensures word == Binary(command)
      {
        var i: nat, j: nat :| WordAt(command, i, j) && word == command[i..j];
        FirstWordIsUnique(command, from, to, i, j);
      }
    }
  }

  lemma LimitsCheckIsExact(grant: Grant, request: Request)
    ensures var limits := grant.executionLimits;
            CheckExecutionLimits(grant, request)
              == if request.capability == "repo.commit.push" && limits.allowDirectPush == Some(false) then Some(DirectPushDisabled)
                 else if request.capability in SANDBOX_NAMES && limits.allowedCommands.Some? && limits.allowedCommands.value != []
                         && !Runs(request, limits.allowedCommands.value) then Some(CommandNotAllowed)
                 else None
  {
    AliasesAreNames(request.capability);
    if grant.executionLimits.allowedCommands.Some? {
      RunsIffAllowed(request, grant.executionLimits.allowedCommands.value);
    }
  }

  lemma MembershipCheckIsExact(grant: Grant, capability: string)
    ensures var names := NamesOf(capability);
            CheckCapabilityMembership(grant, capability)
              == if exists c :: c in names && c in grant.deniedCapabilities then Some(CapabilityDenied)
                 else if forall c :: c in names ==> c !in grant.symbolWrightCapabilities && c !in grant.githubCapabilities
                 then Some(CapabilityNotGranted)
                 else None
  {
    AliasesAreNames(capability);
  }

  lemma BranchCheckIsExact(scope: BranchScope, branch: string, isDefaultBranch: bool)
    ensures CheckBranchScope(scope, branch, isDefaultBranch)
              == if Matches(branch, scope.deniedPatterns) then Some(BranchProtected)
                 else if isDefaultBranch && !scope.defaultBranchMutationAllowed then Some(DefaultBranchProtected)
                 else if !isDefaultBranch && !Matches(branch, scope.allowedPatterns) then Some(BranchOutOfScope)
                 else None
  {}

  ghost predicate NoneFails(checks: seq<Check>) {
    forall k :: 0 <= k < |checks| ==> !checks[k].fails
  }

  /** The table, read from the top: the entries about the grant, then those about the request. */
  ghost function GrantEntries(c: seq<Check>): Option<Refusal>
    requires |c| == 14
  {
    if c[0].fails then Some(c[0].refusal)
    else if c[1].fails then Some(c[1].refusal)
    else if c[2].fails then Some(c[2].refusal)
    else if c[3].fails then Some(c[3].refusal)
    else if c[4].fails then Some(c[4].refusal)
    else if c[5].fails then Some(c[5].refusal)
    else None
  }

  ghost function CapabilityEntries(c: seq<Check>): Option<Refusal>
    requires |c| == 14
  {
    if c[6].fails then Some(c[6].refusal)
    else if c[7].fails then Some(c[7].refusal)
    else if c[8].fails then Some(c[8].refusal)
    else if c[9].fails then Some(c[9].refusal)
    else None
  }

  ghost function ScopeEntries(c: seq<Check>): Option<Refusal>
    requires |c| == 14
  {
    if c[10].fails then Some(c[10].refusal)
    else if c[11].fails then Some(c[11].refusal)
    else if c[12].fails then Some(c[12].refusal)
    else if c[13].fails then Some(c[13].refusal)
    else None
  }

  lemma TableIsExact(c: seq<Check>)
    requires |c| == 14
    ensures var r := OrElse(GrantEntries(c), OrElse(CapabilityEntries(c), ScopeEntries(c)));
            && (r.None? <==> NoneFails(c))
            && forall k: nat :: FirstFailure(c, k) ==> r == Some(c[k].refusal)
  {}

  lemma GrantEntriesAreChecked(grant: Grant, request: Request, now: int)
    ensures GrantEntries(Checks(grant, request, now))
              == if grant.principalId != request.principalId then Some(PrincipalMismatch) else CheckGrantStatus(grant, now)
  {}

  lemma CapabilityEntriesAreChecked(grant: Grant, request: Request, now: int)
    ensures CapabilityEntries(Checks(grant, request, now))
              == OrElse(CheckCapabilityMembership(grant, request.capability), CheckExecutionLimits(grant, request))
  {
    MembershipCheckIsExact(grant, request.capability);
    LimitsCheckIsExact(grant, request);
  }

  lemma MutationsAreSensitive(capability: string)
    ensures BranchSensitive(capability) <==> Mutates(capability)
  {}

  function CheckScopes(grant: Grant, request: Request): Option<Refusal> {
    OrElse(if request.repository.Some? then CheckRepositoryScope(grant.repositoryScope, request.repository.value) else None,
           if request.branch.Some? && BranchSensitive(request.capability)
           then CheckBranchScope(grant.branchScope, request.branch.value, request.isDefaultBranch) else None)
  }

  lemma RepositoryEntryIsChecked(grant: Grant, request: Request, now: int)
    ensures Checks(grant, request, now)[10]
              == Check(request.repository.Some? && CheckRepositoryScope(grant.repositoryScope, request.repository.value).Some?, RepositoryOutOfScope)
  {
    if request.repository.Some? { ScopeCheckIsExact(grant.repositoryScope, request.repository.value); }
  }

  lemma ScopeEntriesAreChecked(grant: Grant, request: Request, now: int)
    ensures ScopeEntries(Checks(grant, request, now)) == CheckScopes(grant, request)
  {
    RepositoryEntryIsChecked(grant, request, now);
    if request.repository.Some? { ScopeCheckIsExact(grant.repositoryScope, request.repository.value); }
    if request.branch.Some? { BranchCheckIsExact(grant.branchScope, request.branch.value, request.isDefaultBranch); }
    MutationsAreSensitive(request.capability);
  }

  /** The checks before the policy refuse for the first failing entry of the table, and let the request
      pass when none fails. */
  lemma RefusalsAreExact(grant: Grant, request: Request, now: int)
    ensures PreApproval(grant, request, now).None? <==> NoneFails(Checks(grant, request, now))
    ensures forall k: nat :: FirstFailure(Checks(grant, request, now), k) ==>
              PreApproval(grant, request, now) == Some(Checks(grant, request, now)[k].refusal)
  {
    TableIsExact(Checks(grant, request, now));
    GrantEntriesAreChecked(grant, request, now);
    CapabilityEntriesAreChecked(grant, request, now);
    ScopeEntriesAreChecked(grant, request, now);
  }

  // ----- the rule that applies

  /** The first rule with one of the names. */
  ghost predicate FirstNamed(rules: seq<ApprovalRule>, names: set<string>, i: nat) {
    i < |rules| && rules[i].name in names && forall j :: 0 <= j < i ==> rules[j].name !in names
  }

  ghost predicate NoneNamed(rules: seq<ApprovalRule>, names: set<string>) {
    forall j :: 0 <= j < |rules| ==> rules[j].name !in names
  }

  ghost predicate HighRisk(catalog: Catalog, capability: string) {
    (if capability in SANDBOX_NAMES then "symbolwright.sandbox.execute.offline" else capability) in catalog.highRisk
  }

  /** The rule that decides about a capability: the first one for the capability itself; without one,
      the first for high risk, if the capability is of high risk; without that, the first for all. */
  ghost predicate Applies(catalog: Catalog, rules: seq<ApprovalRule>, capability: string, i: nat) {
    if !NoneNamed(rules, NamesOf(capability)) then FirstNamed(rules, NamesOf(capability), i)
    else if HighRisk(catalog, capability) && !NoneNamed(rules, {"high-risk"}) then FirstNamed(rules, {"high-risk"}, i)
    else FirstNamed(rules, {"*"}, i)
  }

  /** The request gets as far as the approval policy. */
  ghost predicate Reaches(s: ServiceState, catalog: Catalog, request: Request, now: int) {
    && Canonical(request.capability) in catalog.known && request.grantId in s.grants
    && NoneFails(Checks(s.grants[request.grantId], request, now))
  }

  /** The requirement is enforced: no rule but one that asks for nothing lets the request pass without
      an approval. */
  ghost predicate Enforces(d: Decision, q: Requirement) {
    match q
    case NoApproval => d == AllowedWithoutApproval
    case DeniedByPolicy => d == RefusedByPolicy
    case NeedsApproval(_) => d.AllowedByApproval? || d.ApprovalRequired?
  }

  /** What looking for the first rule with some names gives. */
  ghost predicate Found(rules: seq<ApprovalRule>, names: set<string>, r: Option<Requirement>) {
    if NoneNamed(rules, names) then r == None
    else exists i: nat :: FirstNamed(rules, names, i) && r == Some(rules[i].requirement)
  }

  lemma {:induction false} FirstRuleIsFound(rules: seq<ApprovalRule>, names: seq<string>, all: set<string>)
    requires forall n :: n in names <==> n in all
    ensures Found(rules, all, FirstRule(rules, names))
  {
    if rules != [] {
      var rest := rules[1..];
      FirstRuleIsFound(rest, names, all);
      if rules[0].name in names {
        assert FirstNamed(rules, all, 0);
      } else if !NoneNamed(rest, all) {
        var i: nat :| FirstNamed(rest, all, i) && FirstRule(rest, names) == Some(rest[i].requirement);
        assert rules[i + 1] == rest[i];
        assert FirstNamed(rules, all, i + 1);
      }
    }
  }

  /** Every rule that applies decides, and if none does an approval is needed. */
  ghost predicate Decided(catalog: Catalog, rules: seq<ApprovalRule>, capability: string, q: Requirement) {
    && (forall i: nat :: Applies(catalog, rules, capability, i) ==> q == rules[i].requirement)
    && ((forall i: nat :: !Applies(catalog, rules, capability, i)) ==> q.NeedsApproval?)
  }

  lemma FoundDecides(catalog: Catalog, rules: seq<ApprovalRule>, capability: string,
                     exact: Option<Requirement>, risk: Option<Requirement>, all: Option<Requirement>)
    requires Found(rules, NamesOf(capability), exact) && Found(rules, {"high-risk"}, risk) && Found(rules, {"*"}, all)
    ensures Decided(catalog, rules, capability,
                    if exact.Some? then exact.value
                    else if HighRisk(catalog, capability) && risk.Some? then risk.value
                    else if all.Some? then all.value else NeedsApproval("every-high-risk-operation"))
  {}

  lemma RequirementIsApplied(catalog: Catalog, grant: Grant, capability: string)
    ensures Decided(catalog, grant.approvalRules, capability, MatchApprovalRequirement(catalog, grant, capability))
  {
    var rules := grant.approvalRules;
    AliasesAreNames(capability);
    FirstRuleIsFound(rules, Aliases(capability), NamesOf(capability));
    FirstRuleIsFound(rules, ["high-risk"], {"high-risk"});
    FirstRuleIsFound(rules, ["*"], {"*"});
    FoundDecides(catalog, rules, capability, FirstRule(rules, Aliases(capability)), FirstRule(rules, ["high-risk"]),
                 FirstRule(rules, ["*"]));
  }

  /** Of a request that passes the table, the rule that applies is enforced, whatever the other rules
      say; when none applies, it takes an approval. */
  lemma TheApplyingRuleDecides(s: ServiceState, catalog: Catalog, request: Request, freshId: string, now: int)
    requires Reaches(s, catalog, request, now)
    ensures var d, rules := Evaluate(s, catalog, request, freshId, now).1, s.grants[request.grantId].approvalRules;
            && (forall i: nat :: Applies(catalog, rules, request.capability, i) ==> Enforces(d, rules[i].requirement))
            && ((forall i: nat :: !Applies(catalog, rules, request.capability, i)) ==> d.AllowedByApproval? || d.ApprovalRequired?)
  {
    RefusalsAreExact(s.grants[request.grantId], request, now);
    RequirementIsApplied(catalog, s.grants[request.grantId], request.capability);
  }

  // ----- the approval it takes

  /** The approval was given for this very operation and can be used now. */
  ghost predicate Usable(a: Approval, status: ApprovalStatus, grant: Grant, request: Request, now: int) {
    && a.status == status && now < a.expiresAt
    && a.grantId == grant.id && a.key == KeyOf(request)
    && (a.grantVersion == None || a.grantVersion == Some(grant.version))
    && a.policyVersions == request.policyVersions
  }

  function KeyOf(r: Request): OperationKey {
    OperationKey(r.grantId, if r.capability in SANDBOX_NAMES then "symbolwright.sandbox.execute.offline" else r.capability,
                 if r.repository.None? then "" else r.repository.value,
                 if r.branch.None? then "" else r.branch.value,
                 if r.missionId.None? then "" else r.missionId.value,
                 r.policyVersions)
  }

  lemma BoundKeyIsKeyOf(request: Request)
    ensures BoundOperationKey(request) == KeyOf(request)
  {
    AliasesAreNames(request.capability);
  }

  ghost predicate FirstUsable(approvals: seq<Approval>, status: ApprovalStatus, grant: Grant, request: Request, now: int, i: nat) {
    && i < |approvals| && Usable(approvals[i], status, grant, request, now)
    && forall j :: 0 <= j < i ==> !Usable(approvals[j], status, grant, request, now)
  }

  ghost predicate NoneUsable(approvals: seq<Approval>, status: ApprovalStatus, grant: Grant, request: Request, now: int) {
    forall j :: 0 <= j < |approvals| ==> !Usable(approvals[j], status, grant, request, now)
  }

  lemma {:induction false} FirstBearingIsUsable(approvals: seq<Approval>, status: ApprovalStatus, grant: Grant, request: Request, now: int)
    ensures var r := FindBearing(approvals, status, grant, request, now);
            if r.None? then NoneUsable(approvals, status, grant, request, now)
            else FirstUsable(approvals, status, grant, request, now, r.value)
  {
    BoundKeyIsKeyOf(request);
    if approvals != [] {
      FirstBearingIsUsable(approvals[..|approvals| - 1], status, grant, request, now);
    }
  }

  /** The first approved one for the operation is used up and lets the request pass; without one the
      request waits, for the first pending one or for a new one that runs a day. Nothing else changes. */
  ghost predicate Takes(s: ServiceState, s': ServiceState, d: Decision, grant: Grant, request: Request, freshId: string, now: int) {
    var a := s.approvals;
    && s'.grants == s.grants
    && (d.AllowedByApproval? <==> !NoneUsable(a, Approved, grant, request, now))
    && (forall i: nat :: FirstUsable(a, Approved, grant, request, now, i) ==>
          d == AllowedByApproval(a[i].id) && s'.approvals == a[i := a[i].(status := Consumed)])
    && (NoneUsable(a, Approved, grant, request, now) ==>
          && (forall i: nat :: FirstUsable(a, Pending, grant, request, now, i) ==>
                d == ApprovalRequired(a[i].id) && s'.approvals == a)
          && (NoneUsable(a, Pending, grant, request, now) ==>
                && d == ApprovalRequired(freshId)
                && s'.approvals == a + [Approval(freshId, grant.id, KeyOf(request), Some(grant.version), request.policyVersions,
                                                now, now + 86_400_000, Pending)]))
  }

  lemma PolicyTakes(s: ServiceState, catalog: Catalog, grant: Grant, request: Request, freshId: string, now: int)
    requires MatchApprovalRequirement(catalog, grant, request.capability).NeedsApproval?
    ensures var (s', d) := CheckApprovalPolicy(s, catalog, grant, request, freshId, now);
            Takes(s, s', d, grant, request, freshId, now)
  {
    FirstBearingIsUsable(s.approvals, Approved, grant, request, now);
    FirstBearingIsUsable(s.approvals, Pending, grant, request, now);
    BoundKeyIsKeyOf(request);
  }

  /** Where an approval is needed, it is taken so. */
  lemma ApprovalIsTaken(s: ServiceState, catalog: Catalog, request: Request, freshId: string, now: int)
    requires var d := Evaluate(s, catalog, request, freshId, now).1; d.AllowedByApproval? || d.ApprovalRequired?
    ensures request.grantId in s.grants
    ensures var (s', d) := Evaluate(s, catalog, request, freshId, now);
            Takes(s, s', d, s.grants[request.grantId], request, freshId, now)
  {
    var grant := s.grants[request.grantId];
    if MatchApprovalRequirement(catalog, grant, request.capability).NeedsApproval? {
      PolicyTakes(s, catalog, grant, request, freshId, now);
    }
  }

  /** A refused request changes nothing, except that a grant found past its end is kept as expired; an
      allowed one changes no grant. */
  lemma RefusedRequestsChangeNothing(s: ServiceState, catalog: Catalog, request: Request, freshId: string, now: int)
    ensures var (s', d) := Evaluate(s, catalog, request, freshId, now);
            match d
            case Refused(GrantExpired) =>
              && request.grantId in s.grants
              && s' == s.(grants := s.grants[request.grantId := s.grants[request.grantId].(status := ExpiredGrant)])
            case AllowedByApproval(_) => s'.grants == s.grants
            case ApprovalRequired(_) => s'.grants == s.grants
            case _ => s' == s
  {}

  /** Before the policy: an unknown capability, then an unknown grant, then the first failing entry of
      the table is what refuses the request. */
  lemma TheTableRefuses(s: ServiceState, catalog: Catalog, request: Request, freshId: string, now: int)
    ensures var d := Evaluate(s, catalog, request, freshId, now).1;
            if Canonical(request.capability) !in catalog.known then d == Refused(UnknownCapability)
            else if request.grantId !in s.grants then d == Refused(GrantNotFound)
            else
              var checks := Checks(s.grants[request.grantId], request, now);
              && (NoneFails(checks) <==> !d.Refused?)
              && forall k: nat :: FirstFailure(checks, k) ==> d == Refused(checks[k].refusal)
  {
    if request.grantId in s.grants {
      RefusalsAreExact(s.grants[request.grantId], request, now);
    }
  }
}
