/** What approvals guarantee over whole runs of the authorisation service: each operator approval
    authorises at most one operation, closed approvals stay closed, and at most one live request
    for approval exists per operation and grant version. */
module ApprovalRuns {
  import opened Options
  import opened AccessTypes
  import opened Authorization

  /** Grants may change in any way between requests. */
  datatype Op =
    | EvaluateOp(request: Request, freshId: string, now: int)
    | DecideOp(grantId: string, approvalId: string, approve: bool, at: int)
    | GrantsChange(grants: map<string, Grant>)

  datatype Effect = Evaluated(request: Request, decision: Decision) | DecisionMade(result: DecideResult) | Other

  function Apply(s: ServiceState, catalog: Catalog, op: Op): (ServiceState, Effect) {
    match op
    case EvaluateOp(request, freshId, now) =>
      var (s', d) := Evaluate(s, catalog, request, freshId, now);
      (s', Evaluated(request, d))
    case DecideOp(grantId, approvalId, approve, now) =>
      var (s', r) := DecideApproval(s, grantId, approvalId, approve, now);
      (s', DecisionMade(r))
    case GrantsChange(grants) => (s.(grants := grants), Other)
  }

  function Run(catalog: Catalog, grants: map<string, Grant>, ops: seq<Op>): ServiceState {
    if ops == [] then ServiceState(grants, [])
    else Apply(Run(catalog, grants, ops[..|ops| - 1]), catalog, ops[|ops| - 1]).0
  }

  // ----- counting

  predicate ApprovesKey(e: Effect, key: OperationKey) {
    e.DecisionMade? && e.result.Decided? && e.result.approval.status == Approved && e.result.approval.key == key
  }

  predicate UsesKey(e: Effect, key: OperationKey) {
    e.Evaluated? && e.decision.AllowedByApproval? && BoundOperationKey(e.request) == key
  }

  /** Operator approvals of the key during the run. */
  function ApprovalsOf(catalog: Catalog, grants: map<string, Grant>, ops: seq<Op>, key: OperationKey): nat {
    if ops == [] then 0
    else
      var front := ops[..|ops| - 1];
      ApprovalsOf(catalog, grants, front, key)
      + if ApprovesKey(Apply(Run(catalog, grants, front), catalog, ops[|ops| - 1]).1, key) then 1 else 0
  }

  /** Operations of the key authorised through an approval during the run. */
  function UsesOf(catalog: Catalog, grants: map<string, Grant>, ops: seq<Op>, key: OperationKey): nat {
    if ops == [] then 0
    else
      var front := ops[..|ops| - 1];
      UsesOf(catalog, grants, front, key)
      + if UsesKey(Apply(Run(catalog, grants, front), catalog, ops[|ops| - 1]).1, key) then 1 else 0
  }

  predicate Unused(a: Approval, key: OperationKey) {
    a.status == Approved && a.key == key
  }

  /** Approvals of the key granted and not used yet. */
  function UnusedOf(approvals: seq<Approval>, key: OperationKey): nat {
    if approvals == [] then 0
    else UnusedOf(approvals[..|approvals| - 1], key) + if Unused(approvals[|approvals| - 1], key) then 1 else 0
  }

  lemma {:induction false} UnusedUpdate(approvals: seq<Approval>, i: nat, a: Approval, key: OperationKey)
    requires i < |approvals|
    ensures UnusedOf(approvals[i := a], key) + (if Unused(approvals[i], key) then 1 else 0)
            == UnusedOf(approvals, key) + (if Unused(a, key) then 1 else 0)
  {
    var n := |approvals| - 1;
    if i == n {
      assert approvals[i := a][..n] == approvals[..n];
    } else {
      assert approvals[i := a][..n] == approvals[..n][i := a];
      UnusedUpdate(approvals[..n], i, a, key);
    }
  }

  lemma EvaluateBalance(s: ServiceState, catalog: Catalog, request: Request, freshId: string, now: int, key: OperationKey)
    ensures var (s', d) := Evaluate(s, catalog, request, freshId, now);
            UnusedOf(s'.approvals, key) + (if UsesKey(Evaluated(request, d), key) then 1 else 0) == UnusedOf(s.approvals, key)
  {
    var (s', d) := Evaluate(s, catalog, request, freshId, now);
    if d.AllowedByApproval? {
      var grant := s.grants[request.grantId];
      var i := FindBearing(s.approvals, Approved, grant, request, now).value;
      assert s'.approvals == s.approvals[i := s.approvals[i].(status := Consumed)];
      UnusedUpdate(s.approvals, i, s.approvals[i].(status := Consumed), key);
    } else if s'.approvals != s.approvals {
      assert s'.approvals[..|s.approvals|] == s.approvals;
    }
  }

  lemma DecideBalance(s: ServiceState, grantId: string, approvalId: string, approve: bool, now: int, key: OperationKey)
    ensures var (s', r) := DecideApproval(s, grantId, approvalId, approve, now);
            UnusedOf(s'.approvals, key) == UnusedOf(s.approvals, key) + (if ApprovesKey(DecisionMade(r), key) then 1 else 0)
  {
    var (s', r) := DecideApproval(s, grantId, approvalId, approve, now);
    if s'.approvals != s.approvals {
      var i := FindApproval(s.approvals, approvalId).value;
      UnusedUpdate(s.approvals, i, s'.approvals[i], key);
    }
  }

  /** Conservation of approvals: for each operation key, in any run, the operator's approvals are
      the authorisations given through them plus the approvals still unused. */
  lemma {:induction false} ApprovalsAreConserved(catalog: Catalog, grants: map<string, Grant>, ops: seq<Op>, key: OperationKey)
    ensures ApprovalsOf(catalog, grants, ops, key)
            == UsesOf(catalog, grants, ops, key) + UnusedOf(Run(catalog, grants, ops).approvals, key)
  {
    if ops != [] {
      var front, op := ops[..|ops| - 1], ops[|ops| - 1];
      ApprovalsAreConserved(catalog, grants, front, key);
      var s := Run(catalog, grants, front);
      match op {
        case EvaluateOp(request, freshId, now) => EvaluateBalance(s, catalog, request, freshId, now, key);
        case DecideOp(grantId, approvalId, approve, now) => DecideBalance(s, grantId, approvalId, approve, now, key);
        case GrantsChange(_) =>
      }
    }
  }

  /** Approvals are single-use: no key is authorised through approval more often than it was approved. */
  lemma ApprovalsAreSingleUse(catalog: Catalog, grants: map<string, Grant>, ops: seq<Op>, key: OperationKey)
    ensures UsesOf(catalog, grants, ops, key) <= ApprovalsOf(catalog, grants, ops, key)
  {
    ApprovalsAreConserved(catalog, grants, ops, key);
  }

  // ----- absorbing states and frozen authority

  predicate Closed(status: ApprovalStatus) {
    status == Denied || status == Expired || status == Consumed
  }

  /** Only the status of an approval changes, and only forwards. */
  ghost predicate Forward(a: Approval, b: Approval) {
    && b == a.(status := b.status)
    && (Closed(a.status) ==> b.status == a.status)
    && (a.status == Approved ==> b.status == Approved || b.status == Consumed)
    && (b.status == Pending ==> a.status == Pending)
  }

  ghost predicate AllForward(a: seq<Approval>, b: seq<Approval>) {
    |a| <= |b| && forall i :: 0 <= i < |a| ==> Forward(a[i], b[i])
  }

  lemma ApplyIsForward(s: ServiceState, catalog: Catalog, op: Op)
    ensures AllForward(s.approvals, Apply(s, catalog, op).0.approvals)
  {}

  /** Denied, expired and consumed are absorbing, from any point of a run to any later one. */
  lemma {:induction false} ApprovalsOnlyMoveForward(catalog: Catalog, grants: map<string, Grant>, ops: seq<Op>, n: nat)
    requires n <= |ops|
    ensures AllForward(Run(catalog, grants, ops[..n]).approvals, Run(catalog, grants, ops).approvals)
    decreases |ops|
  {
    if n == |ops| {
      assert ops[..n] == ops;
    } else {
      var front := ops[..|ops| - 1];
      ApprovalsOnlyMoveForward(catalog, grants, front, n);
      assert front[..n] == ops[..n];
      ApplyIsForward(Run(catalog, grants, front), catalog, ops[|ops| - 1]);
    }
  }

  /** Every approval of a run carries the grant version and the policy versions it was asked for. */
  ghost predicate Snapshot(a: Approval) {
    a.grantVersion.Some? && a.policyVersions == a.key.policyVersions && a.grantId == a.key.grantId
  }

  ghost predicate Keyed(s: ServiceState) {
    forall id :: id in s.grants ==> s.grants[id].id == id
  }

  ghost predicate KeyedOps(ops: seq<Op>) {
    forall i, id :: 0 <= i < |ops| && ops[i].GrantsChange? && id in ops[i].grants ==> ops[i].grants[id].id == id
  }

  ghost predicate Snapshots(s: ServiceState) {
    Keyed(s) && forall i :: 0 <= i < |s.approvals| ==> Snapshot(s.approvals[i])
  }

  lemma {:induction false} RunSnapshots(catalog: Catalog, grants: map<string, Grant>, ops: seq<Op>)
    requires KeyedOps(ops) && forall id :: id in grants ==> grants[id].id == id
    ensures Snapshots(Run(catalog, grants, ops))
  {
    if ops != [] {
      var front, op := ops[..|ops| - 1], ops[|ops| - 1];
      RunSnapshots(catalog, grants, front);
      StepSnapshots(Run(catalog, grants, front), catalog, op);
    }
  }

  lemma StepSnapshots(s: ServiceState, catalog: Catalog, op: Op)
    requires Snapshots(s) && (op.GrantsChange? ==> forall id :: id in op.grants ==> op.grants[id].id == id)
    ensures Snapshots(Apply(s, catalog, op).0)
  {
    match op {
      case EvaluateOp(request, freshId, now) => EvaluateSnapshots(s, catalog, request, freshId, now);
      case _ =>
    }
  }

  lemma EvaluateSnapshots(s: ServiceState, catalog: Catalog, request: Request, freshId: string, now: int)
    requires Snapshots(s)
    ensures Snapshots(Evaluate(s, catalog, request, freshId, now).0)
  {}

  /** An approval authorises only while it is unexpired and the grant and policy versions are those
      it was asked under, and it is consumed by doing so. */
  lemma ApprovalNeverOutlivesItsAuthority(catalog: Catalog, grants: map<string, Grant>, ops: seq<Op>,
                                          request: Request, freshId: string, now: int)
    requires KeyedOps(ops) && forall id :: id in grants ==> grants[id].id == id
    requires Evaluate(Run(catalog, grants, ops), catalog, request, freshId, now).1.AllowedByApproval?
    ensures var s := Run(catalog, grants, ops);
            var (s', d) := Evaluate(s, catalog, request, freshId, now);
            && request.grantId in s.grants
            && exists i :: 0 <= i < |s.approvals| && s.approvals[i].id == d.approvalId
                 && s.approvals[i].status == Approved && s.approvals[i].expiresAt > now
                 && s.approvals[i].key == BoundOperationKey(request)
                 && s.approvals[i].grantVersion == Some(s.grants[request.grantId].version)
                 && s.approvals[i].policyVersions == request.policyVersions
                 && s'.approvals == s.approvals[i := s.approvals[i].(status := Consumed)]
  {
    RunSnapshots(catalog, grants, ops);
    var s := Run(catalog, grants, ops);
    var i := FindBearing(s.approvals, Approved, s.grants[request.grantId], request, now).value;
    assert Snapshot(s.approvals[i]);
  }

  // ----- at most one live request for approval

  ghost predicate SameRequestFor(a: Approval, b: Approval) {
    a.key == b.key && a.grantVersion == b.grantVersion
  }

  /** Of two approvals for the same operation and grant version, the earlier had been decided or had
      run out when the later was asked for. */
  ghost predicate Serial(approvals: seq<Approval>, clock: int) {
    && (forall j :: 0 <= j < |approvals| ==> approvals[j].createdAt <= clock)
    && (forall i, j :: 0 <= i < j < |approvals| && SameRequestFor(approvals[i], approvals[j]) ==>
          approvals[i].status != Pending || approvals[i].expiresAt <= approvals[j].createdAt)
  }

  function TimeOf(op: Op, clock: int): int {
    match op
    case EvaluateOp(_, _, now) => now
    case DecideOp(_, _, _, at) => at
    case GrantsChange(_) => clock
  }

  /** The clock after the run. */
  function ClockAfter(ops: seq<Op>, start: int): int {
    if ops == [] then start else TimeOf(ops[|ops| - 1], ClockAfter(ops[..|ops| - 1], start))
  }

  ghost predicate MonotoneClock(ops: seq<Op>, start: int) {
    ops != [] ==>
      && MonotoneClock(ops[..|ops| - 1], start)
      && ClockAfter(ops[..|ops| - 1], start) <= ClockAfter(ops, start)
  }

  lemma AskedOnce(s: ServiceState, grant: Grant, request: Request, freshId: string, now: int, clock: int)
    requires Snapshots(s) && Serial(s.approvals, clock) && clock <= now && grant.id == request.grantId
    requires FindBearing(s.approvals, Pending, grant, request, now).None?
    ensures Serial(s.approvals + [NewApproval(grant, request, freshId, now)], now)
  {
    var a := NewApproval(grant, request, freshId, now);
    forall i | 0 <= i < |s.approvals| && SameRequestFor(s.approvals[i], a)
      ensures s.approvals[i].status != Pending || s.approvals[i].expiresAt <= a.createdAt
    {
      assert !Bears(s.approvals[i], Pending, grant, request, now);
      assert Snapshot(s.approvals[i]);
    }
  }

  lemma ForwardKeepsSerial(a: seq<Approval>, b: seq<Approval>, clock: int, now: int)
    requires Serial(a, clock) && clock <= now && |a| == |b| && AllForward(a, b)
    ensures Serial(b, now)
  {
    forall i, j | 0 <= i < j < |b| && SameRequestFor(b[i], b[j])
      ensures b[i].status != Pending || b[i].expiresAt <= b[j].createdAt
    {
      assert Forward(a[i], b[i]) && Forward(a[j], b[j]);
      assert SameRequestFor(a[i], a[j]);
    }
  }

  lemma {:induction false} RunIsSerial(catalog: Catalog, grants: map<string, Grant>, ops: seq<Op>, start: int)
    requires KeyedOps(ops) && (forall id :: id in grants ==> grants[id].id == id) && MonotoneClock(ops, start)
    ensures Serial(Run(catalog, grants, ops).approvals, ClockAfter(ops, start))
  {
    if ops != [] {
      var front, op := ops[..|ops| - 1], ops[|ops| - 1];
      RunIsSerial(catalog, grants, front, start);
      RunSnapshots(catalog, grants, front);
      StepIsSerial(Run(catalog, grants, front), catalog, op, ClockAfter(front, start));
    }
  }

  lemma StepIsSerial(s: ServiceState, catalog: Catalog, op: Op, clock: int)
    requires Snapshots(s) && Serial(s.approvals, clock) && clock <= TimeOf(op, clock)
    ensures Serial(Apply(s, catalog, op).0.approvals, TimeOf(op, clock))
  {
    var s' := Apply(s, catalog, op).0;
    ApplyIsForward(s, catalog, op);
    if |s'.approvals| == |s.approvals| {
      ForwardKeepsSerial(s.approvals, s'.approvals, clock, TimeOf(op, clock));
    } else {
      AskedOnce(s, s.grants[op.request.grantId], op.request, op.freshId, op.now, clock);
    }
  }

  /** At most one live pending approval exists per operation key and grant version, under a clock
      that never runs backwards. */
  lemma OneLivePendingApproval(catalog: Catalog, grants: map<string, Grant>, ops: seq<Op>, start: int, now: int, i: nat, j: nat)
    requires KeyedOps(ops) && (forall id :: id in grants ==> grants[id].id == id) && MonotoneClock(ops, start)
    requires ClockAfter(ops, start) <= now
    requires var approvals := Run(catalog, grants, ops).approvals;
             && i < |approvals| && j < |approvals| && SameRequestFor(approvals[i], approvals[j])
             && approvals[i].status == Pending && approvals[i].expiresAt > now
             && approvals[j].status == Pending && approvals[j].expiresAt > now
    ensures i == j
  {
    RunIsSerial(catalog, grants, ops, start);
  }
}
