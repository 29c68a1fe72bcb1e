/** Where an approval comes from (src/access/authorization-service.ts): in every run of the service, what
    is authorised through an approval was asked for as the very same operation, and an operator then
    approved it in time. */
module ApprovalProvenance {
  import opened Options
  import opened AccessTypes
  import opened Authorization
  import opened AuthorizationDecisions
  import opened ApprovalRuns

  const DAY_MS := 86_400_000

  // ----- the operator's decision

  ghost predicate FirstWithId(approvals: seq<Approval>, id: string, i: nat) {
    i < |approvals| && approvals[i].id == id && forall j :: 0 <= j < i ==> approvals[j].id != id
  }

  lemma {:induction false} FindApprovalIsFirst(approvals: seq<Approval>, id: string)
    ensures var r := FindApproval(approvals, id); r.Some? ==> FirstWithId(approvals, id, r.value)
  {
    if approvals != [] {
      FindApprovalIsFirst(approvals[..|approvals| - 1], id);
    }
  }

  /** What the decision does to the approvals: the first one with the id is approved or denied, as the
      operator says, if it belongs to the grant, waits and has not run out; one that has run out is
      marked so; nothing else changes. */
  lemma OperatorDecides(s: ServiceState, grantId: string, id: string, approve: bool, now: int)
    ensures var (s', r) := DecideApproval(s, grantId, id, approve, now);
            && s'.grants == s.grants
            && ((forall j :: 0 <= j < |s.approvals| ==> s.approvals[j].id != id) ==> r == ApprovalNotFound && s' == s)
            && forall i: nat :: FirstWithId(s.approvals, id, i) ==>
                 var a, b := s.approvals[i], s'.approvals;
                 if a.grantId != grantId then r == ApprovalNotFound && s' == s
                 else if a.status in {Approved, Denied, Expired, Consumed} then r == AlreadyDecided && s' == s
                 else if now >= a.expiresAt then r == ApprovalExpired && b == s.approvals[i := a.(status := Expired)]
                 else if approve then r == Decided(b[i]) && b == s.approvals[i := a.(status := Approved)]
                 else r == Decided(b[i]) && b == s.approvals[i := a.(status := Denied)]
  {
    FindApprovalIsFirst(s.approvals, id);
  }

  // ----- whole runs

  /** The operation asks for this approval, whatever became of it since. */
  ghost predicate Asks(s: ServiceState, op: Op, e: Effect, a: Approval) {
    && op.EvaluateOp? && op.request.grantId in s.grants && e == Evaluated(op.request, ApprovalRequired(a.id))
    && var r, g := op.request, s.grants[op.request.grantId];
    && a == Approval(op.freshId, g.id, KeyOf(r), Some(g.version), r.policyVersions, op.now, op.now + DAY_MS, a.status)
  }

  ghost predicate AskedAt(catalog: Catalog, grants: map<string, Grant>, ops: seq<Op>, i: nat, a: Approval) {
    i < |ops| && var s := Run(catalog, grants, ops[..i]); Asks(s, ops[i], Apply(s, catalog, ops[i]).1, a)
  }

  /** The j-th operation was the operator's approval of it, in time. */
  ghost predicate ApprovedAt(catalog: Catalog, grants: map<string, Grant>, ops: seq<Op>, j: nat, a: Approval) {
    && j < |ops| && ops[j].DecideOp? && ops[j] == DecideOp(a.grantId, a.id, true, ops[j].at) && ops[j].at < a.expiresAt
    && Apply(Run(catalog, grants, ops[..j]), catalog, ops[j]).1 == DecisionMade(Decided(a.(status := Approved)))
  }

  ghost predicate HasHistory(catalog: Catalog, grants: map<string, Grant>, ops: seq<Op>, a: Approval, i: nat, j: nat) {
    && AskedAt(catalog, grants, ops, i, a)
    && (a.status in {Approved, Consumed} ==> i < j && ApprovedAt(catalog, grants, ops, j, a))
  }

  lemma HistoryGrows(catalog: Catalog, grants: map<string, Grant>, ops: seq<Op>, op: Op, a: Approval, i: nat, j: nat)
    requires HasHistory(catalog, grants, ops, a, i, j)
    ensures HasHistory(catalog, grants, ops + [op], a, i, j)
  {
    assert (ops + [op])[..i] == ops[..i];
    if a.status in {Approved, Consumed} {
      assert (ops + [op])[..j] == ops[..j];
    }
  }

  /** What one operation does to an approval: it stays, or its status moves. */
  lemma StepMoves(s: ServiceState, catalog: Catalog, op: Op, k: nat)
    requires k < |s.approvals|
    ensures var s' := Apply(s, catalog, op).0;
            && k < |s'.approvals|
            && var a, b := s.approvals[k], s'.approvals[k];
            && b == a.(status := b.status)
            && (b.status == Consumed ==> a.status in {Consumed, Approved})
            && (b.status == Approved && a.status != Approved ==>
                  && op.DecideOp? && op == DecideOp(a.grantId, a.id, true, op.at) && op.at < a.expiresAt
                  && Apply(s, catalog, op).1 == DecisionMade(Decided(b)))
  {
    if op.DecideOp? {
      OperatorDecides(s, op.grantId, op.approvalId, op.approve, op.at);
    } else if op.EvaluateOp? {
      EvaluateMoves(s, catalog, op.request, op.freshId, op.now, k);
    }
  }

  lemma EvaluateMoves(s: ServiceState, catalog: Catalog, request: Request, freshId: string, now: int, k: nat)
    requires k < |s.approvals|
    ensures var s' := Evaluate(s, catalog, request, freshId, now).0;
            && k < |s'.approvals|
            && (s'.approvals[k] == s.approvals[k]
                || (s.approvals[k].status == Approved && s'.approvals[k] == s.approvals[k].(status := Consumed)))
  {}

  lemma StepAsks(s: ServiceState, catalog: Catalog, op: Op, k: nat)
    requires |s.approvals| <= k < |Apply(s, catalog, op).0.approvals|
    ensures var (s', e) := Apply(s, catalog, op); Asks(s, op, e, s'.approvals[k]) && s'.approvals[k].status == Pending
  {
    if op.EvaluateOp? { BoundKeyIsKeyOf(op.request); }
  }

  lemma HistoryMoves(catalog: Catalog, grants: map<string, Grant>, ops: seq<Op>, op: Op, k: nat, i: nat, j: nat) returns (j': nat)
    requires k < |Run(catalog, grants, ops).approvals|
    requires HasHistory(catalog, grants, ops, Run(catalog, grants, ops).approvals[k], i, j)
    ensures var s' := Apply(Run(catalog, grants, ops), catalog, op).0;
            k < |s'.approvals| && HasHistory(catalog, grants, ops + [op], s'.approvals[k], i, j')
  {
    var s := Run(catalog, grants, ops);
    StepMoves(s, catalog, op, k);
    var a, b := s.approvals[k], Apply(s, catalog, op).0.approvals[k];
    HistoryGrows(catalog, grants, ops, op, a, i, j);
    j' := j;
    if b.status == Approved && a.status != Approved {
      j' := |ops|;
      assert (ops + [op])[..j'] == ops;
    }
  }

  lemma HistoryBegins(catalog: Catalog, grants: map<string, Grant>, ops: seq<Op>, op: Op, k: nat)
    requires var s := Run(catalog, grants, ops); |s.approvals| <= k < |Apply(s, catalog, op).0.approvals|
    ensures HasHistory(catalog, grants, ops + [op], Apply(Run(catalog, grants, ops), catalog, op).0.approvals[k], |ops|, |ops|)
  {
    StepAsks(Run(catalog, grants, ops), catalog, op, k);
    assert (ops + [op])[..|ops|] == ops;
  }

  /** Every approval of a run was asked for by one request of it, and every approved or used one was
      then approved by the operator. */
  lemma {:induction false} EveryApprovalHasAHistory(catalog: Catalog, grants: map<string, Grant>, ops: seq<Op>, k: nat)
      returns (i: nat, j: nat)
    requires k < |Run(catalog, grants, ops).approvals|
    ensures HasHistory(catalog, grants, ops, Run(catalog, grants, ops).approvals[k], i, j)
  {
    var n := |ops| - 1;
    var front, op := ops[..n], ops[n];
    assert ops == front + [op];
    if k < |Run(catalog, grants, front).approvals| {
      i, j := EveryApprovalHasAHistory(catalog, grants, front, k);
      j := HistoryMoves(catalog, grants, front, op, k, i, j);
    } else {
      HistoryBegins(catalog, grants, front, op, k);
      i, j := n, n;
    }
  }

  ghost predicate SameOperation(a: Request, b: Request) {
    && a.grantId == b.grantId && NamesOf(a.capability) == NamesOf(b.capability)
    && (a.repository == b.repository || {a.repository, b.repository} == {None, Some("")})
    && (a.branch == b.branch || {a.branch, b.branch} == {None, Some("")})
    && (a.missionId == b.missionId || {a.missionId, b.missionId} == {None, Some("")})
    && a.policyVersions == b.policyVersions
  }

  lemma SameKeySameOperation(a: Request, b: Request)
    requires KeyOf(a) == KeyOf(b)
    ensures SameOperation(a, b)
  {}

  /** Whatever an approval authorises was asked for before: the same operation, under the same grant and
      version of it, at most a day ago; and between then and now an operator approved it. */
  lemma AuthorisedOperationWasApproved(catalog: Catalog, grants: map<string, Grant>, ops: seq<Op>,
                                       request: Request, freshId: string, now: int) returns (i: nat, j: nat)
    requires Evaluate(Run(catalog, grants, ops), catalog, request, freshId, now).1.AllowedByApproval?
    ensures i < j < |ops| && ops[i].EvaluateOp? && ops[j].DecideOp? && ops[j].approve
    ensures SameOperation(ops[i].request, request) && now < ops[i].now + DAY_MS && ops[j].at < ops[i].now + DAY_MS
    ensures var s, asked := Run(catalog, grants, ops), Run(catalog, grants, ops[..i]);
            && request.grantId in s.grants && request.grantId in asked.grants
            && s.grants[request.grantId].id == asked.grants[request.grantId].id == ops[j].grantId
            && s.grants[request.grantId].version == asked.grants[request.grantId].version
    ensures var id := Evaluate(Run(catalog, grants, ops), catalog, request, freshId, now).1.approvalId;
            && Apply(Run(catalog, grants, ops[..i]), catalog, ops[i]).1 == Evaluated(ops[i].request, ApprovalRequired(id))
            && ops[j].approvalId == id
  {
    var s := Run(catalog, grants, ops);
    var grant := s.grants[request.grantId];
    var k := FindBearing(s.approvals, Approved, grant, request, now).value;
    i, j := EveryApprovalHasAHistory(catalog, grants, ops, k);
    BoundKeyIsKeyOf(request);
    SameKeySameOperation(ops[i].request, request);
  }
}
