/** The device authorisation flow (src/access/device-authorization-service.ts), after section 3.5 of
    RFC 8628. Clocks, generated codes and the outcome of creating the grant are parameters; times
    are milliseconds. */
module DeviceAuthorization {
  import opened Options

  datatype DeviceStatus = Pending | Approved | Denied | Expired | Consumed

  datatype Device = Device(code: string, userCode: string, expiresAt: int, status: DeviceStatus, grantId: string)

  datatype Handoff = Handoff(token: string, expiresAt: int)

  /** What creating the grant gave: its id and, unless it has none, the token in plain text. */
  datatype NewGrant = NewGrant(grantId: string, token: Option<string>)

  datatype FlowState = FlowState(devices: seq<Device>, handoffs: map<string, Handoff>, lastPoll: map<string, int>)

  datatype PollResult = AuthorizationPending | SlowDown | AccessDenied | ExpiredToken | Ok(token: string, grantId: string)

  datatype DecisionResult = NotFound | NotPending | Overdue | GrantRefused | Decided

  const EXPIRY_MS := 600 * 1000
  const POLL_INTERVAL_MS := 5 * 1000
  const HANDOFF_TTL_MS := 5 * 60 * 1000

  function FindByCode(devices: seq<Device>, code: string): (r: Option<nat>)
    ensures r.Some? ==> r.value < |devices| && devices[r.value].code == code
    ensures r.None? ==> forall i :: 0 <= i < |devices| ==> devices[i].code != code
  {
    if devices == [] then None
    else
      var front := FindByCode(devices[..|devices| - 1], code);
      if front.Some? then front else if devices[|devices| - 1].code == code then Some(|devices| - 1) else None
  }

  function FindByUserCode(devices: seq<Device>, userCode: string): (r: Option<nat>)
    ensures r.Some? ==> r.value < |devices| && devices[r.value].userCode == userCode
  {
    if devices == [] then None
    else
      var front := FindByUserCode(devices[..|devices| - 1], userCode);
      if front.Some? then front else if devices[|devices| - 1].userCode == userCode then Some(|devices| - 1) else None
  }

  function RequestDevice(s: FlowState, code: string, userCode: string, now: int): FlowState {
    s.(devices := s.devices + [Device(code, userCode, now + EXPIRY_MS, Pending, "")])
  }

  function SetStatus(s: FlowState, i: nat, d: Device): FlowState
    requires i < |s.devices|
  {
    s.(devices := s.devices[i := d])
  }

  /** The record may be decided: it exists, is pending and has not run out. */
  function CheckDecidable(s: FlowState, userCode: string, now: int): DecisionResult {
    var i := FindByUserCode(s.devices, userCode);
    if i.None? then NotFound
    else if s.devices[i.value].status != Pending then NotPending
    else if s.devices[i.value].expiresAt <= now then Overdue
    else Decided
  }

  function Approve(s: FlowState, userCode: string, created: Option<NewGrant>, now: int): (FlowState, DecisionResult) {
    var check := CheckDecidable(s, userCode, now);
    if check != Decided then (s, check)
    else if created.None? then (s, GrantRefused)
    else
      var i := FindByUserCode(s.devices, userCode).value;
      var d, g := s.devices[i], created.value;
      var s' := SetStatus(s, i, d.(status := Approved, grantId := g.grantId));
      (if g.token.Some? then s'.(handoffs := s'.handoffs[d.code := Handoff(g.token.value, now + HANDOFF_TTL_MS)]) else s', Decided)
  }

  function Deny(s: FlowState, userCode: string, now: int): (FlowState, DecisionResult) {
    var check := CheckDecidable(s, userCode, now);
    if check != Decided then (s, check)
    else
      var i := FindByUserCode(s.devices, userCode).value;
      (SetStatus(s, i, s.devices[i].(status := Denied)), Decided)
  }

  /** The client is waiting for this code: the states the poll interval applies to. */
  predicate Waits(d: Device, now: int) {
    d.status == Approved || (d.status == Pending && now < d.expiresAt)
  }

  function Poll(s: FlowState, code: string, now: int): (FlowState, PollResult) {
    var i := FindByCode(s.devices, code);
    if i.None? then (s, AccessDenied)
    else
      var d := s.devices[i.value];
      if d.expiresAt <= now && d.status == Pending then (SetStatus(s, i.value, d.(status := Expired)), ExpiredToken)
      else if d.status == Denied || d.status == Expired || d.status == Consumed then (s, AccessDenied)
      else
        var s' := s.(lastPoll := s.lastPoll[code := now]);
        if code in s.lastPoll && now - s.lastPoll[code] < POLL_INTERVAL_MS then (s', SlowDown)
        else if d.status == Pending then (s', AuthorizationPending)
        else if code !in s.handoffs || s.handoffs[code].expiresAt <= now then (s', AccessDenied)
        else
          (SetStatus(s', i.value, d.(status := Consumed)).(handoffs := s.handoffs - {code}), Ok(s.handoffs[code].token, d.grantId))
  }

  class DeviceAuthorizationService {
    var devices: seq<Device>
    var handoffs: map<string, Handoff>
    var lastPoll: map<string, int>

    constructor ()
      ensures State() == FlowState([], map[], map[])
    {
      devices, handoffs, lastPoll := [], map[], map[];
    }

    ghost function State(): FlowState
      reads this
    {
      FlowState(devices, handoffs, lastPoll)
    }

    method RequestDeviceAuthorization(code: string, userCode: string, now: int)
      modifies this`devices
      ensures State() == RequestDevice(old(State()), code, userCode, now)
    {
      devices := devices + [Device(code, userCode, now + EXPIRY_MS, Pending, "")];
    }

    method ApproveDevice(userCode: string, created: Option<NewGrant>, now: int) returns (result: DecisionResult)
      modifies this`devices, this`handoffs
      ensures (State(), result) == Approve(old(State()), userCode, created, now)
    {
      var i := FindByUserCode(devices, userCode);
      if i.None? { return NotFound; }
      var d := devices[i.value];
      if d.status != Pending { return NotPending; }
      if d.expiresAt <= now { return Overdue; }
      if created.None? { return GrantRefused; }
      devices := devices[i.value := d.(status := Approved, grantId := created.value.grantId)];
      if created.value.token.Some? {
        handoffs := handoffs[d.code := Handoff(created.value.token.value, now + HANDOFF_TTL_MS)];
      }
      result := Decided;
    }

    method DenyDevice(userCode: string, now: int) returns (result: DecisionResult)
      modifies this`devices
      ensures (State(), result) == Deny(old(State()), userCode, now)
    {
      var i := FindByUserCode(devices, userCode);
      if i.None? { return NotFound; }
      var d := devices[i.value];
      if d.status != Pending { return NotPending; }
      if d.expiresAt <= now { return Overdue; }
      devices := devices[i.value := d.(status := Denied)];
      result := Decided;
    }

    method PollDevice(code: string, now: int) returns (result: PollResult)
      modifies this
      ensures (State(), result) == Poll(old(State()), code, now)
    {
      var i := FindByCode(devices, code);
      if i.None? { return AccessDenied; }
      var d := devices[i.value];
      if d.expiresAt <= now && d.status == Pending {
        devices := devices[i.value := d.(status := Expired)];
        return ExpiredToken;
      }
      if d.status == Denied || d.status == Expired || d.status == Consumed { return AccessDenied; }
      var early := code in lastPoll && now - lastPoll[code] < POLL_INTERVAL_MS;
      lastPoll := lastPoll[code := now];
      if early { return SlowDown; }
      if d.status == Pending { return AuthorizationPending; }
      if code !in handoffs || handoffs[code].expiresAt <= now { return AccessDenied; }
      result := Ok(handoffs[code].token, d.grantId);
      handoffs := handoffs - {code};
      devices := devices[i.value := d.(status := Consumed)];
    }
  }

  // ----- whole runs

  datatype Op =
    | RequestOp(newCode: string, newUserCode: string, at: int)
    | ApproveOp(userCode: string, created: Option<NewGrant>, at: int)
    | DenyOp(userCode: string, at: int)
    | PollOp(code: string, at: int)

  function Apply(s: FlowState, op: Op): FlowState {
    match op
    case RequestOp(code, userCode, now) => RequestDevice(s, code, userCode, now)
    case ApproveOp(userCode, created, now) => Approve(s, userCode, created, now).0
    case DenyOp(userCode, now) => Deny(s, userCode, now).0
    case PollOp(code, now) => Poll(s, code, now).0
  }

  function Run(ops: seq<Op>): FlowState {
    if ops == [] then FlowState([], map[], map[]) else Apply(Run(ops[..|ops| - 1]), ops[|ops| - 1])
  }

  /** Device codes are random: each request brings a new one. */
  ghost predicate FreshCodes(ops: seq<Op>) {
    ops != [] ==>
      && FreshCodes(ops[..|ops| - 1])
      && (ops[|ops| - 1].RequestOp? ==> FindByCode(Run(ops[..|ops| - 1]).devices, ops[|ops| - 1].newCode).None?)
  }

  ghost predicate MonotoneClock(ops: seq<Op>) {
    forall i, j :: 0 <= i < j < |ops| ==> ops[i].at <= ops[j].at
  }

  ghost predicate UniqueCodes(devices: seq<Device>) {
    forall i, j :: 0 <= i < j < |devices| ==> devices[i].code != devices[j].code
  }

  lemma FindUnique(devices: seq<Device>, i: nat)
    requires UniqueCodes(devices) && i < |devices|
    ensures FindByCode(devices, devices[i].code) == Some(i)
  {
    var r := FindByCode(devices, devices[i].code);
    assert !(r.value < i) && !(i < r.value);
  }

  lemma {:induction false} RunKeepsCodesUnique(ops: seq<Op>)
    requires FreshCodes(ops)
    ensures UniqueCodes(Run(ops).devices)
  {
    if ops != [] {
      RunKeepsCodesUnique(ops[..|ops| - 1]);
      StepKeepsCodesUnique(Run(ops[..|ops| - 1]), ops[|ops| - 1]);
    }
  }

  lemma StepKeepsCodesUnique(s: FlowState, op: Op)
    requires UniqueCodes(s.devices) && (op.RequestOp? ==> FindByCode(s.devices, op.newCode).None?)
    ensures UniqueCodes(Apply(s, op).devices)
  {}

  function StatusOf(s: FlowState, code: string): Option<DeviceStatus> {
    var i := FindByCode(s.devices, code);
    if i.None? then None else Some(s.devices[i.value].status)
  }

  /** The device the operation decides, if it decides one. */
  predicate Decides(s: FlowState, op: Op, code: string) {
    match op
    case ApproveOp(userCode, created, now) =>
      Approve(s, userCode, created, now).1 == Decided && s.devices[FindByUserCode(s.devices, userCode).value].code == code
    case DenyOp(userCode, now) =>
      Deny(s, userCode, now).1 == Decided && s.devices[FindByUserCode(s.devices, userCode).value].code == code
    case _ => false
  }

  predicate YieldsOk(s: FlowState, op: Op, code: string) {
    op.PollOp? && op.code == code && Poll(s, code, op.at).1.Ok?
  }

  /** Decisions taken on the code during the run, approvals among them, and `ok` answers given. */
  function Decisions(ops: seq<Op>, code: string): nat {
    if ops == [] then 0
    else Decisions(ops[..|ops| - 1], code) + if Decides(Run(ops[..|ops| - 1]), ops[|ops| - 1], code) then 1 else 0
  }

  function Approvals(ops: seq<Op>, code: string): nat {
    if ops == [] then 0
    else
      Approvals(ops[..|ops| - 1], code)
      + if Decides(Run(ops[..|ops| - 1]), ops[|ops| - 1], code) && ops[|ops| - 1].ApproveOp? then 1 else 0
  }

  function Oks(ops: seq<Op>, code: string): nat {
    if ops == [] then 0
    else Oks(ops[..|ops| - 1], code) + if YieldsOk(Run(ops[..|ops| - 1]), ops[|ops| - 1], code) then 1 else 0
  }

  /** What one operation does to the status of one code. */
  lemma StepStatus(s: FlowState, op: Op, code: string)
    requires UniqueCodes(s.devices) && (op.RequestOp? ==> FindByCode(s.devices, op.newCode).None?)
    ensures var before, after := StatusOf(s, code), StatusOf(Apply(s, op), code);
            && (Decides(s, op, code) ==> before == Some(Pending) && after == Some(if op.ApproveOp? then Approved else Denied))
            && (YieldsOk(s, op, code) ==> before == Some(Approved) && after == Some(Consumed))
            && (!Decides(s, op, code) && !YieldsOk(s, op, code) ==>
                  after == before || (before == None && after == Some(Pending)) || (before == Some(Pending) && after == Some(Expired)))
  {
    match op {
      case RequestOp(newCode, userCode, now) =>
        RequestStatus(s, newCode, userCode, now, code);
      case ApproveOp(userCode, created, now) =>
        DecisionStatus(s, Approve(s, userCode, created, now).0, userCode, now, code);
      case DenyOp(userCode, now) =>
        DecisionStatus(s, Deny(s, userCode, now).0, userCode, now, code);
      case PollOp(pollCode, now) =>
        PollStatus(s, pollCode, now, code);
    }
  }

  lemma RequestStatus(s: FlowState, newCode: string, userCode: string, now: int, code: string)
    requires FindByCode(s.devices, newCode).None?
    ensures var before, after := StatusOf(s, code), StatusOf(RequestDevice(s, newCode, userCode, now), code);
            after == before || (before == None && after == Some(Pending))
  {
    assert RequestDevice(s, newCode, userCode, now).devices[..|s.devices|] == s.devices;
  }

  lemma PollStatus(s: FlowState, pollCode: string, now: int, code: string)
    requires UniqueCodes(s.devices)
    ensures var before, after, answer := StatusOf(s, code), StatusOf(Poll(s, pollCode, now).0, code), Poll(s, pollCode, now).1;
            if pollCode == code && answer.Ok? then before == Some(Approved) && after == Some(Consumed)
            else after == before || (before == Some(Pending) && after == Some(Expired))
  {
    var s' := Poll(s, pollCode, now).0;
    var i := FindByCode(s.devices, pollCode);
    if i.Some? && s'.devices != s.devices { ReplacedStatus(s.devices, i.value, s'.devices[i.value], code); }
  }

  lemma DecisionStatus(s: FlowState, s': FlowState, userCode: string, now: int, code: string)
    requires UniqueCodes(s.devices)
    requires s'.devices == s.devices
          || (CheckDecidable(s, userCode, now) == Decided
              && exists d: Device :: d.code == s.devices[FindByUserCode(s.devices, userCode).value].code
                             && s'.devices == s.devices[FindByUserCode(s.devices, userCode).value := d])
    ensures s'.devices == s.devices ==> StatusOf(s', code) == StatusOf(s, code)
    ensures s'.devices != s.devices ==>
              var i := FindByUserCode(s.devices, userCode).value;
              if s.devices[i].code == code
              then StatusOf(s, code) == Some(Pending) && StatusOf(s', code) == Some(s'.devices[i].status)
              else StatusOf(s', code) == StatusOf(s, code)
  {
    if s'.devices != s.devices {
      var i := FindByUserCode(s.devices, userCode).value;
      ReplacedStatus(s.devices, i, s'.devices[i], code);
      FindUnique(s.devices, i);
    }
  }

  lemma ReplacedStatus(devices: seq<Device>, i: nat, d: Device, code: string)
    requires UniqueCodes(devices) && i < |devices| && d.code == devices[i].code
    ensures FindByCode(devices[i := d], code) == FindByCode(devices, code)
    ensures d.code == code ==> FindByCode(devices, code) == Some(i)
  {
    var devices' := devices[i := d];
    assert UniqueCodes(devices');
    var r := FindByCode(devices, code);
    if r.Some? { FindUnique(devices, r.value); FindUnique(devices', r.value); }
    if d.code == code { FindUnique(devices, i); }
  }

  /** In every run the counts of a code are determined by its status. */
  lemma {:induction false} StatusTellsHistory(ops: seq<Op>, code: string)
    requires FreshCodes(ops)
    ensures var status := StatusOf(Run(ops), code);
            && Decisions(ops, code) == (if status in {Some(Approved), Some(Denied), Some(Consumed)} then 1 else 0)
            && Approvals(ops, code) == (if status in {Some(Approved), Some(Consumed)} then 1 else 0)
            && Oks(ops, code) == (if status == Some(Consumed) then 1 else 0)
  {
    if ops != [] {
      var front := ops[..|ops| - 1];
      StatusTellsHistory(front, code);
      RunKeepsCodesUnique(front);
      StepStatus(Run(front), ops[|ops| - 1], code);
    }
  }

  /** Each device code yields at most one `ok`, only after an approve and never after a deny or an
      expiry; and a code is decided at most once. */
  lemma AtMostOneOk(ops: seq<Op>, code: string)
    requires FreshCodes(ops)
    ensures Oks(ops, code) <= Approvals(ops, code) <= Decisions(ops, code) <= 1
    ensures StatusOf(Run(ops), code) in {Some(Denied), Some(Expired), Some(Pending), None} ==> Oks(ops, code) == 0
  {
    StatusTellsHistory(ops, code);
  }

  /** Denied, expired and consumed codes never change again. */
  lemma {:induction false} ClosedCodesStayClosed(ops: seq<Op>, n: nat, code: string)
    requires n <= |ops| && FreshCodes(ops)
    requires StatusOf(Run(ops[..n]), code) in {Some(Denied), Some(Expired), Some(Consumed)}
    ensures StatusOf(Run(ops), code) == StatusOf(Run(ops[..n]), code)
    decreases |ops|
  {
    if n == |ops| {
      assert ops[..n] == ops;
    } else {
      var front := ops[..|ops| - 1];
      assert front[..n] == ops[..n];
      ClosedCodesStayClosed(front, n, code);
      RunKeepsCodesUnique(front);
      StepStatus(Run(front), ops[|ops| - 1], code);
    }
  }

  // ----- the token handed over

  function GrantOf(s: FlowState, code: string): Option<string> {
    var i := FindByCode(s.devices, code);
    if i.None? then None else Some(s.devices[i.value].grantId)
  }

  /** The n-th operation approves the code with this grant and token. */
  predicate Issues(ops: seq<Op>, n: nat, code: string, grantId: string, token: string)
    requires n < |ops|
  {
    ops[n].ApproveOp? && ops[n].created == Some(NewGrant(grantId, Some(token))) && Decides(Run(ops[..n]), ops[n], code)
  }

  lemma StepGrant(s: FlowState, op: Op, code: string)
    requires UniqueCodes(s.devices) && (op.RequestOp? ==> FindByCode(s.devices, op.newCode).None?)
    requires StatusOf(s, code).Some?
    ensures !Decides(s, op, code) ==> GrantOf(Apply(s, op), code) == GrantOf(s, code)
    ensures Decides(s, op, code) && op.ApproveOp? ==> GrantOf(Apply(s, op), code) == Some(op.created.value.grantId)
  {
    match op {
      case RequestOp(_, _, _) => assert Apply(s, op).devices[..|s.devices|] == s.devices;
      case PollOp(pollCode, now) => PollGrant(s, pollCode, now, code);
      case ApproveOp(userCode, created, now) => DecisionGrant(s, Approve(s, userCode, created, now).0, userCode, code);
      case DenyOp(userCode, now) => DecisionGrant(s, Deny(s, userCode, now).0, userCode, code);
    }
  }

  lemma PollGrant(s: FlowState, pollCode: string, now: int, code: string)
    requires UniqueCodes(s.devices)
    ensures GrantOf(Poll(s, pollCode, now).0, code) == GrantOf(s, code)
  {
    var s' := Poll(s, pollCode, now).0;
    var i := FindByCode(s.devices, pollCode);
    if i.Some? && s'.devices != s.devices { ReplacedStatus(s.devices, i.value, s'.devices[i.value], code); }
  }

  lemma DecisionGrant(s: FlowState, s': FlowState, userCode: string, code: string)
    requires UniqueCodes(s.devices)
    requires var i := FindByUserCode(s.devices, userCode);
             s'.devices == s.devices
             || (i.Some? && exists d: Device :: d.code == s.devices[i.value].code && s'.devices == s.devices[i.value := d])
    ensures s'.devices == s.devices ==> GrantOf(s', code) == GrantOf(s, code)
    ensures s'.devices != s.devices ==>
              var i := FindByUserCode(s.devices, userCode).value;
              GrantOf(s', code) == if s.devices[i].code == code then Some(s'.devices[i].grantId) else GrantOf(s, code)
  {
    if s'.devices != s.devices {
      var i := FindByUserCode(s.devices, userCode).value;
      ReplacedStatus(s.devices, i, s'.devices[i], code);
      FindUnique(s.devices, i);
    }
  }

  /** A token waiting to be handed over belongs to an approved code and came from its approval. */
  lemma {:induction false} WaitingTokenWasIssued(ops: seq<Op>, code: string) returns (n: nat)
    requires FreshCodes(ops) && code in Run(ops).handoffs
    ensures StatusOf(Run(ops), code) == Some(Approved) && GrantOf(Run(ops), code).Some?
    ensures n < |ops| && Issues(ops, n, code, GrantOf(Run(ops), code).value, Run(ops).handoffs[code].token)
  {
    var front, op := ops[..|ops| - 1], ops[|ops| - 1];
    var s := Run(front);
    RunKeepsCodesUnique(front);
    if code in s.handoffs {
      n := WaitingTokenWasIssued(front, code);
      assert front[..n] == ops[..n];
      StillIssued(s, op, code);
    } else {
      n := |ops| - 1;
      JustIssued(s, op, code);
    }
  }

  lemma StillIssued(s: FlowState, op: Op, code: string)
    requires UniqueCodes(s.devices) && (op.RequestOp? ==> FindByCode(s.devices, op.newCode).None?)
    requires code in s.handoffs && code in Apply(s, op).handoffs && StatusOf(s, code) == Some(Approved)
    ensures StatusOf(Apply(s, op), code) == Some(Approved) && GrantOf(Apply(s, op), code) == GrantOf(s, code)
    ensures Apply(s, op).handoffs[code] == s.handoffs[code]
  {
    StepStatus(s, op, code);
    StepGrant(s, op, code);
  }

  lemma JustIssued(s: FlowState, op: Op, code: string)
    requires UniqueCodes(s.devices) && op.ApproveOp? && Decides(s, op, code)
    ensures StatusOf(Apply(s, op), code) == Some(Approved)
    ensures GrantOf(Apply(s, op), code) == Some(op.created.value.grantId)
  {
    StepStatus(s, op, code);
    StepGrant(s, op, code);
  }

  /** An `ok` hands over the very token and grant of the approval of its code. */
  lemma OkCarriesTheIssuedToken(ops: seq<Op>, code: string, now: int)
    requires FreshCodes(ops) && Poll(Run(ops), code, now).1.Ok?
    ensures var answer := Poll(Run(ops), code, now).1;
            exists n: nat :: n < |ops| && Issues(ops, n, code, answer.grantId, answer.token)
  {
    var n := WaitingTokenWasIssued(ops, code);
  }

  // ----- the poll interval

  /** The n-th operation polls the code while its client waits. */
  predicate WaitingPoll(ops: seq<Op>, n: nat, code: string)
    requires n < |ops|
  {
    var s := Run(ops[..n]);
    ops[n].PollOp? && ops[n].code == code
    && (var i := FindByCode(s.devices, code); i.Some? && Waits(s.devices[i.value], ops[n].at))
  }

  function Answer(ops: seq<Op>, n: nat): PollResult
    requires n < |ops| && ops[n].PollOp?
  {
    Poll(Run(ops[..n]), ops[n].code, ops[n].at).1
  }

  lemma PollTimeStep(s: FlowState, op: Op, code: string)
    requires code in s.lastPoll
    ensures code in Apply(s, op).lastPoll && Apply(s, op).lastPoll[code] in {s.lastPoll[code], op.at}
  {}

  lemma WaitingPollStep(s: FlowState, code: string, now: int)
    requires var i := FindByCode(s.devices, code); i.Some? && Waits(s.devices[i.value], now)
    ensures code in Poll(s, code, now).0.lastPoll && Poll(s, code, now).0.lastPoll[code] == now
  {}

  lemma RunStep(ops: seq<Op>, m: nat)
    requires 0 < m <= |ops|
    ensures Run(ops[..m]) == Apply(Run(ops[..m - 1]), ops[m - 1])
  {
    assert ops[..m][..m - 1] == ops[..m - 1];
  }

  lemma {:induction false} LastPollRemembered(ops: seq<Op>, n: nat, m: nat, code: string)
    requires n < m <= |ops| && WaitingPoll(ops, n, code)
    requires forall j :: n < j < m ==> ops[n].at <= ops[j].at
    ensures code in Run(ops[..m]).lastPoll && ops[n].at <= Run(ops[..m]).lastPoll[code]
    decreases m
  {
    RunStep(ops, m);
    if m == n + 1 {
      WaitingPollStep(Run(ops[..n]), code, ops[n].at);
    } else {
      LastPollRemembered(ops, n, m - 1, code);
      PollTimeStep(Run(ops[..m - 1]), ops[m - 1], code);
    }
  }

  /** Any two polls of a waiting code that are not told to slow down are at least the advertised
      interval apart, under a clock that never runs backwards. */
  lemma PollsKeepTheInterval(ops: seq<Op>, n: nat, m: nat, code: string)
    requires n < m < |ops| && MonotoneClock(ops)
    requires WaitingPoll(ops, n, code) && WaitingPoll(ops, m, code)
    requires Answer(ops, n) != SlowDown && Answer(ops, m) != SlowDown
    ensures ops[m].at - ops[n].at >= POLL_INTERVAL_MS
  {
    LastPollRemembered(ops, n, m, code);
  }
}
