/** What a device client and an operator are answered (src/access/device-authorization-service.ts), in
    terms of what happened to the code before; times as in section 3.5 of RFC 8628. */
module DevicePolls {
  import opened Options
  import opened DeviceAuthorization

  // ----- the operator's decisions

  ghost predicate FirstWithUserCode(devices: seq<Device>, userCode: string, i: nat) {
    i < |devices| && devices[i].userCode == userCode && forall j :: 0 <= j < i ==> devices[j].userCode != userCode
  }

  lemma {:induction false} FindByUserCodeIsFirst(devices: seq<Device>, userCode: string)
    ensures var r := FindByUserCode(devices, userCode);
            && (r.Some? ==> FirstWithUserCode(devices, userCode, r.value))
            && (r.None? ==> forall j :: 0 <= j < |devices| ==> devices[j].userCode != userCode)
  {
    if devices != [] {
      FindByUserCodeIsFirst(devices[..|devices| - 1], userCode);
    }
  }

  /** The answer to a decision, and whether it is taken: on a pending device before its end. */
  ghost predicate DecisionAnswer(devices: seq<Device>, userCode: string, now: int, r: DecisionResult) {
    if forall j :: 0 <= j < |devices| ==> devices[j].userCode != userCode then r == NotFound
    else exists i: nat ::
      && FirstWithUserCode(devices, userCode, i)
      && if devices[i].status in {Approved, Denied, Expired, Consumed} then r == NotPending
         else if now >= devices[i].expiresAt then r == Overdue
         else r == GrantRefused || r == Decided
  }

  /** A denial changes the status of that device, and nothing else; one that is not taken changes nothing. */
  lemma DenialIsExact(s: FlowState, userCode: string, now: int)
    ensures var (s', r) := Deny(s, userCode, now);
            && DecisionAnswer(s.devices, userCode, now, r) && r != GrantRefused
            && (r != Decided ==> s' == s)
            && (r == Decided ==>
                  exists i: nat ::
                    && FirstWithUserCode(s.devices, userCode, i)
                    && s' == FlowState(s.devices[i := s.devices[i].(status := Denied)], s.handoffs, s.lastPoll))
  {
    FindByUserCodeIsFirst(s.devices, userCode);
  }

  /** An approval gives the device its grant, and leaves the grant's token, if it has one, to be fetched
      within five minutes; a grant that could not be created leaves the device pending. */
  lemma ApprovalIsExact(s: FlowState, userCode: string, created: Option<NewGrant>, now: int)
    ensures var (s', r) := Approve(s, userCode, created, now);
            && DecisionAnswer(s.devices, userCode, now, r)
            && (r == GrantRefused ==> created == None) && (r == Decided ==> created.Some?)
            && (r != Decided ==> s' == s)
            && (r == Decided ==>
                  exists i: nat ::
                    && FirstWithUserCode(s.devices, userCode, i)
                    && s'.devices == s.devices[i := s.devices[i].(status := Approved, grantId := created.value.grantId)]
                    && s'.lastPoll == s.lastPoll
                    && s'.handoffs == match created.value.token
                                      case None => s.handoffs
                                      case Some(token) => s.handoffs[s.devices[i].code := Handoff(token, now + 300_000)])
  {
    FindByUserCodeIsFirst(s.devices, userCode);
  }

  /** A request adds its device, pending for ten minutes, behind the others, and changes nothing else. */
  lemma RequestIsExact(s: FlowState, code: string, userCode: string, now: int)
    ensures var s' := RequestDevice(s, code, userCode, now);
            && |s'.devices| == |s.devices| + 1 && s'.devices[..|s.devices|] == s.devices
            && s'.devices[|s.devices|] == Device(code, userCode, now + 600_000, Pending, "")
            && s'.handoffs == s.handoffs && s'.lastPoll == s.lastPoll
  {}

  // ----- where a code stands

  ghost predicate RequestedAt(ops: seq<Op>, n: nat, code: string) {
    n < |ops| && ops[n].RequestOp? && ops[n].newCode == code
  }

  function EndOf(s: FlowState, code: string): Option<int> {
    var i := FindByCode(s.devices, code);
    if i.None? then None else Some(s.devices[i.value].expiresAt)
  }

  /** A known code runs out ten minutes after it was requested. */
  lemma {:induction false} EndIsSetByRequest(ops: seq<Op>, code: string) returns (n: nat)
    requires FreshCodes(ops) && StatusOf(Run(ops), code).Some?
    ensures RequestedAt(ops, n, code) && EndOf(Run(ops), code) == Some(ops[n].at + 600_000)
  {
    var front, op := ops[..|ops| - 1], ops[|ops| - 1];
    RunKeepsCodesUnique(front);
    if StatusOf(Run(front), code).Some? {
      n := EndIsSetByRequest(front, code);
      StepKeepsEnd(Run(front), op, code);
    } else {
      n := |ops| - 1;
      StepSetsEnd(Run(front), op, code);
    }
  }

  lemma StepKeepsEnd(s: FlowState, op: Op, code: string)
    requires UniqueCodes(s.devices) && (op.RequestOp? ==> FindByCode(s.devices, op.newCode).None?)
    requires StatusOf(s, code).Some?
    ensures EndOf(Apply(s, op), code) == EndOf(s, code)
  {
    var s' := Apply(s, op);
    if op.RequestOp? {
      assert s'.devices[..|s.devices|] == s.devices;
    } else if s'.devices != s.devices {
      var i := ReplacedDevice(s, op);
      ReplacedStatus(s.devices, i, s'.devices[i], code);
    }
  }

  lemma ReplacedDevice(s: FlowState, op: Op) returns (i: nat)
    requires !op.RequestOp? && Apply(s, op).devices != s.devices
    ensures i < |s.devices| && Apply(s, op).devices == s.devices[i := Apply(s, op).devices[i]]
    ensures Apply(s, op).devices[i].code == s.devices[i].code && Apply(s, op).devices[i].expiresAt == s.devices[i].expiresAt
  {
    i := match op
         case PollOp(code, _) => FindByCode(s.devices, code).value
         case ApproveOp(userCode, _, _) => FindByUserCode(s.devices, userCode).value
         case DenyOp(userCode, _) => FindByUserCode(s.devices, userCode).value;
  }

  lemma StepSetsEnd(s: FlowState, op: Op, code: string)
    requires UniqueCodes(s.devices) && (op.RequestOp? ==> FindByCode(s.devices, op.newCode).None?)
    requires StatusOf(s, code) == None && StatusOf(Apply(s, op), code).Some?
    ensures op.RequestOp? && op.newCode == code && EndOf(Apply(s, op), code) == Some(op.at + 600_000)
  {
    StepStatus(s, op, code);
    if op.RequestOp? {
      assert Apply(s, op).devices[..|s.devices|] == s.devices;
    } else if Apply(s, op).devices != s.devices {
      var i := ReplacedDevice(s, op);
      ReplacedStatus(s.devices, i, Apply(s, op).devices[i], code);
    }
  }

  /** Every requested code is known from then on, and no other one is. */
  lemma {:induction false} RequestedCodesAreKnown(ops: seq<Op>, code: string)
    requires FreshCodes(ops)
    ensures StatusOf(Run(ops), code).Some? <==> exists n: nat :: RequestedAt(ops, n, code)
  {
    if StatusOf(Run(ops), code).Some? {
      var n := EndIsSetByRequest(ops, code);
    }
    if n: nat :| RequestedAt(ops, n, code) {
      var front, op := ops[..|ops| - 1], ops[|ops| - 1];
      RunKeepsCodesUnique(front);
      if n < |front| {
        assert RequestedAt(front, n, code);
        RequestedCodesAreKnown(front, code);
        StepKeepsEnd(Run(front), op, code);
      } else {
        var devices := Run(ops).devices;
        assert devices[|devices| - 1].code == code;
      }
    }
  }

  ghost predicate ApprovedAt(ops: seq<Op>, n: nat, code: string) {
    n < |ops| && ops[n].ApproveOp? && ops[n].created.Some? && Decides(Run(ops[..n]), ops[n], code)
  }

  /** What waits for the client of an approved code. */
  ghost predicate WaitsFor(s: FlowState, code: string, created: NewGrant, at: int) {
    && GrantOf(s, code) == Some(created.grantId)
    && match created.token
       case None => code !in s.handoffs
       case Some(token) => code in s.handoffs && s.handoffs[code] == Handoff(token, at + 300_000)
  }

  /** An approved code has its approval's grant, and its token still waits. */
  lemma {:induction false} ApprovedCodeWaits(ops: seq<Op>, code: string) returns (n: nat)
    requires FreshCodes(ops) && StatusOf(Run(ops), code) == Some(Approved)
    ensures ApprovedAt(ops, n, code) && WaitsFor(Run(ops), code, ops[n].created.value, ops[n].at)
  {
    var front, op := ops[..|ops| - 1], ops[|ops| - 1];
    RunKeepsCodesUnique(front);
    StepStatus(Run(front), op, code);
    if StatusOf(Run(front), code) == Some(Approved) {
      n := ApprovedCodeWaits(front, code);
      assert front[..n] == ops[..n];
      StepKeepsWaiting(Run(front), op, code, ops[n].created.value, ops[n].at);
    } else {
      n := |ops| - 1;
      if code in Run(front).handoffs { var m := WaitingTokenWasIssued(front, code); }
      StepStartsWaiting(Run(front), op, code);
    }
  }

  lemma StepKeepsWaiting(s: FlowState, op: Op, code: string, created: NewGrant, at: int)
    requires UniqueCodes(s.devices) && (op.RequestOp? ==> FindByCode(s.devices, op.newCode).None?)
    requires StatusOf(s, code) == StatusOf(Apply(s, op), code) == Some(Approved) && WaitsFor(s, code, created, at)
    ensures WaitsFor(Apply(s, op), code, created, at)
  {
    StepStatus(s, op, code);
    StepGrant(s, op, code);
  }

  lemma StepStartsWaiting(s: FlowState, op: Op, code: string)
    requires UniqueCodes(s.devices) && (op.RequestOp? ==> FindByCode(s.devices, op.newCode).None?)
    requires op.ApproveOp? && Decides(s, op, code) && code !in s.handoffs
    ensures op.created.Some? && WaitsFor(Apply(s, op), code, op.created.value, op.at)
  {
    StepStatus(s, op, code);
    StepGrant(s, op, code);
  }

  // ----- polls

  /** The last poll of the code while its client waited. */
  ghost predicate LastPolled(ops: seq<Op>, m: nat, code: string) {
    m < |ops| && WaitingPoll(ops, m, code) && forall k: nat :: m < k < |ops| ==> !WaitingPoll(ops, k, code)
  }

  ghost predicate TooSoon(ops: seq<Op>, code: string, now: int) {
    exists m: nat :: LastPolled(ops, m, code) && now - ops[m].at < 5_000
  }

  lemma {:induction false} PollTimeIsLast(ops: seq<Op>, code: string)
    ensures code in Run(ops).lastPoll <==> exists m: nat :: LastPolled(ops, m, code)
    ensures forall m: nat :: LastPolled(ops, m, code) ==> Run(ops).lastPoll[code] == ops[m].at
  {
    if ops != [] {
      var front, op := ops[..|ops| - 1], ops[|ops| - 1];
      assert ops == front + [op];
      PollTimeIsLast(front, code);
      LastPolledNext(front, op, code);
      PollTimeNext(Run(front), op, code);
    }
  }

  predicate PollsWaiting(s: FlowState, op: Op, code: string) {
    op.PollOp? && op.code == code && (var i := FindByCode(s.devices, code); i.Some? && Waits(s.devices[i.value], op.at))
  }

  lemma PollTimeNext(s: FlowState, op: Op, code: string)
    ensures Apply(s, op).lastPoll == if op.PollOp? && PollsWaiting(s, op, op.code) then s.lastPoll[op.code := op.at] else s.lastPoll
  {}

  lemma LastPolledNext(ops: seq<Op>, op: Op, code: string)
    ensures forall m: nat :: m < |ops| ==>
              (LastPolled(ops + [op], m, code) <==> LastPolled(ops, m, code) && !PollsWaiting(Run(ops), op, code))
    ensures LastPolled(ops + [op], |ops|, code) <==> PollsWaiting(Run(ops), op, code)
  {
    var all := ops + [op];
    assert all[..|ops|] == ops;
    forall k: nat | k < |ops|
      ensures WaitingPoll(all, k, code) == WaitingPoll(ops, k, code)
    {
      assert all[..k] == ops[..k];
    }
    assert WaitingPoll(all, |ops|, code) == PollsWaiting(Run(ops), op, code);
  }

  /** The answer to a timely poll of an approved code: the token of its approval for five minutes, and
      nothing afterwards or without one. */
  function HandedOver(created: NewGrant, at: int, now: int): PollResult {
    if created.token.Some? && now < at + 300_000 then Ok(created.token.value, created.grantId) else AccessDenied
  }

  /** The answer to a poll at the end of any run. An unknown, denied, expired or used code is refused.
      A pending one expires ten minutes after its request; before that the client waits. A client that
      waits and polls again within five seconds is told to slow down. */
  lemma PollAnswers(ops: seq<Op>, code: string, now: int)
    requires FreshCodes(ops)
    ensures var s := Run(ops);
            var (s', answer) := Poll(s, code, now);
            match StatusOf(s, code)
            case Some(Pending) =>
              (exists n: nat ::
                 && RequestedAt(ops, n, code)
                 && if now >= ops[n].at + 600_000 then answer == ExpiredToken && StatusOf(s', code) == Some(Expired)
                    else answer == if TooSoon(ops, code, now) then SlowDown else AuthorizationPending)
            case Some(Approved) =>
              (exists n: nat ::
                 && ApprovedAt(ops, n, code)
                 && answer == if TooSoon(ops, code, now) then SlowDown else HandedOver(ops[n].created.value, ops[n].at, now))
            case _ => answer == AccessDenied && s' == s
  {
    var s := Run(ops);
    RunKeepsCodesUnique(ops);
    PollStatus(s, code, now, code);
    PollTimeIsLast(ops, code);
    if StatusOf(s, code) == Some(Pending) {
      var n := EndIsSetByRequest(ops, code);
    } else if StatusOf(s, code) == Some(Approved) {
      var n := ApprovedCodeWaits(ops, code);
    }
  }
}
