/** The usage ledger and rate-limit windows (src/access/governance-store.ts). The tables are fields,
    each public method is one transaction, clocks and generated ids are parameters, times are
    milliseconds and amounts are unbounded integers. */
module GovernanceStore {
  import opened Options

  datatype Status = Open | Settled | Released

  datatype Row = Row(
    id: string,
    requestId: Option<string>,
    grantScope: string,
    missionId: Option<string>,
    grantId: Option<string>,
    day: int,
    reserved: int,
    actual: Option<int>,
    status: Status,
    expiresAt: int)

  datatype ReserveOptions = ReserveOptions(
    grantScope: string,
    requestId: Option<string>,
    missionId: Option<string>,
    grantId: Option<string>,
    reserved: int,
    ttlMs: Option<int>)

  datatype Reservation = Reservation(id: string, status: Status, reserved: int)

  /** `Refused` is the primary-key violation of a generated id that is already taken. */
  datatype ReserveResult = Reserved(reservation: Reservation) | Refused

  datatype Ledger = Ledger(rows: seq<Row>, missionUsage: map<string, int>, dailyUsage: map<(string, int), int>)

  const DEFAULT_TTL_MS := 5 * 60 * 1000
  const DAY_MS := 24 * 60 * 60 * 1000

  function AccountingDay(now: int): int { now / DAY_MS }

  function Usage<K>(totals: map<K, int>, k: K): int {
    if k in totals then totals[k] else 0
  }

  /** The upsert of a usage table. */
  function AddUsage<K>(totals: map<K, int>, k: K, amount: int): map<K, int> {
    totals[k := Usage(totals, k) + amount]
  }

  // ----- lookups

  /** Position of the first row that satisfies the key, or none. */
  function FindById(rows: seq<Row>, id: string): (r: Option<nat>)
    ensures r.Some? ==> r.value < |rows| && rows[r.value].id == id
    ensures r.Some? ==> forall i :: 0 <= i < r.value ==> rows[i].id != id
    ensures r.None? ==> forall i :: 0 <= i < |rows| ==> rows[i].id != id
  {
    if rows == [] then None
    else
      var r := FindById(rows[..|rows| - 1], id);
      if r.Some? then r
      else if rows[|rows| - 1].id == id then Some(|rows| - 1) else None
  }

  predicate SameRequest(row: Row, scope: string, requestId: Option<string>) {
    row.grantScope == scope && requestId.Some? && row.requestId == requestId
  }

  function FindByRequest(rows: seq<Row>, scope: string, requestId: Option<string>): (r: Option<nat>)
    ensures r.Some? ==> r.value < |rows| && SameRequest(rows[r.value], scope, requestId)
    ensures r.Some? ==> forall i :: 0 <= i < r.value ==> !SameRequest(rows[i], scope, requestId)
    ensures r.None? ==> forall i :: 0 <= i < |rows| ==> !SameRequest(rows[i], scope, requestId)
  {
    if rows == [] then None
    else
      var r := FindByRequest(rows[..|rows| - 1], scope, requestId);
      if r.Some? then r
      else if SameRequest(rows[|rows| - 1], scope, requestId) then Some(|rows| - 1) else None
  }

  // ----- operations

  function NewRow(o: ReserveOptions, id: string, now: int): Row {
    var ttl := if o.ttlMs.Some? then o.ttlMs.value else DEFAULT_TTL_MS;
    Row(id, o.requestId, o.grantScope, o.missionId, o.grantId, AccountingDay(now), o.reserved, None, Open, now + ttl)
  }

  function Reserve(l: Ledger, o: ReserveOptions, freshId: string, now: int): (Ledger, ReserveResult) {
    var existing := FindByRequest(l.rows, o.grantScope, o.requestId);
    if existing.Some? then
      var row := l.rows[existing.value];
      (l, Reserved(Reservation(row.id, row.status, row.reserved)))
    else if FindById(l.rows, freshId).Some? then (l, Refused)
    else
      (l.(rows := l.rows + [NewRow(o, freshId, now)]), Reserved(Reservation(freshId, Open, o.reserved)))
  }

  function SettleAt(l: Ledger, i: nat, amount: int): Ledger
    requires i < |l.rows|
  {
    var row := l.rows[i];
    Ledger(l.rows[i := row.(status := Settled, actual := Some(amount))],
           if row.missionId.Some? then AddUsage(l.missionUsage, row.missionId.value, amount) else l.missionUsage,
           if row.grantId.Some? then AddUsage(l.dailyUsage, (row.grantId.value, row.day), amount) else l.dailyUsage)
  }

  /** A reservation that is missing or no longer open is left alone; without reported usage the
      full reservation is charged. */
  function Settle(l: Ledger, id: string, actual: Option<int>): Ledger {
    var i := FindById(l.rows, id);
    if i.None? || l.rows[i.value].status != Open then l
    else SettleAt(l, i.value, if actual.Some? then actual.value else l.rows[i.value].reserved)
  }

  function Release(l: Ledger, id: string): Ledger {
    var i := FindById(l.rows, id);
    if i.None? || l.rows[i.value].status != Open then l
    else l.(rows := l.rows[i.value := l.rows[i.value].(status := Released)])
  }

  predicate Overdue(row: Row, now: int) {
    row.status == Open && row.expiresAt < now
  }

  function OverdueRows(rows: seq<Row>, now: int): (r: seq<Row>)
    ensures forall row :: row in r <==> row in rows && Overdue(row, now)
  {
    if rows == [] then []
    else
      var last := rows[|rows| - 1];
      assert rows == rows[..|rows| - 1] + [last];
      OverdueRows(rows[..|rows| - 1], now) + if Overdue(last, now) then [last] else []
  }

  function SettleAll(l: Ledger, due: seq<Row>): Ledger {
    if due == [] then l
    else Settle(SettleAll(l, due[..|due| - 1]), due[|due| - 1].id, Some(due[|due| - 1].reserved))
  }

  function SettleExpired(l: Ledger, now: int): Ledger {
    SettleAll(l, OverdueRows(l.rows, now))
  }

  class GovernanceStore {
    var rows: seq<Row>
    var missionUsage: map<string, int>
    var dailyUsage: map<(string, int), int>
    var windows: map<string, Window>
    ghost var rateCalls: seq<(string, int)>   // every rate-limited call: its key and its window

    constructor ()
      ensures State() == Ledger([], map[], map[]) && rateCalls == [] && WindowsFollow()
    {
      rows, missionUsage, dailyUsage, windows := [], map[], map[], map[];
      rateCalls := [];
    }

    ghost function State(): Ledger
      reads this
    {
      Ledger(rows, missionUsage, dailyUsage)
    }

    method ReserveUsage(o: ReserveOptions, freshId: string, now: int) returns (result: ReserveResult)
      modifies this`rows
      ensures (State(), result) == Reserve(old(State()), o, freshId, now)
    {
      if o.requestId.Some? {
        var existing := FindByRequest(rows, o.grantScope, o.requestId);
        if existing.Some? {
          var row := rows[existing.value];
          return Reserved(Reservation(row.id, row.status, row.reserved));
        }
      }
      if FindById(rows, freshId).Some? { return Refused; }
      rows := rows + [NewRow(o, freshId, now)];
      result := Reserved(Reservation(freshId, Open, o.reserved));
    }

    method SettleReservation(id: string, actual: Option<int>)
      modifies this`rows, this`missionUsage, this`dailyUsage
      ensures State() == Settle(old(State()), id, actual)
    {
      var i := FindById(rows, id);
      if i.None? || rows[i.value].status != Open { return; }
      var row := rows[i.value];
      var amount := if actual.Some? then actual.value else row.reserved;
      rows := rows[i.value := row.(status := Settled, actual := Some(amount))];
      if row.missionId.Some? {
        missionUsage := AddUsage(missionUsage, row.missionId.value, amount);
      }
      if row.grantId.Some? {
        dailyUsage := AddUsage(dailyUsage, (row.grantId.value, row.day), amount);
      }
    }

    method ReleaseReservation(id: string)
      modifies this`rows
      ensures State() == Release(old(State()), id)
    {
      var i := FindById(rows, id);
      if i.None? || rows[i.value].status != Open { return; }
      rows := rows[i.value := rows[i.value].(status := Released)];
    }

    method SettleExpiredReservations(now: int) returns (settledCount: nat)
      modifies this`rows, this`missionUsage, this`dailyUsage
      ensures State() == SettleExpired(old(State()), now)
      ensures settledCount == |OverdueRows(old(rows), now)|
    {
      var expired := OverdueRows(rows, now);
      for i := 0 to |expired|
        invariant State() == SettleAll(old(State()), expired[..i])
      {
        SettleReservation(expired[i].id, Some(expired[i].reserved));
        assert expired[..i + 1][..i] == expired[..i];
      }
      assert expired[..|expired|] == expired;
      settledCount := |expired|;
    }

    /** The windows are those of the calls made so far. */
    ghost predicate WindowsFollow()
      reads this
    {
      windows == ConsumeAll(rateCalls)
    }

    /** A call is allowed exactly when fewer than `limit` of the key's latest calls were made in the
        same window, whatever other keys did; the count is that of the calls including this one. */
    method ConsumeRateLimitWindow(key: string, windowStart: int, limit: int) returns (allowed: bool, count: int)
      requires WindowsFollow()
      modifies this`windows, this`rateCalls
      ensures WindowsFollow() && rateCalls == old(rateCalls) + [(key, windowStart)]
      ensures allowed <==> CallsInWindow(old(rateCalls), key, windowStart) < limit
      ensures count == CallsInWindow(rateCalls, key, windowStart) == CallsInWindow(old(rateCalls), key, windowStart) + 1
      ensures windows - {key} == old(windows) - {key}
    {
      windows := Consume(windows, key, windowStart);
      count := windows[key].count;
      allowed := count <= limit;
      WindowCountsItsCalls(rateCalls, key);
      rateCalls := rateCalls + [(key, windowStart)];
      assert rateCalls[..|rateCalls| - 1] == old(rateCalls);
    }
  }

  // ----- what the ledger keeps

  function MissionShare(row: Row, mission: string): int {
    if row.missionId == Some(mission) && row.status == Settled && row.actual.Some? then row.actual.value else 0
  }

  function DailyShare(row: Row, grant: string, day: int): int {
    if row.grantId == Some(grant) && row.day == day && row.status == Settled && row.actual.Some? then row.actual.value else 0
  }

  /** The settled amounts of a mission's reservations, each row counted once. */
  function MissionTotal(rows: seq<Row>, mission: string): int {
    if rows == [] then 0 else MissionTotal(rows[..|rows| - 1], mission) + MissionShare(rows[|rows| - 1], mission)
  }

  /** The settled amounts of a grant's reservations made on the day. */
  function DailyTotal(rows: seq<Row>, grant: string, day: int): int {
    if rows == [] then 0 else DailyTotal(rows[..|rows| - 1], grant, day) + DailyShare(rows[|rows| - 1], grant, day)
  }

  ghost predicate MissionsConserved(l: Ledger) {
    forall m :: Usage(l.missionUsage, m) == MissionTotal(l.rows, m)
  }

  ghost predicate DaysConserved(l: Ledger) {
    forall g, d :: Usage(l.dailyUsage, (g, d)) == DailyTotal(l.rows, g, d)
  }

  ghost predicate UniqueRowIds(rows: seq<Row>) {
    forall i, j :: 0 <= i < j < |rows| ==> rows[i].id != rows[j].id
  }

  ghost predicate UniqueRequests(rows: seq<Row>) {
    forall i, j :: 0 <= i < j < |rows| ==> !SameRequest(rows[j], rows[i].grantScope, rows[i].requestId)
  }

  ghost predicate AmountsMatchStatus(rows: seq<Row>) {
    forall i :: 0 <= i < |rows| ==> (rows[i].actual.Some? <==> rows[i].status == Settled)
  }

  /** Every mission total and every (grant, day) total is the sum of the settled amounts of its
      reservations; ids and request keys are unique. */
  ghost predicate Balanced(l: Ledger) {
    && MissionsConserved(l) && DaysConserved(l)
    && UniqueRowIds(l.rows) && UniqueRequests(l.rows) && AmountsMatchStatus(l.rows)
  }

  /** Rows are only added; a closed reservation never changes again, and an open one changes in
      nothing but its status and settled amount. */
  ghost predicate Advances(a: seq<Row>, b: seq<Row>) {
    && |a| <= |b|
    && forall i :: 0 <= i < |a| ==>
         if a[i].status != Open then b[i] == a[i] else b[i].(status := Open, actual := None) == a[i].(actual := None)
  }

  lemma {:induction false} MissionTotalUpdate(rows: seq<Row>, i: nat, row: Row, m: string)
    requires i < |rows|
    ensures MissionTotal(rows[i := row], m) == MissionTotal(rows, m) - MissionShare(rows[i], m) + MissionShare(row, m)
  {
    var n := |rows| - 1;
    if i == n {
      assert rows[i := row][..n] == rows[..n];
    } else {
      assert rows[i := row][..n] == rows[..n][i := row];
      MissionTotalUpdate(rows[..n], i, row, m);
    }
  }

  lemma {:induction false} DailyTotalUpdate(rows: seq<Row>, i: nat, row: Row, g: string, d: int)
    requires i < |rows|
    ensures DailyTotal(rows[i := row], g, d) == DailyTotal(rows, g, d) - DailyShare(rows[i], g, d) + DailyShare(row, g, d)
  {
    var n := |rows| - 1;
    if i == n {
      assert rows[i := row][..n] == rows[..n];
    } else {
      assert rows[i := row][..n] == rows[..n][i := row];
      DailyTotalUpdate(rows[..n], i, row, g, d);
    }
  }

  lemma ReserveKeepsBalance(l: Ledger, o: ReserveOptions, freshId: string, now: int)
    requires Balanced(l)
    ensures var l' := Reserve(l, o, freshId, now).0; Balanced(l') && Advances(l.rows, l'.rows)
  {
    var l' := Reserve(l, o, freshId, now).0;
    if l' != l {
      var row := NewRow(o, freshId, now);
      assert l'.rows[..|l.rows|] == l.rows && l'.rows[|l.rows|] == row;
      forall m ensures Usage(l'.missionUsage, m) == MissionTotal(l'.rows, m) {
        assert Usage(l.missionUsage, m) == MissionTotal(l.rows, m);
      }
      forall g, d ensures Usage(l'.dailyUsage, (g, d)) == DailyTotal(l'.rows, g, d) {
        assert Usage(l.dailyUsage, (g, d)) == DailyTotal(l.rows, g, d);
      }
      forall i, j | 0 <= i < j < |l'.rows|
        ensures !SameRequest(l'.rows[j], l'.rows[i].grantScope, l'.rows[i].requestId)
      {
        if j == |l.rows| { assert !SameRequest(l.rows[i], o.grantScope, o.requestId); }
      }
    }
  }

  lemma CloseKeepsKeys(rows: seq<Row>, i: nat, status: Status, actual: Option<int>)
    requires i < |rows| && rows[i].status == Open && status != Open && (actual.Some? <==> status == Settled)
    requires UniqueRowIds(rows) && UniqueRequests(rows) && AmountsMatchStatus(rows)
    ensures var rows' := rows[i := rows[i].(status := status, actual := actual)];
            UniqueRowIds(rows') && UniqueRequests(rows') && AmountsMatchStatus(rows') && Advances(rows, rows')
  {
    var rows' := rows[i := rows[i].(status := status, actual := actual)];
    forall j, k | 0 <= j < k < |rows|
      ensures rows'[j].id != rows'[k].id && !SameRequest(rows'[k], rows'[j].grantScope, rows'[j].requestId)
    {
      assert rows[j].id != rows[k].id && !SameRequest(rows[k], rows[j].grantScope, rows[j].requestId);
    }
  }

  lemma SettleKeepsBalance(l: Ledger, id: string, actual: Option<int>)
    requires Balanced(l)
    ensures Balanced(Settle(l, id, actual)) && Advances(l.rows, Settle(l, id, actual).rows)
  {
    var l' := Settle(l, id, actual);
    var found := FindById(l.rows, id);
    if found.Some? && l.rows[found.value].status == Open {
      var i := found.value;
      CloseKeepsKeys(l.rows, i, Settled, l'.rows[i].actual);
      SettleConserves(l, l', i, l'.rows[i]);
    }
  }

  /** Adding the settled amount to both totals of its row keeps them conserved. */
  lemma SettleConserves(l: Ledger, l': Ledger, i: nat, row: Row)
    requires MissionsConserved(l) && DaysConserved(l) && i < |l.rows| && l.rows[i].status == Open
    requires row == l.rows[i].(status := Settled, actual := row.actual) && row.actual.Some? && l'.rows == l.rows[i := row]
    requires forall m :: Usage(l'.missionUsage, m) == Usage(l.missionUsage, m) + MissionShare(row, m)
    requires forall g, d :: Usage(l'.dailyUsage, (g, d)) == Usage(l.dailyUsage, (g, d)) + DailyShare(row, g, d)
    ensures MissionsConserved(l') && DaysConserved(l')
  {
    forall m ensures Usage(l'.missionUsage, m) == MissionTotal(l'.rows, m) {
      assert Usage(l.missionUsage, m) == MissionTotal(l.rows, m);
      MissionTotalUpdate(l.rows, i, row, m);
    }
    forall g, d ensures Usage(l'.dailyUsage, (g, d)) == DailyTotal(l'.rows, g, d) {
      assert Usage(l.dailyUsage, (g, d)) == DailyTotal(l.rows, g, d);
      DailyTotalUpdate(l.rows, i, row, g, d);
    }
  }

  lemma ReleaseKeepsBalance(l: Ledger, id: string)
    requires Balanced(l)
    ensures Balanced(Release(l, id)) && Advances(l.rows, Release(l, id).rows)
  {
    var l' := Release(l, id);
    var found := FindById(l.rows, id);
    if found.Some? && l.rows[found.value].status == Open {
      var i := found.value;
      var row := l'.rows[i];
      assert l.rows[i].actual == None;
      CloseKeepsKeys(l.rows, i, Released, None);
      forall m ensures Usage(l'.missionUsage, m) == MissionTotal(l'.rows, m) {
        assert Usage(l.missionUsage, m) == MissionTotal(l.rows, m);
        MissionTotalUpdate(l.rows, i, row, m);
      }
      forall g, d ensures Usage(l'.dailyUsage, (g, d)) == DailyTotal(l'.rows, g, d) {
        assert Usage(l.dailyUsage, (g, d)) == DailyTotal(l.rows, g, d);
        DailyTotalUpdate(l.rows, i, row, g, d);
      }
    }
  }

  lemma {:induction false} SettleAllKeepsBalance(l: Ledger, due: seq<Row>)
    requires Balanced(l)
    ensures Balanced(SettleAll(l, due)) && Advances(l.rows, SettleAll(l, due).rows)
  {
    if due != [] {
      var front, last := SettleAll(l, due[..|due| - 1]), due[|due| - 1];
      SettleAllKeepsBalance(l, due[..|due| - 1]);
      SettleKeepsBalance(front, last.id, Some(last.reserved));
    }
  }

  // ----- expiry

  lemma FindUnique(rows: seq<Row>, i: nat)
    requires i < |rows| && UniqueRowIds(rows)
    ensures FindById(rows, rows[i].id) == Some(i)
  {
    assert forall k :: 0 <= k < i ==> rows[k].id != rows[i].id;
  }

  /** A settled list closes exactly its own open rows, at their full reserved amount. */
  lemma {:induction false} SettleAllCloses(l: Ledger, due: seq<Row>)
    requires Balanced(l) && forall row :: row in due ==> row in l.rows
    ensures var rows' := SettleAll(l, due).rows;
            |rows'| == |l.rows| && forall i :: 0 <= i < |l.rows| ==>
              rows'[i] == if l.rows[i] in due && l.rows[i].status == Open
                          then l.rows[i].(status := Settled, actual := Some(l.rows[i].reserved)) else l.rows[i]
  {
    if due != [] {
      var front, last := SettleAll(l, due[..|due| - 1]), due[|due| - 1];
      assert due == due[..|due| - 1] + [last];
      SettleAllCloses(l, due[..|due| - 1]);
      SettleAllKeepsBalance(l, due[..|due| - 1]);
      assert last in due;
      var k :| 0 <= k < |l.rows| && l.rows[k] == last;
      assert front.rows[k].id == last.id;
      FindUnique(front.rows, k);
    }
  }

  /** Expiry settles every overdue reservation at its full amount and touches no other; afterwards
      none is overdue. */
  lemma ExpirySettlesExactlyTheOverdue(l: Ledger, now: int)
    requires Balanced(l)
    ensures var rows' := SettleExpired(l, now).rows;
            && |rows'| == |l.rows|
            && (forall i :: 0 <= i < |l.rows| ==>
                  rows'[i] == if Overdue(l.rows[i], now)
                              then l.rows[i].(status := Settled, actual := Some(l.rows[i].reserved)) else l.rows[i])
            && (forall i :: 0 <= i < |rows'| ==> !Overdue(rows'[i], now))
  {
    SettleAllCloses(l, OverdueRows(l.rows, now));
    assert forall i :: 0 <= i < |l.rows| ==> l.rows[i] in l.rows;
  }

  // ----- whole runs

  datatype Op =
    | ReserveOp(options: ReserveOptions, freshId: string, at: int)
    | SettleOp(id: string, actual: Option<int>)
    | ReleaseOp(releaseId: string)
    | ExpireOp(now: int)

  function Apply(l: Ledger, op: Op): Ledger {
    match op
    case ReserveOp(o, freshId, now) => Reserve(l, o, freshId, now).0
    case SettleOp(id, actual) => Settle(l, id, actual)
    case ReleaseOp(id) => Release(l, id)
    case ExpireOp(now) => SettleExpired(l, now)
  }

  function Run(ops: seq<Op>): Ledger {
    if ops == [] then Ledger([], map[], map[]) else Apply(Run(ops[..|ops| - 1]), ops[|ops| - 1])
  }

  /** Conservation over every sequence of operations. */
  lemma {:induction false} LedgerIsAlwaysBalanced(ops: seq<Op>)
    ensures Balanced(Run(ops))
  {
    if ops != [] {
      LedgerIsAlwaysBalanced(ops[..|ops| - 1]);
      ApplyKeepsBalance(Run(ops[..|ops| - 1]), ops[|ops| - 1]);
    }
  }

  lemma ApplyKeepsBalance(l: Ledger, op: Op)
    requires Balanced(l)
    ensures Balanced(Apply(l, op)) && Advances(l.rows, Apply(l, op).rows)
  {
    match op {
      case ReserveOp(o, freshId, now) => ReserveKeepsBalance(l, o, freshId, now);
      case SettleOp(id, actual) => SettleKeepsBalance(l, id, actual);
      case ReleaseOp(id) => ReleaseKeepsBalance(l, id);
      case ExpireOp(now) => SettleAllKeepsBalance(l, OverdueRows(l.rows, now));
    }
  }

  /** Settled and released are absorbing, and a reservation keeps its day, amount and owner, from
      any point of a run to any later one. */
  lemma {:induction false} ClosedReservationsStayClosed(ops: seq<Op>, n: nat)
    requires n <= |ops|
    ensures Advances(Run(ops[..n]).rows, Run(ops).rows)
    decreases |ops|
  {
    if n == |ops| {
      assert ops[..n] == ops;
    } else {
      var front := ops[..|ops| - 1];
      ClosedReservationsStayClosed(front, n);
      assert front[..n] == ops[..n];
      LedgerIsAlwaysBalanced(front);
      ApplyKeepsBalance(Run(front), ops[|ops| - 1]);
    }
  }

  /** A retried request id reserves nothing new, at any later point of the run, and answers with
      the id and amount of the first reservation. */
  lemma RetriedRequestReservesOnce(ops: seq<Op>, later: seq<Op>, o: ReserveOptions, o2: ReserveOptions,
                                   id1: string, id2: string, t1: int, t2: int)
    requires o.requestId.Some? && o2.requestId == o.requestId && o2.grantScope == o.grantScope
    requires Reserve(Run(ops), o, id1, t1).1.Reserved?
    ensures var first := Reserve(Run(ops), o, id1, t1).1;
            var l := Run(ops + [ReserveOp(o, id1, t1)] + later);
            var (l', again) := Reserve(l, o2, id2, t2);
            && l' == l && again.Reserved?
            && again.reservation.id == first.reservation.id && again.reservation.reserved == first.reservation.reserved
  {
    var (l1, first) := Reserve(Run(ops), o, id1, t1);
    var all := ops + [ReserveOp(o, id1, t1)] + later;
    assert all[..|ops| + 1] == ops + [ReserveOp(o, id1, t1)];
    assert (ops + [ReserveOp(o, id1, t1)])[..|ops|] == ops;
    ClosedReservationsStayClosed(all, |ops| + 1);
    LedgerIsAlwaysBalanced(ops);
    LedgerIsAlwaysBalanced(all);
    var i := ReservedRow(Run(ops), o, id1, t1);
    AnswersWithRow(Run(all), i, o2, id2, t2);
  }

  lemma ReservedRow(l: Ledger, o: ReserveOptions, id: string, now: int) returns (i: nat)
    requires o.requestId.Some? && Reserve(l, o, id, now).1.Reserved?
    ensures var (l', r) := Reserve(l, o, id, now);
            && i < |l'.rows| && SameRequest(l'.rows[i], o.grantScope, o.requestId)
            && l'.rows[i].id == r.reservation.id && l'.rows[i].reserved == r.reservation.reserved
  {
    var existing := FindByRequest(l.rows, o.grantScope, o.requestId);
    i := if existing.Some? then existing.value else |l.rows|;
  }

  lemma AnswersWithRow(l: Ledger, i: nat, o: ReserveOptions, id: string, now: int)
    requires i < |l.rows| && UniqueRequests(l.rows) && SameRequest(l.rows[i], o.grantScope, o.requestId)
    ensures Reserve(l, o, id, now) == (l, Reserved(Reservation(l.rows[i].id, l.rows[i].status, l.rows[i].reserved)))
  {
    forall k | 0 <= k < i
      ensures !SameRequest(l.rows[k], o.grantScope, o.requestId)
    {
      assert !SameRequest(l.rows[i], l.rows[k].grantScope, l.rows[k].requestId);
    }
    forall k | i < k < |l.rows|
      ensures !SameRequest(l.rows[k], o.grantScope, o.requestId)
    {
      assert !SameRequest(l.rows[k], l.rows[i].grantScope, l.rows[i].requestId);
    }
  }

  // ----- rate limits

  datatype Window = Window(start: int, count: nat)

  function Consume(windows: map<string, Window>, key: string, start: int): map<string, Window> {
    windows[key := if key in windows && windows[key].start == start then Window(start, windows[key].count + 1) else Window(start, 1)]
  }

  function ConsumeAll(calls: seq<(string, int)>): map<string, Window> {
    if calls == [] then map[] else Consume(ConsumeAll(calls[..|calls| - 1]), calls[|calls| - 1].0, calls[|calls| - 1].1)
  }

  /** How many of the key's latest calls, without a break, were made in the window. */
  function CallsInWindow(calls: seq<(string, int)>, key: string, start: int): nat {
    if calls == [] then 0
    else
      var (k, s) := calls[|calls| - 1];
      var front := calls[..|calls| - 1];
      if k != key then CallsInWindow(front, key, start)
      else if s == start then CallsInWindow(front, key, start) + 1
      else 0
  }

  /** The counter of a key is the number of its calls since its window last rolled over, whatever
      other keys do. */
  lemma {:induction false} WindowCountsItsCalls(calls: seq<(string, int)>, key: string)
    ensures var windows := ConsumeAll(calls);
            if key in windows then windows[key].count == CallsInWindow(calls, key, windows[key].start) && windows[key].count > 0
            else forall start :: CallsInWindow(calls, key, start) == 0
    ensures forall start :: key in ConsumeAll(calls) && ConsumeAll(calls)[key].start != start ==> CallsInWindow(calls, key, start) == 0
  {
    if calls != [] {
      WindowCountsItsCalls(calls[..|calls| - 1], key);
    }
  }

  /** The key's calls made in the window, and those of them that were allowed. */
  function MadeIn(calls: seq<(string, int)>, key: string, start: int): nat {
    if calls == [] then 0
    else MadeIn(calls[..|calls| - 1], key, start) + if calls[|calls| - 1] == (key, start) then 1 else 0
  }

  function AllowedIn(calls: seq<(string, int)>, key: string, start: int, limit: int): nat {
    if calls == [] then 0
    else
      var front := calls[..|calls| - 1];
      AllowedIn(front, key, start, limit)
      + if calls[|calls| - 1] == (key, start) && CallsInWindow(front, key, start) < limit then 1 else 0
  }

  /** The key's windows never go back. */
  ghost predicate NeverBack(calls: seq<(string, int)>, key: string) {
    forall i, j :: 0 <= i < j < |calls| && calls[i].0 == key && calls[j].0 == key ==> calls[i].1 <= calls[j].1
  }

  lemma {:induction false} LaterWindowsAreUnused(calls: seq<(string, int)>, key: string, start: int)
    requires forall i :: 0 <= i < |calls| && calls[i].0 == key ==> calls[i].1 < start
    ensures MadeIn(calls, key, start) == 0
  {
    if calls != [] {
      LaterWindowsAreUnused(calls[..|calls| - 1], key, start);
    }
  }

  lemma {:induction false} LatestWindowIsWhole(calls: seq<(string, int)>, key: string, start: int)
    requires NeverBack(calls, key) && forall i :: 0 <= i < |calls| && calls[i].0 == key ==> calls[i].1 <= start
    ensures CallsInWindow(calls, key, start) == MadeIn(calls, key, start)
  {
    if calls != [] {
      var n := |calls| - 1;
      LatestWindowIsWhole(calls[..n], key, start);
      if calls[n].0 == key && calls[n].1 < start {
        LaterWindowsAreUnused(calls[..n], key, start);
      }
    }
  }

  /** Under a clock that never runs backwards exactly the first `limit` calls of each window are
      allowed. */
  lemma {:induction false} WindowAllowsItsFirstCalls(calls: seq<(string, int)>, key: string, start: int, limit: nat)
    requires NeverBack(calls, key)
    ensures AllowedIn(calls, key, start, limit)
              == if MadeIn(calls, key, start) <= limit then MadeIn(calls, key, start) else limit
  {
    if calls != [] {
      var n := |calls| - 1;
      WindowAllowsItsFirstCalls(calls[..n], key, start, limit);
      if calls[n] == (key, start) {
        LatestWindowIsWhole(calls[..n], key, start);
      }
    }
  }
}
