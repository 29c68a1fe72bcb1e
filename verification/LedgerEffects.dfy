/** What each operation of the usage ledger writes (src/access/governance-store.ts), at any point of any
    run of it. */
module LedgerEffects {
  import opened Options
  import opened GovernanceStore

  ghost predicate NoRow(rows: seq<Row>, id: string) {
    forall j :: 0 <= j < |rows| ==> rows[j].id != id
  }

  /** The open row `i` is settled at the amount: it alone changes, and the totals of its mission and of
      its grant on its day rise by that amount, and no others. */
  ghost predicate SettledAt(l: Ledger, l': Ledger, i: nat, amount: int)
    requires i < |l.rows|
  {
    var row := l.rows[i];
    && l'.rows == l.rows[i := row.(status := Settled, actual := Some(amount))]
    && (forall m :: Usage(l'.missionUsage, m) == Usage(l.missionUsage, m) + if row.missionId == Some(m) then amount else 0)
    && (forall g, d :: Usage(l'.dailyUsage, (g, d))
                         == Usage(l.dailyUsage, (g, d)) + if row.grantId == Some(g) && row.day == d then amount else 0)
  }

  lemma RunOneMore(ops: seq<Op>, op: Op)
    ensures Run(ops + [op]) == Apply(Run(ops), op)
  {
    assert (ops + [op])[..|ops|] == ops;
  }

  /** Settling an open reservation charges what was reported, and without a report all that was
      reserved; settling anything else changes nothing. */
  lemma SettlingCharges(ops: seq<Op>, id: string, actual: Option<int>)
    ensures var l, l' := Run(ops), Run(ops + [SettleOp(id, actual)]);
            && (NoRow(l.rows, id) ==> l' == l)
            && forall i :: 0 <= i < |l.rows| && l.rows[i].id == id ==>
                 if l.rows[i].status == Open
                 then SettledAt(l, l', i, match actual case Some(a) => a case None => l.rows[i].reserved)
                 else l' == l
  {
    LedgerIsAlwaysBalanced(ops);
    RunOneMore(ops, SettleOp(id, actual));
    var l := Run(ops);
    forall i | 0 <= i < |l.rows| && l.rows[i].id == id
      ensures if l.rows[i].status == Open
              then SettledAt(l, Settle(l, id, actual), i, match actual case Some(a) => a case None => l.rows[i].reserved)
              else Settle(l, id, actual) == l
    {
      SettlingRow(l, i, actual);
    }
  }

  lemma SettlingRow(l: Ledger, i: nat, actual: Option<int>)
    requires i < |l.rows| && UniqueRowIds(l.rows)
    ensures var l' := Settle(l, l.rows[i].id, actual);
            if l.rows[i].status == Open then SettledAt(l, l', i, if actual.Some? then actual.value else l.rows[i].reserved) else l' == l
  {
    FindUnique(l.rows, i);
  }

  /** Releasing an open reservation marks it released and charges nobody; releasing anything else
      changes nothing. */
  lemma ReleasingChargesNobody(ops: seq<Op>, id: string)
    ensures var l, l' := Run(ops), Run(ops + [ReleaseOp(id)]);
            && l'.missionUsage == l.missionUsage && l'.dailyUsage == l.dailyUsage
            && (NoRow(l.rows, id) ==> l' == l)
            && forall i :: 0 <= i < |l.rows| && l.rows[i].id == id ==>
                 if l.rows[i].status == Open then l'.rows == l.rows[i := l.rows[i].(status := Released)] else l' == l
  {
    LedgerIsAlwaysBalanced(ops);
    RunOneMore(ops, ReleaseOp(id));
    var l := Run(ops);
    forall i | 0 <= i < |l.rows| && l.rows[i].id == id
      ensures FindById(l.rows, id) == Some(i)
    {
      FindUnique(l.rows, i);
    }
  }

  /** Nothing was reserved under this request before. */
  ghost predicate NewRequest(rows: seq<Row>, o: ReserveOptions) {
    o.requestId.Some? ==> forall j :: 0 <= j < |rows| ==> rows[j].grantScope != o.grantScope || rows[j].requestId != o.requestId
  }

  /** Reserving adds one open row for exactly what was asked, on the day of the clock and with five
      minutes to live unless told otherwise, and charges nobody; a request known before and an id
      already taken add none. */
  lemma ReservingAddsOneOpenRow(ops: seq<Op>, o: ReserveOptions, freshId: string, now: int)
    ensures var l, l' := Run(ops), Run(ops + [ReserveOp(o, freshId, now)]);
            && l'.missionUsage == l.missionUsage && l'.dailyUsage == l.dailyUsage
            && if NewRequest(l.rows, o) && NoRow(l.rows, freshId) then
                 && |l'.rows| == |l.rows| + 1 && l'.rows[..|l.rows|] == l.rows
                 && var row := l'.rows[|l.rows|];
                 && row == Row(freshId, o.requestId, o.grantScope, o.missionId, o.grantId, row.day, o.reserved, None, Open,
                               now + if o.ttlMs.Some? then o.ttlMs.value else 300_000)
                 && row.day * 86_400_000 <= now < (row.day + 1) * 86_400_000
               else l'.rows == l.rows
  {
    RunOneMore(ops, ReserveOp(o, freshId, now));
    NewRequestIsNotFound(Run(ops).rows, o);
  }

  /** The answer: the new reservation, or the one the request had before; a taken id is refused. */
  lemma ReservingAnswers(ops: seq<Op>, o: ReserveOptions, freshId: string, now: int)
    ensures var rows, r := Run(ops).rows, Reserve(Run(ops), o, freshId, now).1;
            && (NewRequest(rows, o) && NoRow(rows, freshId) ==> r == Reserved(Reservation(freshId, Open, o.reserved)))
            && (NewRequest(rows, o) && !NoRow(rows, freshId) ==> r == Refused)
            && forall i :: 0 <= i < |rows| && o.requestId.Some? && rows[i].grantScope == o.grantScope && rows[i].requestId == o.requestId ==>
                 r == Reserved(Reservation(rows[i].id, rows[i].status, rows[i].reserved))
  {
    LedgerIsAlwaysBalanced(ops);
    var l := Run(ops);
    NewRequestIsNotFound(l.rows, o);
    forall i | 0 <= i < |l.rows| && o.requestId.Some? && l.rows[i].grantScope == o.grantScope && l.rows[i].requestId == o.requestId
      ensures Reserve(l, o, freshId, now).1 == Reserved(Reservation(l.rows[i].id, l.rows[i].status, l.rows[i].reserved))
    {
      AnswersWithRow(l, i, o, freshId, now);
    }
  }

  lemma NewRequestIsNotFound(rows: seq<Row>, o: ReserveOptions)
    ensures NewRequest(rows, o) <==> FindByRequest(rows, o.grantScope, o.requestId).None?
  {
    var r := FindByRequest(rows, o.grantScope, o.requestId);
    if r.None? {
      forall j | 0 <= j < |rows| && o.requestId.Some?
        ensures rows[j].grantScope != o.grantScope || rows[j].requestId != o.requestId
      {
        assert !SameRequest(rows[j], o.grantScope, o.requestId);
      }
    }
  }

  /** The start-up sweep: every open reservation whose time ran out before now is charged in full, and
      no other row changes. */
  lemma SweepChargesInFull(ops: seq<Op>, now: int)
    ensures var rows, rows' := Run(ops).rows, Run(ops + [ExpireOp(now)]).rows;
            && |rows'| == |rows|
            && forall i :: 0 <= i < |rows| ==>
                 rows'[i] == if rows[i].status == Open && now > rows[i].expiresAt
                             then rows[i].(status := Settled, actual := Some(rows[i].reserved)) else rows[i]
  {
    LedgerIsAlwaysBalanced(ops);
    RunOneMore(ops, ExpireOp(now));
    ExpirySettlesExactlyTheOverdue(Run(ops), now);
  }
}
