/** What the validate-and-repair loop does after each edit, and what its final record says
    (src/autonomy/autonomous-repair-loop.ts). */
module RepairLoopEnds {
  import opened Options
  import opened RepairLoop

  predicate Applied(outcome: RepairOutcome) {
    outcome.EditEnded? && outcome.state == "applied"
  }

  /** One repair on the record: the attempt with the state its edit ended in, if it got that far. An
      applied edit reopens every phase and clears the error; one that ended otherwise does not go on, and
      reopens them too; a repair that threw or found nothing to edit fails with its message and leaves
      the phases alone. */
  lemma RepairIsRecorded(r: Record, failed: nat, outcome: RepairOutcome)
    ensures var r' := WithRepair(r, failed, outcome);
            var ended := if outcome.EditEnded? then Some(outcome.state) else None;
            && r'.repairAttempts == r.repairAttempts + [RepairAttempt(|r.repairAttempts| + 1, failed, ended)]
            && r' == Record(r.id, if Applied(outcome) then Validating else Failed, r.commands, r.maxRepairAttempts,
                            if outcome.EditEnded? then [] else r.completedPhases, r.validationResults, r'.repairAttempts,
                            r.modifiedFiles + if outcome.EditEnded? then outcome.appliedPaths else {}, r'.error)
            && r'.error == match outcome
                           case StrategyThrew(message) => Some(Thrown(message))
                           case NoEdits => Some(Thrown("Repair strategy returned no edits."))
                           case ApplyThrew(message) => Some(Thrown(message))
                           case EditEnded(state, _) => if state == "applied" then None else Some(EditNotApplied(state))
  {}

  /** Nothing happens after a repair that was not applied. */
  ghost predicate EndsAtUnapplied(log: seq<Event>, from: nat, r: Record) {
    forall i :: from <= i < |log| && log[i].Repaired? && !Applied(log[i].outcome) ==> i + 1 == |log| && r.state == Failed
  }

  ghost predicate OnlyValidations(log: seq<Event>, from: nat) {
    forall i :: from <= i < |log| ==> log[i].Validated?
  }

  lemma {:induction false} PassOnlyValidates(oracles: Oracles, log: seq<Event>, r: Record, index: nat)
    requires index <= |r.commands|
    ensures var p := PassFrom(oracles, log, r, index);
            && log <= p.log && OnlyValidations(p.log, |log|)
            && p.record == r.(completedPhases := p.record.completedPhases, validationResults := p.record.validationResults)
            && (forall k :: k in r.completedPhases ==> k in p.record.completedPhases)
            && (p.failure.None? ==> forall k :: index <= k < |r.commands| ==> k in p.record.completedPhases)
    decreases |r.commands| - index
  {
    if index < |r.commands| {
      if index in r.completedPhases {
        PassOnlyValidates(oracles, log, r, index + 1);
      } else {
        var passed := oracles.validate(|log|, index);
        var r', log' := WithResult(r, index, passed), log + [Validated(index, passed)];
        if passed {
          assert index in r'.completedPhases;
          PassOnlyValidates(oracles, log', r', index + 1);
        }
      }
    }
  }

  /** A completed loop lists every phase, and its error is the one it began with unless it repaired; a
      repair that was not applied ends the loop in failure at once. */
  ghost predicate EndsWell(start: Record, base: seq<Event>, r: Record, log: seq<Event>) {
    && base <= log && EndsAtUnapplied(log, |base|, r)
    && r.commands == start.commands
    && (r.state == Completed ==>
          && (forall k: nat :: k < |r.commands| ==> k in r.completedPhases)
          && r.error == if OnlyValidations(log, |base|) then start.error else None)
  }

  lemma {:induction false} LoopEndsWell(oracles: Oracles, log: seq<Event>, record: Record)
    ensures var (r, log') := RunLoop(oracles, log, record); EndsWell(record, log, r, log')
    decreases record.maxRepairAttempts - |record.repairAttempts|
  {
    var p := PassFrom(oracles, log, record.(state := Validating), 0);
    PassOnlyValidates(oracles, log, record.(state := Validating), 0);
    if p.failure.Some? && |p.record.repairAttempts| < p.record.maxRepairAttempts {
      var outcome := oracles.repair(|p.log|, p.failure.value);
      var r', log' := WithRepair(p.record, p.failure.value, outcome), p.log + [Repaired(outcome)];
      RepairIsRecorded(p.record, p.failure.value, outcome);
      if r'.state != Failed {
        LoopEndsWell(oracles, log', r');
        var (r, all) := RunLoop(oracles, log', r');
        RoundEndsWell(record, log, p.log, outcome, r', r, all);
      }
    }
  }

  lemma RoundEndsWell(start: Record, base: seq<Event>, passed: seq<Event>, outcome: RepairOutcome, mid: Record, r: Record, log: seq<Event>)
    requires base <= passed && OnlyValidations(passed, |base|) && Applied(outcome)
    requires mid.commands == start.commands && mid.error == None && EndsWell(mid, passed + [Repaired(outcome)], r, log)
    ensures EndsWell(start, base, r, log)
  {
    var before := passed + [Repaired(outcome)];
    assert forall i :: 0 <= i < |before| ==> log[i] == before[i];
    assert forall i :: |base| <= i < |passed| ==> before[i].Validated?;
    assert log[|passed|] == before[|passed|];
  }
}
