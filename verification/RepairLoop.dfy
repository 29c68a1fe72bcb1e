/** The standalone validate-and-repair loop (src/autonomy/autonomous-repair-loop.ts): one
    loop with its stored record. Validation runner, repair strategy and edit session are oracles
    asked by the number of events so far; the log is the history of what they did to the
    repository. */
module RepairLoop {
  import opened Options

  datatype LoopState = Planned | Validating | Repairing | Completed | Failed | Interrupted

  datatype ValidationResult = ValidationResult(index: nat, command: string, passed: bool)

  datatype RepairAttempt = RepairAttempt(attempt: nat, failedIndex: nat, editState: Option<string>)

  datatype LoopError = LimitReached(attempts: nat) | EditNotApplied(state: string) | Thrown(message: string)

  /** The phase of a command is its position, so completed phases are positions. */
  datatype Record = Record(
    id: string,
    state: LoopState,
    commands: seq<string>,
    maxRepairAttempts: int,
    completedPhases: seq<nat>,
    validationResults: seq<ValidationResult>,
    repairAttempts: seq<RepairAttempt>,
    modifiedFiles: set<string>,
    error: Option<LoopError>)

  /** A repair throws before any edit, finds no edits, throws while applying them, or ends the edit
      session in some state. */
  datatype RepairOutcome =
    | StrategyThrew(message: string)
    | NoEdits
    | ApplyThrew(message: string)
    | EditEnded(state: string, appliedPaths: set<string>)

  datatype Event = Validated(index: nat, passed: bool) | Repaired(outcome: RepairOutcome)

  datatype Oracles = Oracles(validate: (nat, nat) -> bool, repair: (nat, nat) -> RepairOutcome)

  const NO_EDITS := "Repair strategy returned no edits."

  function ThrownMessage(outcome: RepairOutcome): string {
    match outcome
    case StrategyThrew(message) => message
    case NoEdits => NO_EDITS
    case ApplyThrew(message) => message
    case EditEnded(_, _) => ""
  }

  /** The event may have changed files of the repository. */
  predicate MayEdit(e: Event) {
    e.Repaired? && (e.outcome.ApplyThrew? || e.outcome.EditEnded?)
  }

  // ----- the history

  /** The last result of command `k` is a pass, and nothing was edited since. */
  predicate PassedSince(log: seq<Event>, k: nat) {
    if log == [] then false
    else
      var last := log[|log| - 1];
      if MayEdit(last) then false
      else if last.Validated? && last.index == k then last.passed
      else PassedSince(log[..|log| - 1], k)
  }

  ghost predicate PassesAt(log: seq<Event>, k: nat, i: nat) {
    && i < |log| && log[i] == Validated(k, true)
    && forall j :: i < j < |log| ==> !MayEdit(log[j]) && !(log[j].Validated? && log[j].index == k)
  }

  lemma {:induction false} PassedSinceIsAPassAfterTheLastEdit(log: seq<Event>, k: nat)
    ensures PassedSince(log, k) <==> exists i: nat :: PassesAt(log, k, i)
  {
    if log != [] {
      var n := |log| - 1;
      var front, last := log[..n], log[n];
      PassedSinceIsAPassAfterTheLastEdit(front, k);
      if PassedSince(log, k) {
        if last.Validated? && last.index == k {
          assert PassesAt(log, k, n);
        } else {
          var i: nat :| PassesAt(front, k, i);
          assert PassesAt(log, k, i);
        }
      }
      forall i: nat | PassesAt(log, k, i)
        ensures PassedSince(log, k)
      {
        if i < n { assert PassesAt(front, k, i); }
      }
    }
  }

  lemma PassedSinceNext(log: seq<Event>, e: Event, k: nat)
    ensures PassedSince(log + [e], k) <==>
              !MayEdit(e) && if e.Validated? && e.index == k then e.passed else PassedSince(log, k)
  {
    assert (log + [e])[..|log|] == log;
  }

  function ValidationsIn(log: seq<Event>): nat {
    if log == [] then 0 else ValidationsIn(log[..|log| - 1]) + if log[|log| - 1].Validated? then 1 else 0
  }

  function RepairsIn(log: seq<Event>): nat {
    if log == [] then 0 else RepairsIn(log[..|log| - 1]) + if log[|log| - 1].Repaired? then 1 else 0
  }

  /** One validation pass over `n` commands more than repairs. */
  predicate WithinPasses(log: seq<Event>, n: nat) {
    ValidationsIn(log) <= (RepairsIn(log) + 1) * n
  }

  function CommandAt(commands: seq<string>, k: nat): string {
    if k < |commands| then commands[k] else ""
  }

  function ResultsOf(commands: seq<string>, log: seq<Event>): seq<ValidationResult> {
    if log == [] then []
    else ResultsOf(commands, log[..|log| - 1]) + match log[|log| - 1]
      case Validated(k, passed) => [ValidationResult(k, CommandAt(commands, k), passed)]
      case Repaired(_) => []
  }

  function FailedIndex(log: seq<Event>): nat {
    if log != [] && log[|log| - 1].Validated? then log[|log| - 1].index else 0
  }

  function EditState(outcome: RepairOutcome): Option<string> {
    if outcome.EditEnded? then Some(outcome.state) else None
  }

  function AttemptsOf(before: nat, log: seq<Event>): seq<RepairAttempt> {
    if log == [] then []
    else
      var front := log[..|log| - 1];
      AttemptsOf(before, front) + match log[|log| - 1]
        case Validated(_, _) => []
        case Repaired(outcome) => [RepairAttempt(before + RepairsIn(front) + 1, FailedIndex(front), EditState(outcome))]
  }

  function PathsOf(log: seq<Event>): set<string> {
    if log == [] then {}
    else PathsOf(log[..|log| - 1]) + match log[|log| - 1]
      case Repaired(EditEnded(_, paths)) => paths
      case _ => {}
  }

  /** Each answer is the one the oracle gave, a repair comes right after a failed validation and
      nothing else does. */
  ghost predicate InOrder(oracles: Oracles, log: seq<Event>, from: nat) {
    forall i :: from <= i < |log| ==> Answered(oracles, log, i) && InPlace(log, from, i)
  }

  ghost predicate InPlace(log: seq<Event>, from: nat, i: nat)
    requires from <= i < |log|
  {
    log[i].Repaired? <==> i > from && log[i - 1].Validated? && !log[i - 1].passed
  }

  ghost predicate Answered(oracles: Oracles, log: seq<Event>, i: nat)
    requires i < |log|
  {
    match log[i]
    case Validated(k, passed) => passed == oracles.validate(i, k)
    case Repaired(outcome) => outcome == oracles.repair(i, FailedIndex(log[..i]))
  }

  // ----- record against history

  /** Every command passed after the last edit. */
  ghost predicate Fresh(log: seq<Event>, r: Record) {
    forall k: nat :: k < |r.commands| ==> PassedSince(log, k)
  }

  /** Where a run began: its record and the history before it. */
  datatype Origin = Origin(start: Record, base: seq<Event>)

  function Added(o: Origin, log: seq<Event>): seq<Event>
    requires |o.base| <= |log|
  {
    log[|o.base|..]
  }

  /** The record is what the events since the start made of it. */
  ghost predicate Explained(start: Record, added: seq<Event>, r: Record) {
    && r.id == start.id && r.commands == start.commands && r.maxRepairAttempts == start.maxRepairAttempts
    && r.validationResults == start.validationResults + ResultsOf(start.commands, added)
    && r.repairAttempts == start.repairAttempts + AttemptsOf(|start.repairAttempts|, added)
    && |r.repairAttempts| == |start.repairAttempts| + RepairsIn(added)
    && r.modifiedFiles == start.modifiedFiles + PathsOf(added)
  }

  ghost predicate Tracked(oracles: Oracles, o: Origin, log: seq<Event>, r: Record) {
    o.base <= log && Explained(o.start, Added(o, log), r) && InOrder(oracles, log, |o.base|)
  }

  function RepairsLeft(r: Record): nat {
    if |r.repairAttempts| < r.maxRepairAttempts then r.maxRepairAttempts - |r.repairAttempts| else 0
  }

  predicate HasRepaired(o: Origin, log: seq<Event>)
    requires |o.base| <= |log|
  {
    RepairsIn(Added(o, log)) > 0
  }

  /** Which completed phases passed after the last edit: those this run completed, and of those it
      found completed the ones that had. A repair in the run reopened all of them. */
  ghost predicate Standing(o: Origin, log: seq<Event>, r: Record)
    requires |o.base| <= |log|
  {
    && (forall k :: k in r.completedPhases ==> (PassedSince(log, k) <==> EverSince(o, log, k)))
    && (!HasRepaired(o, log) ==> forall k :: k in o.start.completedPhases ==> k in r.completedPhases)
  }

  predicate EverSince(o: Origin, log: seq<Event>, k: nat)
    requires |o.base| <= |log|
  {
    HasRepaired(o, log) || k !in o.start.completedPhases || PassedSince(o.base, k)
  }

  /** Of the commands the run finds completed, each passed after the last edit before it. */
  ghost predicate StartsTrue(o: Origin) {
    forall k: nat :: k < |o.start.commands| && k in o.start.completedPhases ==> PassedSince(o.base, k)
  }

  /** While the loop goes on: no more repairs than were left, and what is known of its phases. */
  ghost predicate Running(oracles: Oracles, o: Origin, log: seq<Event>, r: Record) {
    && Tracked(oracles, o, log, r)
    && RepairsIn(Added(o, log)) <= RepairsLeft(o.start)
    && Standing(o, log, r)
  }

  /** Between two rounds: every pass so far ended in a repair. */
  ghost predicate BetweenPasses(oracles: Oracles, o: Origin, log: seq<Event>, r: Record) {
    && Running(oracles, o, log, r)
    && ValidationsIn(Added(o, log)) <= RepairsIn(Added(o, log)) * |o.start.commands|
    && (|o.base| < |log| ==> log[|log| - 1].Repaired?)
  }

  /** Within a pass, before phase `index`: the earlier phases are completed. */
  ghost predicate InPass(oracles: Oracles, o: Origin, log: seq<Event>, r: Record, index: nat) {
    && Running(oracles, o, log, r)
    && ValidationsIn(Added(o, log)) <= RepairsIn(Added(o, log)) * |o.start.commands| + index
    && (|o.base| < |log| ==> log[|log| - 1].Repaired? || log[|log| - 1].passed)
    && forall k :: 0 <= k < index ==> k in r.completedPhases
  }

  /** After a pass that command `failed` failed. */
  ghost predicate PassFailed(oracles: Oracles, o: Origin, log: seq<Event>, r: Record, failed: nat) {
    && Running(oracles, o, log, r)
    && WithinPasses(Added(o, log), |o.start.commands|)
    && |o.base| < |log| && log[|log| - 1] == Validated(failed, false)
  }

  /** Why a run ended in failure. */
  ghost predicate FailedForCause(log: seq<Event>, r: Record) {
    && |log| > 0 && r.error.Some?
    && match log[|log| - 1]
       case Validated(_, passed) =>
         !passed && r.error.value == LimitReached(|r.repairAttempts|) && |r.repairAttempts| >= r.maxRepairAttempts
       case Repaired(StrategyThrew(message)) => r.error.value == Thrown(message)
       case Repaired(NoEdits) => r.error.value == Thrown(NO_EDITS)
       case Repaired(ApplyThrew(message)) => r.error.value == Thrown(message)
       case Repaired(EditEnded(state, _)) => state != "applied" && r.error.value == EditNotApplied(state)
  }

  /** The end of a run: completed or failed for cause; within the repairs that were left, and at most
      one validation pass more than repairs. A completed run leaves every command passed after the
      last edit exactly when it made a repair or the phases it skipped had passed since. */
  ghost predicate Ended(oracles: Oracles, o: Origin, log: seq<Event>, r: Record) {
    && Tracked(oracles, o, log, r)
    && (r.state == Completed || (r.state == Failed && FailedForCause(log, r)))
    && (r.state == Completed ==> (Fresh(log, r) <==> HasRepaired(o, log) || StartsTrue(o)))
    && RepairsIn(Added(o, log)) <= RepairsLeft(o.start)
    && WithinPasses(Added(o, log), |o.start.commands|)
  }

  // ----- the steps

  function WithResult(r: Record, k: nat, passed: bool): Record
    requires k < |r.commands|
  {
    r.(validationResults := r.validationResults + [ValidationResult(k, r.commands[k], passed)],
       completedPhases := if passed then r.completedPhases + [k] else r.completedPhases)
  }

  /** An applied edit reopens every phase; anything else ends the loop. */
  function WithRepair(r: Record, failed: nat, outcome: RepairOutcome): Record {
    var r' := r.(repairAttempts := r.repairAttempts + [RepairAttempt(|r.repairAttempts| + 1, failed, EditState(outcome))]);
    match outcome
    case EditEnded(state, appliedPaths) =>
      r'.(state := if state == "applied" then Validating else Failed,
          completedPhases := [],
          modifiedFiles := r.modifiedFiles + appliedPaths,
          error := if state == "applied" then None else Some(EditNotApplied(state)))
    case _ => r'.(state := Failed, error := Some(Thrown(ThrownMessage(outcome))))
  }

  lemma HistoryNext(commands: seq<string>, before: nat, added: seq<Event>, e: Event)
    ensures ResultsOf(commands, added + [e]) == ResultsOf(commands, added)
              + if e.Validated? then [ValidationResult(e.index, CommandAt(commands, e.index), e.passed)] else []
    ensures AttemptsOf(before, added + [e]) == AttemptsOf(before, added)
              + if e.Repaired? then [RepairAttempt(before + RepairsIn(added) + 1, FailedIndex(added), EditState(e.outcome))] else []
    ensures RepairsIn(added + [e]) == RepairsIn(added) + if e.Repaired? then 1 else 0
    ensures ValidationsIn(added + [e]) == ValidationsIn(added) + if e.Validated? then 1 else 0
    ensures PathsOf(added + [e]) == PathsOf(added)
              + if e.Repaired? && e.outcome.EditEnded? then e.outcome.appliedPaths else {}
  {
    assert (added + [e])[..|added|] == added;
  }

  lemma AddedNext(o: Origin, log: seq<Event>, e: Event)
    requires |o.base| <= |log|
    ensures Added(o, log + [e]) == Added(o, log) + [e]
    ensures |o.base| < |log| ==> Added(o, log) != [] && Added(o, log)[|Added(o, log)| - 1] == log[|log| - 1]
  {}

  lemma ResultTracked(oracles: Oracles, o: Origin, log: seq<Event>, r: Record, k: nat, passed: bool)
    requires Tracked(oracles, o, log, r) && k < |r.commands| && passed == oracles.validate(|log|, k)
    requires |o.base| < |log| ==> log[|log| - 1].Repaired? || log[|log| - 1].passed
    ensures Tracked(oracles, o, log + [Validated(k, passed)], WithResult(r, k, passed))
  {
    var e := Validated(k, passed);
    HistoryNext(o.start.commands, |o.start.repairAttempts|, Added(o, log), e);
    AddedNext(o, log, e);
    InOrderNext(oracles, log, |o.base|, e);
  }

  lemma RepairTracked(oracles: Oracles, o: Origin, log: seq<Event>, r: Record, failed: nat, outcome: RepairOutcome)
    requires Tracked(oracles, o, log, r) && outcome == oracles.repair(|log|, failed)
    requires |o.base| < |log| && log[|log| - 1] == Validated(failed, false)
    ensures Tracked(oracles, o, log + [Repaired(outcome)], WithRepair(r, failed, outcome))
  {
    var e := Repaired(outcome);
    HistoryNext(o.start.commands, |o.start.repairAttempts|, Added(o, log), e);
    AddedNext(o, log, e);
    assert (log + [e])[..|log|] == log;
    InOrderNext(oracles, log, |o.base|, e);
  }

  lemma InOrderNext(oracles: Oracles, log: seq<Event>, from: nat, e: Event)
    requires from <= |log| && InOrder(oracles, log, from) && Answered(oracles, log + [e], |log|)
    requires e.Repaired? <==> from < |log| && log[|log| - 1].Validated? && !log[|log| - 1].passed
    ensures InOrder(oracles, log + [e], from)
  {
    var more := log + [e];
    forall i | from <= i < |more|
      ensures Answered(oracles, more, i) && InPlace(more, from, i)
    {
      if i < |log| {
        assert more[..i] == log[..i];
        assert Answered(oracles, log, i) && InPlace(log, from, i);
      }
    }
  }

  lemma OnePassMore(added: seq<Event>, n: nat, index: nat)
    requires ValidationsIn(added) <= RepairsIn(added) * n + index && index <= n
    ensures WithinPasses(added, n)
  {
    assert (RepairsIn(added) + 1) * n == RepairsIn(added) * n + n;
  }

  lemma ResultStands(o: Origin, log: seq<Event>, r: Record, k: nat, passed: bool)
    requires |o.base| <= |log| && k < |r.commands| && k !in r.completedPhases && Standing(o, log, r)
    ensures Standing(o, log + [Validated(k, passed)], WithResult(r, k, passed))
  {
    var e := Validated(k, passed);
    var more := log + [e];
    HistoryNext(o.start.commands, 0, Added(o, log), e);
    AddedNext(o, log, e);
    forall j | j in WithResult(r, k, passed).completedPhases
      ensures PassedSince(more, j) <==> EverSince(o, more, j)
    {
      PassedSinceNext(log, e, j);
      assert j != k ==> j in r.completedPhases;
    }
  }

  lemma PhaseRecorded(oracles: Oracles, o: Origin, log: seq<Event>, r: Record, k: nat, passed: bool)
    requires InPass(oracles, o, log, r, k) && k < |r.commands| && k !in r.completedPhases
    requires passed == oracles.validate(|log|, k)
    ensures var more, r' := log + [Validated(k, passed)], WithResult(r, k, passed);
            if passed then InPass(oracles, o, more, r', k + 1) else PassFailed(oracles, o, more, r', k)
  {
    var e := Validated(k, passed);
    ResultTracked(oracles, o, log, r, k, passed);
    ResultStands(o, log, r, k, passed);
    HistoryNext(o.start.commands, 0, Added(o, log), e);
    AddedNext(o, log, e);
    OnePassMore(Added(o, log + [e]), |o.start.commands|, k + 1);
  }

  lemma PassSucceeds(oracles: Oracles, o: Origin, log: seq<Event>, r: Record)
    requires InPass(oracles, o, log, r, |r.commands|)
    ensures Ended(oracles, o, log, r.(state := Completed))
  {
    OnePassMore(Added(o, log), |o.start.commands|, |o.start.commands|);
    CompletedIsFresh(oracles, o, log, r);
  }

  lemma CompletedIsFresh(oracles: Oracles, o: Origin, log: seq<Event>, r: Record)
    requires InPass(oracles, o, log, r, |r.commands|)
    ensures Fresh(log, r) <==> HasRepaired(o, log) || StartsTrue(o)
  {
    assert forall k: nat :: k < |r.commands| ==> (PassedSince(log, k) <==> EverSince(o, log, k));
    if Fresh(log, r) && !HasRepaired(o, log) {
      forall k: nat | k < |o.start.commands| && k in o.start.completedPhases
        ensures PassedSince(o.base, k)
      {
        assert PassedSince(log, k) && EverSince(o, log, k);
      }
    }
  }

  lemma LimitEnds(oracles: Oracles, o: Origin, log: seq<Event>, r: Record, failed: nat)
    requires PassFailed(oracles, o, log, r, failed) && |r.repairAttempts| >= r.maxRepairAttempts
    ensures Ended(oracles, o, log, r.(state := Failed, error := Some(LimitReached(|r.repairAttempts|))))
  {}

  lemma RepairRecorded(oracles: Oracles, o: Origin, log: seq<Event>, r: Record, failed: nat, outcome: RepairOutcome)
    requires PassFailed(oracles, o, log, r, failed) && |r.repairAttempts| < r.maxRepairAttempts
    requires outcome == oracles.repair(|log|, failed)
    ensures var more, r' := log + [Repaired(outcome)], WithRepair(r, failed, outcome);
            if r'.state == Failed then Ended(oracles, o, more, r') else BetweenPasses(oracles, o, more, r')
  {
    RepairTracked(oracles, o, log, r, failed, outcome);
    HistoryNext(o.start.commands, 0, Added(o, log), Repaired(outcome));
    AddedNext(o, log, Repaired(outcome));
  }

  // ----- the run as a function

  datatype PassResult = PassResult(record: Record, log: seq<Event>, failure: Option<nat>)

  /** A validation pass from phase `index` on. */
  function PassFrom(oracles: Oracles, log: seq<Event>, r: Record, index: nat): (p: PassResult)
    requires index <= |r.commands|
    ensures p.record.repairAttempts == r.repairAttempts && p.record.maxRepairAttempts == r.maxRepairAttempts
    decreases |r.commands| - index
  {
    if index == |r.commands| then PassResult(r, log, None)
    else if index in r.completedPhases then PassFrom(oracles, log, r, index + 1)
    else
      var passed := oracles.validate(|log|, index);
      var r', log' := WithResult(r, index, passed), log + [Validated(index, passed)];
      if passed then PassFrom(oracles, log', r', index + 1) else PassResult(r', log', Some(index))
  }

  /** The loop: passes and repairs until a pass succeeds, the attempts are used up or a repair fails. */
  function RunLoop(oracles: Oracles, log: seq<Event>, r: Record): (Record, seq<Event>)
    decreases r.maxRepairAttempts - |r.repairAttempts|
  {
    var p := PassFrom(oracles, log, r.(state := Validating), 0);
    if p.failure.None? then (p.record.(state := Completed), p.log)
    else if |p.record.repairAttempts| >= p.record.maxRepairAttempts then
      (p.record.(state := Failed, error := Some(LimitReached(|p.record.repairAttempts|))), p.log)
    else
      var outcome := oracles.repair(|p.log|, p.failure.value);
      var r', log' := WithRepair(p.record, p.failure.value, outcome), p.log + [Repaired(outcome)];
      if r'.state == Failed then (r', log') else RunLoop(oracles, log', r')
  }

  ghost predicate PassDone(oracles: Oracles, o: Origin, p: PassResult) {
    match p.failure
    case None => InPass(oracles, o, p.log, p.record, |p.record.commands|)
    case Some(k) => PassFailed(oracles, o, p.log, p.record, k)
  }

  lemma {:induction false} PassEnds(oracles: Oracles, o: Origin, log: seq<Event>, r: Record, index: nat)
    requires index <= |r.commands| && InPass(oracles, o, log, r, index)
    ensures PassDone(oracles, o, PassFrom(oracles, log, r, index))
    decreases |r.commands| - index
  {
    if index == |r.commands| {
      assert PassDone(oracles, o, PassResult(r, log, None));
    } else {
      if index in r.completedPhases {
        PassEnds(oracles, o, log, r, index + 1);
      } else {
        var passed := oracles.validate(|log|, index);
        PhaseRecorded(oracles, o, log, r, index, passed);
        var r', log' := WithResult(r, index, passed), log + [Validated(index, passed)];
        if passed {
          PassEnds(oracles, o, log', r', index + 1);
        } else {
          assert PassDone(oracles, o, PassResult(r', log', Some(index)));
        }
      }
    }
  }

  lemma {:induction false} LoopEnds(oracles: Oracles, o: Origin, log: seq<Event>, r: Record)
    requires BetweenPasses(oracles, o, log, r)
    ensures var (r', log') := RunLoop(oracles, log, r); Ended(oracles, o, log', r')
    decreases r.maxRepairAttempts - |r.repairAttempts|
  {
    PassEnds(oracles, o, log, r.(state := Validating), 0);
    var p := PassFrom(oracles, log, r.(state := Validating), 0);
    match p.failure {
      case None => PassSucceeds(oracles, o, p.log, p.record);
      case Some(k) =>
        if |p.record.repairAttempts| >= p.record.maxRepairAttempts {
          LimitEnds(oracles, o, p.log, p.record, k);
        } else {
          var outcome := oracles.repair(|p.log|, k);
          RepairRecorded(oracles, o, p.log, p.record, k, outcome);
          var r' := WithRepair(p.record, k, outcome);
          if r'.state != Failed {
            LoopEnds(oracles, o, p.log + [Repaired(outcome)], r');
          }
        }
    }
  }

  /** Every run ends, completed or failed for its cause, within its bounds, and with exactly the
      freshness its record allows. */
  lemma EveryRunEnds(oracles: Oracles, log: seq<Event>, record: Record)
    ensures var (r, log') := RunLoop(oracles, log, record); Ended(oracles, Origin(record, log), log', r)
  {
    var o := Origin(record, log);
    assert Added(o, log) == [];
    LoopEnds(oracles, o, log, record);
  }

  // ----- the loop

  datatype CreateResult = Created(record: Record) | NoCommands | BadAttemptLimit

  class AutonomousRepairLoop {
    const oracles: Oracles
    var store: Option<Record>     // the persisted record of the loop
    var log: seq<Event>

    constructor (oracles: Oracles)
      ensures this.oracles == oracles && store == None && log == []
    {
      this.oracles := oracles;
      store := None;
      log := [];
    }

    method Create(id: string, commands: seq<string>, maxRepairAttempts: Option<int>) returns (result: CreateResult)
      modifies this`store
      ensures result.NoCommands? <==> commands == []
      ensures result.BadAttemptLimit? <==> commands != [] && maxRepairAttempts.Some? && !(0 <= maxRepairAttempts.value <= 10)
      ensures result.Created? ==>
                && store == Some(result.record) && result.record.id == id
                && result.record.state == Planned && result.record.commands == commands
                && result.record.maxRepairAttempts == (if maxRepairAttempts.Some? then maxRepairAttempts.value else 3)
                && result.record.completedPhases == [] && result.record.validationResults == []
                && result.record.repairAttempts == [] && result.record.modifiedFiles == {}
      ensures !result.Created? ==> store == old(store)
    {
      if commands == [] { return NoCommands; }
      var limit := if maxRepairAttempts.Some? then maxRepairAttempts.value else 3;
      if limit < 0 || limit > 10 { return BadAttemptLimit; }
      var record := Record(id, Planned, commands, limit, [], [], [], {}, None);
      store := Some(record);
      result := Created(record);
    }

    /** A missing record is an error, a finished one is returned as it is, any other one is run
        again. */
    method Resume() returns (result: Option<Record>)
      modifies this
      ensures old(store).None? ==> result == None && store == None && log == old(log)
      ensures old(store).Some? && old(store).value.state in {Completed, Failed} ==>
                result == store == old(store) && log == old(log)
      ensures old(store).Some? && old(store).value.state !in {Completed, Failed} ==>
                && result.Some? && store == result
                && (result.value, log) == RunLoop(oracles, old(log), old(store).value.(state := Interrupted))
                && Ended(oracles, Origin(old(store).value, old(log)), log, result.value)
    {
      if store.None? { return None; }
      var record := store.value;
      if record.state == Completed || record.state == Failed { return Some(record); }
      var final := Run(record.(state := Interrupted));
      result := Some(final);
    }

    method Run(record: Record) returns (current: Record)
      modifies this
      ensures (current, log) == RunLoop(oracles, old(log), record)
      ensures Ended(oracles, Origin(record, old(log)), log, current)
      ensures store == Some(current)
    {
      current := record;
      EveryRunEnds(oracles, log, record);
      while true
        invariant RunLoop(oracles, log, current) == RunLoop(oracles, old(log), record)
        decreases current.maxRepairAttempts - |current.repairAttempts|
      {
        var failure;
        current, failure := RunValidationPass(current);
        if failure.None? {
          current := current.(state := Completed);
          store := Some(current);
          return;
        }
        if |current.repairAttempts| >= current.maxRepairAttempts {
          current := current.(state := Failed, error := Some(LimitReached(|current.repairAttempts|)));
          store := Some(current);
          return;
        }
        current := Repair(current, failure.value);
        if current.state == Failed { return; }
      }
    }

    /** Validates the phases that are not completed, until one fails. */
    method RunValidationPass(record: Record) returns (current: Record, failure: Option<nat>)
      modifies this
      ensures PassResult(current, log, failure) == PassFrom(oracles, old(log), record.(state := Validating), 0)
      ensures store == Some(current)
    {
      current := record.(state := Validating);
      store := Some(current);
      failure := None;
      for index := 0 to |current.commands|
        invariant current.commands == record.commands && store == Some(current)
        invariant PassFrom(oracles, log, current, index) == PassFrom(oracles, old(log), record.(state := Validating), 0)
      {
        if index in current.completedPhases { continue; }
        var passed := oracles.validate(|log|, index);
        current := WithResult(current, index, passed);
        log := log + [Validated(index, passed)];
        store := Some(current);
        if !passed { return current, Some(index); }
      }
    }

    /** One repair of the failed command: the attempt is recorded whatever comes of it. */
    method Repair(record: Record, failed: nat) returns (current: Record)
      modifies this
      ensures var outcome := oracles.repair(|old(log)|, failed);
              current == WithRepair(record, failed, outcome) && log == old(log) + [Repaired(outcome)]
      ensures store == Some(current)
    {
      store := Some(record.(state := Repairing));
      var outcome := oracles.repair(|log|, failed);
      current := WithRepair(record, failed, outcome);
      log := log + [Repaired(outcome)];
      store := Some(current);
    }
  }

  /** A crash before the result of a phase was saved is harmless: what the record lists is as true
      after it as before. */
  lemma CrashDuringValidation(log: seq<Event>, saved: Record, k: nat, passed: bool)
    requires k !in saved.completedPhases
    ensures StartsTrue(Origin(saved, log + [Validated(k, passed)])) <==> StartsTrue(Origin(saved, log))
  {
    forall j: nat | j in saved.completedPhases
      ensures PassedSince(log + [Validated(k, passed)], j) <==> PassedSince(log, j)
    {
      PassedSinceNext(log, Validated(k, passed), j);
    }
  }

  // ----- a crash in the middle of an edit

  /** Two commands, of which the second fails once and then passes; every repair is applied. */
  const CRASH_ORACLES := Oracles((n: nat, k: nat) => n != 1, (n: nat, k: nat) => EditEnded("applied", {"a.ts"}))
  const CRASH_RECORD := Record("repair-1", Planned, ["lint", "test"], 3, [], [], [], {}, None)

  /** The process dies after the edit was applied and before its record was saved: the stored record
      is the one saved when the repair began. Resumed, the loop completes without running the first
      command again, although that command never passed after the edit. Uninterrupted, the same loop
      runs it again. */
  lemma CrashDuringEdit()
    ensures var pass := PassFrom(CRASH_ORACLES, [], CRASH_RECORD.(state := Validating), 0);
            var saved := pass.record.(state := Repairing);
            var edited := pass.log + [Repaired(EditEnded("applied", {"a.ts"}))];
            var (resumed, log) := RunLoop(CRASH_ORACLES, edited, saved.(state := Interrupted));
            && pass.failure == Some(1) && saved.completedPhases == [0]
            && resumed.state == Completed && !PassedSince(log, 0) && !Fresh(log, resumed)
    ensures var (uninterrupted, log) := RunLoop(CRASH_ORACLES, [], CRASH_RECORD);
            uninterrupted.state == Completed && Fresh(log, uninterrupted)
  {
    FirstPass();
    ResumedRun();
    UninterruptedRun();
  }

  lemma FirstPass()
    ensures var pass := PassFrom(CRASH_ORACLES, [], CRASH_RECORD.(state := Validating), 0);
            && pass.log == [Validated(0, true), Validated(1, false)] && pass.failure == Some(1)
            && pass.record.completedPhases == [0] && pass.record.commands == CRASH_RECORD.commands
            && pass.record.repairAttempts == [] && pass.record.maxRepairAttempts == 3
  {
    var r0 := CRASH_RECORD.(state := Validating);
    var r1 := WithResult(r0, 0, true);
    assert [] + [Validated(0, true)] == [Validated(0, true)];
    assert PassFrom(CRASH_ORACLES, [], r0, 0) == PassFrom(CRASH_ORACLES, [Validated(0, true)], r1, 1);
    assert r1.completedPhases == [0];
  }

  lemma ResumedRun()
    ensures var pass := PassFrom(CRASH_ORACLES, [], CRASH_RECORD.(state := Validating), 0);
            var edited := pass.log + [Repaired(EditEnded("applied", {"a.ts"}))];
            var (resumed, log) := RunLoop(CRASH_ORACLES, edited, pass.record.(state := Interrupted));
            resumed.state == Completed && resumed.commands == CRASH_RECORD.commands && !PassedSince(log, 0)
  {
    FirstPass();
    var pass := PassFrom(CRASH_ORACLES, [], CRASH_RECORD.(state := Validating), 0);
    var edited := pass.log + [Repaired(EditEnded("applied", {"a.ts"}))];
    var r := pass.record.(state := Validating);
    var log := edited + [Validated(1, true)];
    assert PassFrom(CRASH_ORACLES, edited, r, 0) == PassFrom(CRASH_ORACLES, edited, r, 1);
    assert PassFrom(CRASH_ORACLES, edited, r, 1) == PassFrom(CRASH_ORACLES, log, WithResult(r, 1, true), 2);
    PassedSinceNext(edited, Validated(1, true), 0);
    PassedSinceNext(pass.log, Repaired(EditEnded("applied", {"a.ts"})), 0);
  }

  /** A record without completed phases starts true, so a new loop that completes is fresh. */
  lemma UninterruptedRun()
    ensures var (r, log) := RunLoop(CRASH_ORACLES, [], CRASH_RECORD); r.state == Completed && Fresh(log, r)
  {
    EveryRunEnds(CRASH_ORACLES, [], CRASH_RECORD);
    FirstPass();
    var pass := PassFrom(CRASH_ORACLES, [], CRASH_RECORD.(state := Validating), 0);
    var outcome := CRASH_ORACLES.repair(2, 1);
    SecondPass(pass.log + [Repaired(outcome)], WithRepair(pass.record, 1, outcome));
  }

  lemma SecondPass(log: seq<Event>, r: Record)
    requires |log| == 3 && r.completedPhases == [] && r.commands == CRASH_RECORD.commands
    ensures PassFrom(CRASH_ORACLES, log, r.(state := Validating), 0).failure == None
  {
    var r0 := r.(state := Validating);
    var r1 := WithResult(r0, 0, true);
    var log1 := log + [Validated(0, true)];
    assert r1.completedPhases == [0];
    assert PassFrom(CRASH_ORACLES, log, r0, 0) == PassFrom(CRASH_ORACLES, log1, r1, 1);
    assert PassFrom(CRASH_ORACLES, log1, r1, 1) == PassFrom(CRASH_ORACLES, log1 + [Validated(1, true)], WithResult(r1, 1, true), 2);
  }
}
