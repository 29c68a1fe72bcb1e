/** The repair controller over whole runs: its stored record under any sequence of recorded
    validations and requested repairs. */
module RepairRuns {
  import opened Options
  import opened TaskGraph
  import opened MissionRecord
  import opened RepairController

  function NewRecord(phases: seq<string>, maxRepairAttempts: nat): RepairRecord {
    RepairRecord(Planned, phases, maxRepairAttempts, {}, [], 0, {})
  }

  class PersistentMissionRepairController {
    const phases: seq<string>
    const maxRepairAttempts: nat
    var store: Option<RepairRecord>

    constructor (phases: seq<string>, maxRepairAttempts: nat)
      ensures this.phases == phases && this.maxRepairAttempts == maxRepairAttempts && store == None
    {
      this.phases := phases;
      this.maxRepairAttempts := maxRepairAttempts;
      store := None;
    }

    /** The stored record, or the one a first call creates. */
    ghost function Current(): RepairRecord
      reads this
    {
      if store.Some? then store.value else NewRecord(phases, maxRepairAttempts)
    }

    method LoadOrCreate() returns (record: RepairRecord)
      modifies this`store
      ensures record == old(Current()) && store == Some(record)
    {
      if store.None? {
        store := Some(RepairRecord(Planned, phases, maxRepairAttempts, {}, [], 0, {}));
      }
      record := store.value;
    }

    method RecordValidation(taskId: string, passed: bool) returns (updated: RepairRecord)
      modifies this`store
      ensures store == Some(updated) && updated == Step(old(Current()), ValidationRecorded(taskId, passed))
    {
      var record := LoadOrCreate();
      var completed := if passed then record.completedPhases + {taskId} else {};
      updated := record.(
        state := if !passed then LoopRepairing else if AllPassed(record, completed) then LoopCompleted else LoopValidating,
        completedPhases := completed,
        validationResults := record.validationResults + [ValidationEntry(taskId, passed)]);
      store := Some(updated);
    }

    method Repair(edit: Outcome) returns (result: TaskResult)
      modifies this`store
      ensures store.Some? && (store.value, result) == AttemptRepair(old(Current()), edit)
    {
      var record := LoadOrCreate();
      if !HasFailure(record) {
        result := Exhausted(record, "No failed validation result is available for repair.");
        return;
      }
      if record.repairAttempts >= record.maxRepairAttempts {
        result := Exhausted(record, "Repair retry limit reached.");
        return;
      }
      store := Some(record.(state := LoopRepairing));
      match edit {
        case Returned(r) => result := r;
        case Threw(message) =>
          result := TaskResult(ResultFailed, [Evidence("diagnostic", "repair-exception")], [], {}, [message]);
      }
      store := Some(record.(
        state := if result.state == ResultCompleted then LoopValidating else LoopFailed,
        completedPhases := {},
        repairAttempts := record.repairAttempts + 1,
        modifiedFiles := record.modifiedFiles + result.modifiedFiles));
    }

    method Exhausted(record: RepairRecord, message: string) returns (result: TaskResult)
      modifies this`store
      ensures store == Some(record.(state := LoopFailed)) && result == TerminalFailure(record, message).1
    {
      store := Some(record.(state := LoopFailed));
      result := TaskResult(ResultFailed, [Evidence("diagnostic", "repair-exhausted")], [], {}, [message]);
    }
  }

  // ----- whole runs

  datatype Op = ValidationRecorded(taskId: string, passed: bool) | RepairRequested(edit: Outcome)

  function Step(r: RepairRecord, op: Op): RepairRecord {
    match op
    case ValidationRecorded(taskId, passed) => RepairController.RecordValidation(r, taskId, passed)
    case RepairRequested(edit) => AttemptRepair(r, edit).0
  }

  function Run(start: RepairRecord, ops: seq<Op>): RepairRecord {
    if ops == [] then start else Step(Run(start, ops[..|ops| - 1]), ops[|ops| - 1])
  }

  /** The repair runs the edit executor. */
  predicate Executes(r: RepairRecord, op: Op) {
    op.RepairRequested? && HasFailure(r) && r.repairAttempts < r.maxRepairAttempts
  }

  function Executions(start: RepairRecord, ops: seq<Op>): nat {
    if ops == [] then 0
    else
      var front := ops[..|ops| - 1];
      Executions(start, front) + if Executes(Run(start, front), ops[|ops| - 1]) then 1 else 0
  }

  /** In every run the edit executor runs exactly once for each attempt spent, so never more often
      than attempts were left at the start. */
  lemma {:induction false} EditsSpendTheAttempts(start: RepairRecord, ops: seq<Op>)
    ensures Executions(start, ops) + RepairsLeft(Run(start, ops)) == RepairsLeft(start)
    ensures Run(start, ops).repairAttempts == start.repairAttempts + Executions(start, ops)
    ensures Run(start, ops).maxRepairAttempts == start.maxRepairAttempts && Run(start, ops).phases == start.phases
  {
    if ops != [] {
      EditsSpendTheAttempts(start, ops[..|ops| - 1]);
    }
  }

  /** The operation undoes what was validated: a failed validation, or a repair that ran. */
  predicate Resets(r: RepairRecord, op: Op) {
    Executes(r, op) || (op.ValidationRecorded? && !op.passed)
  }

  /** The i-th operation recorded a pass of the phase, and nothing after it undid it. */
  ghost predicate Stands(start: RepairRecord, ops: seq<Op>, phase: string, i: nat) {
    && i < |ops| && ops[i] == ValidationRecorded(phase, true)
    && forall j: nat :: i < j < |ops| ==> !ResetsAt(start, ops, j)
  }

  predicate ResetsAt(start: RepairRecord, ops: seq<Op>, j: nat)
    requires j < |ops|
  {
    Resets(Run(start, ops[..j]), ops[j])
  }

  lemma StandsNext(start: RepairRecord, ops: seq<Op>, op: Op, phase: string, i: nat)
    ensures i < |ops| ==>
              (Stands(start, ops + [op], phase, i) <==> Stands(start, ops, phase, i) && !Resets(Run(start, ops), op))
    ensures Stands(start, ops + [op], phase, |ops|) <==> op == ValidationRecorded(phase, true)
  {
    var all := ops + [op];
    assert all[..|ops|] == ops;
    forall j: nat | j < |ops|
      ensures ResetsAt(start, all, j) == ResetsAt(start, ops, j)
    {
      assert all[..j] == ops[..j];
    }
    assert ResetsAt(start, all, |ops|) == Resets(Run(start, ops), op);
  }

  /** In every run of a new controller the completed phases are exactly those whose recorded pass
      still stands: no later failure and no later edit. */
  lemma {:induction false} CompletedPhasesStand(start: RepairRecord, ops: seq<Op>, phase: string)
    requires start.completedPhases == {}
    ensures phase in Run(start, ops).completedPhases <==> exists i: nat :: Stands(start, ops, phase, i)
  {
    if ops != [] {
      var front, op := ops[..|ops| - 1], ops[|ops| - 1];
      assert ops == front + [op];
      CompletedPhasesStand(start, front, phase);
      PassStandsNext(start, front, op, phase);
    }
  }

  /** Whether some pass stands, before and after one more operation. */
  lemma PassStandsNext(start: RepairRecord, ops: seq<Op>, op: Op, phase: string)
    ensures (exists i: nat :: Stands(start, ops + [op], phase, i)) <==>
              op == ValidationRecorded(phase, true)
              || ((exists i: nat :: Stands(start, ops, phase, i)) && !Resets(Run(start, ops), op))
  {
    StandsNext(start, ops, op, phase, |ops|);
    if i: nat :| Stands(start, ops, phase, i) {
      StandsNext(start, ops, op, phase, i);
    }
    if i: nat :| Stands(start, ops + [op], phase, i) {
      StandsNext(start, ops, op, phase, i);
    }
  }

  /** A controller reports completion only when a pass of every phase stands. */
  lemma CompletionIsEarned(phases: seq<string>, maxRepairAttempts: nat, ops: seq<Op>, phase: string)
    requires Run(NewRecord(phases, maxRepairAttempts), ops).state == LoopCompleted && phase in phases
    ensures exists i: nat :: Stands(NewRecord(phases, maxRepairAttempts), ops, phase, i)
  {
    var start := NewRecord(phases, maxRepairAttempts);
    CompletedPhasesStand(start, ops, phase);
    EditsSpendTheAttempts(start, ops);
    CompletedStateListsAll(start, ops);
  }

  lemma {:induction false} CompletedStateListsAll(start: RepairRecord, ops: seq<Op>)
    requires start.state != LoopCompleted
    ensures var r := Run(start, ops); r.state == LoopCompleted ==> AllPassed(r, r.completedPhases)
  {
    if ops != [] {
      CompletedStateListsAll(start, ops[..|ops| - 1]);
    }
  }

  // ----- single operations

  ghost predicate Refuses(r: RepairRecord, r': RepairRecord, result: TaskResult, why: string) {
    && r' == r.(state := LoopFailed)
    && result == TaskResult(ResultFailed, [Evidence("diagnostic", "repair-exhausted")], [], {}, [why])
  }

  /** The edit ran: one attempt is spent, nothing counts as validated any more, and the controller goes
      on only if the edit completed. */
  ghost predicate Spends(r: RepairRecord, r': RepairRecord, result: TaskResult) {
    r' == RepairRecord(if result.state == ResultCompleted then LoopValidating else LoopFailed, r.phases, r.maxRepairAttempts,
                       {}, r.validationResults, r.repairAttempts + 1, r.modifiedFiles + result.modifiedFiles)
  }

  /** A repair is refused without a failed validation or with the attempts used up, and leaves what was
      validated alone; otherwise its result is that of the edit, and a failure with its message when the
      edit throws. */
  lemma RepairAnswers(start: RepairRecord, ops: seq<Op>, edit: Outcome)
    ensures var r := Run(start, ops);
            var (r', result) := AttemptRepair(r, edit);
            if forall i :: 0 <= i < |r.validationResults| ==> r.validationResults[i].passed then
              Refuses(r, r', result, "No failed validation result is available for repair.")
            else if r.repairAttempts >= r.maxRepairAttempts then Refuses(r, r', result, "Repair retry limit reached.")
            else
              && Spends(r, r', result)
              && result == match edit
                           case Returned(returned) => returned
                           case Threw(message) =>
                             TaskResult(ResultFailed, [Evidence("diagnostic", "repair-exception")], [], {}, [message])
  {}

  /** The results on record are those the run was told, in order, whatever repairs came between. */
  function Told(ops: seq<Op>): seq<ValidationEntry> {
    if ops == [] then []
    else
      Told(ops[..|ops| - 1])
      + match ops[|ops| - 1] case ValidationRecorded(taskId, passed) => [ValidationEntry(taskId, passed)] case _ => []
  }

  lemma {:induction false} ResultsAreThoseTold(start: RepairRecord, ops: seq<Op>)
    ensures Run(start, ops).validationResults == start.validationResults + Told(ops)
  {
    if ops != [] {
      ResultsAreThoseTold(start, ops[..|ops| - 1]);
    }
  }

  /** A recorded validation is the last result on record; the controller waits for a repair after a
      failure, is completed when every phase has passed, and validates on otherwise. */
  lemma ValidationIsRecorded(start: RepairRecord, ops: seq<Op>, taskId: string, passed: bool)
    requires start.completedPhases == {}
    ensures var all := ops + [ValidationRecorded(taskId, passed)];
            var r := Run(start, all);
            && r.validationResults == start.validationResults + Told(ops) + [ValidationEntry(taskId, passed)]
            && (r.state == LoopRepairing <==> !passed)
            && (r.state == LoopCompleted <==> passed && forall p :: p in start.phases ==> exists i: nat :: Stands(start, all, p, i))
            && (r.state == LoopValidating <==> passed && exists p :: p in start.phases && forall i: nat :: !Stands(start, all, p, i))
            && (!passed ==> r.completedPhases == {})
  {
    var op := ValidationRecorded(taskId, passed);
    var all := ops + [op];
    assert all[..|ops|] == ops;
    ResultsAreThoseTold(start, ops);
    EditsSpendTheAttempts(start, all);
    forall p | p in start.phases
      ensures p in Run(start, all).completedPhases <==> exists i: nat :: Stands(start, all, p, i)
    {
      CompletedPhasesStand(start, all, p);
    }
  }
}
