/** The bounded repair controller (src/autonomy/persistent-mission-repair-controller.ts).
    Project memory, events and the text of the repair task are not part of the record. */
module RepairController {
  import opened TaskGraph
  import opened MissionRecord

  datatype LoopState = Planned | LoopValidating | LoopRepairing | LoopCompleted | LoopFailed

  datatype ValidationEntry = ValidationEntry(phase: string, passed: bool)

  datatype RepairRecord = RepairRecord(
    state: LoopState,
    phases: seq<string>,                     // the phase of each validation command: validate-1, validate-2, ...
    maxRepairAttempts: nat,
    completedPhases: set<string>,
    validationResults: seq<ValidationEntry>,
    repairAttempts: nat,
    modifiedFiles: set<string>)

  predicate AllPassed(r: RepairRecord, completed: set<string>) {
    forall p :: p in r.phases ==> p in completed
  }

  /** `recordValidation`: a pass adds its phase, a failure forgets every phase. */
  function RecordValidation(r: RepairRecord, taskId: string, passed: bool): RepairRecord {
    var completed := if passed then r.completedPhases + {taskId} else {};
    r.(state := if !passed then LoopRepairing else if AllPassed(r, completed) then LoopCompleted else LoopValidating,
       completedPhases := completed,
       validationResults := r.validationResults + [ValidationEntry(taskId, passed)])
  }

  predicate HasFailure(r: RepairRecord) {
    exists i :: 0 <= i < |r.validationResults| && !r.validationResults[i].passed
  }

  function TerminalFailure(r: RepairRecord, message: string): (RepairRecord, TaskResult) {
    (r.(state := LoopFailed), TaskResult(ResultFailed, [Evidence("diagnostic", "repair-exhausted")], [], {}, [message]))
  }

  /** `repair`: refused without a recorded failure or with the attempts used up; otherwise the
      edit executor runs once, and whatever it does counts as one attempt. */
  function AttemptRepair(r: RepairRecord, edit: Outcome): (RepairRecord, TaskResult) {
    if !HasFailure(r) then
      TerminalFailure(r, "No failed validation result is available for repair.")
    else if r.repairAttempts >= r.maxRepairAttempts then
      TerminalFailure(r, "Repair retry limit reached.")
    else
      var result := match edit
        case Returned(result) => result
        case Threw(message) => TaskResult(ResultFailed, [Evidence("diagnostic", "repair-exception")], [], {}, [message]);
      (r.(state := if result.state == ResultCompleted then LoopValidating else LoopFailed,
          completedPhases := {},
          repairAttempts := r.repairAttempts + 1,
          modifiedFiles := r.modifiedFiles + result.modifiedFiles),
       result)
  }

  function RepairsLeft(r: RepairRecord): nat {
    if r.repairAttempts < r.maxRepairAttempts then r.maxRepairAttempts - r.repairAttempts else 0
  }
}
