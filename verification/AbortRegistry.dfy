/** The registry of running mission loops (src/autonomy/mission-execution-abort-registry.ts). */
module AbortRegistry {
  import opened Options
  import opened MissionRecord

  /** One abort controller, handed out once; `abort` records the first reason only. */
  datatype Controller = Controller(missionId: string, reason: Option<AbortReason>)

  class MissionExecutionAbortRegistry {
    var controllers: map<string, nat>      // mission id to controller number
    var created: seq<Controller>           // every controller ever made

    constructor ()
      ensures Valid() && controllers == map[] && created == []
    {
      controllers := map[];
      created := [];
    }

    ghost predicate Valid()
      reads this
    {
      forall id :: id in controllers ==> controllers[id] < |created| && created[controllers[id]].missionId == id
    }

    /** At most one loop per mission: a second registration is refused and changes nothing. */
    method RegisterIfAbsent(missionId: string) returns (signal: Option<nat>)
      requires Valid()
      modifies this
      ensures Valid()
      ensures missionId in old(controllers) ==> signal == None && controllers == old(controllers) && created == old(created)
      ensures missionId !in old(controllers) ==>
                && signal == Some(|old(created)|)
                && controllers == old(controllers)[missionId := |old(created)|]
                && created == old(created) + [Controller(missionId, None)]
    {
      if missionId in controllers { return None; }
      signal := Some(|created|);
      controllers := controllers[missionId := |created|];
      created := created + [Controller(missionId, None)];
    }

    method Release(missionId: string)
      requires Valid()
      modifies this`controllers
      ensures Valid() && controllers == old(controllers) - {missionId}
    {
      controllers := controllers - {missionId};
    }

    /** Reaches the running loop of the mission and no other; false when there is none. */
    method RequestAbort(missionId: string, reason: AbortReason) returns (found: bool)
      requires Valid()
      modifies this`created
      ensures Valid() && found == (missionId in controllers)
      ensures !found ==> created == old(created)
      ensures found ==>
                var n := controllers[missionId];
                var c := old(created)[n];
                created == old(created)[n := if c.reason.None? then c.(reason := Some(reason)) else c]
    {
      if missionId !in controllers { return false; }
      var n := controllers[missionId];
      if created[n].reason.None? {
        created := created[n := created[n].(reason := Some(reason))];
      }
      found := true;
    }
  }
}
