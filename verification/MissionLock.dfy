/** The per-key promise-chain mutex (src/autonomy/mission-execution-lock.ts). A call waits for the
    settled form of the call before it under the same key; the body's own promise goes to its
    caller, and its settled form, which never rejects, becomes the next tail. */
module MissionLock {
  import opened Options

  datatype Phase = Waiting | Running | Settled(ok: bool)

  /** One `withLock` call: its key, the call whose tail it is chained on, its body, and whether
      the tail it left behind has settled. */
  datatype Call = Call(key: string, after: Option<nat>, phase: Phase, tailSettled: bool)

  datatype LockState = LockState(tails: map<string, nat>, calls: seq<Call>)

  datatype Event =
    | Requested(key: string)
    | BodyStarts(call: nat)
    | BodySettles(call: nat, ok: bool)
    | TailSettles(call: nat)

  predicate Enabled(s: LockState, e: Event) {
    match e
    case Requested(_) => true
    case BodyStarts(i) =>
      && i < |s.calls| && s.calls[i].phase == Waiting
      && (s.calls[i].after.Some? ==>
            var p := s.calls[i].after.value; p < |s.calls| && s.calls[p].tailSettled)
    case BodySettles(i, _) => i < |s.calls| && s.calls[i].phase == Running
    case TailSettles(i) => i < |s.calls| && s.calls[i].phase.Settled?
  }

  function Request(s: LockState, key: string): LockState {
    var after := if key in s.tails then Some(s.tails[key]) else None;
    LockState(s.tails[key := |s.calls|], s.calls + [Call(key, after, Waiting, false)])
  }

  /** An event that is not enabled changes nothing. */
  function Step(s: LockState, e: Event): LockState {
    if !Enabled(s, e) then s
    else
      match e
      case Requested(key) => Request(s, key)
      case BodyStarts(i) => s.(calls := s.calls[i := s.calls[i].(phase := Running)])
      case BodySettles(i, ok) => s.(calls := s.calls[i := s.calls[i].(phase := Settled(ok))])
      case TailSettles(i) => s.(calls := s.calls[i := s.calls[i].(tailSettled := true)])
  }

  function After(events: seq<Event>): LockState {
    if events == [] then LockState(map[], []) else Step(After(events[..|events| - 1]), events[|events| - 1])
  }

  class MissionExecutionLock {
    var tails: map<string, nat>
    var calls: seq<Call>

    constructor ()
      ensures State() == After([])
    {
      tails := map[];
      calls := [];
    }

    ghost function State(): LockState
      reads this
    {
      LockState(tails, calls)
    }

    /** `withLock`: chains the new body on the current tail and makes its settled form the tail. */
    method WithLock(key: string) returns (call: nat)
      modifies this
      ensures call == |old(calls)| && State() == Request(old(State()), key)
    {
      var after := None;
      if key in tails { after := Some(tails[key]); }
      call := |calls|;
      calls := calls + [Call(key, after, Waiting, false)];
      tails := tails[key := call];
    }
  }

  // ----- the invariant

  /** Call `i` is chained on the last earlier call with its key. */
  ghost predicate Chained(s: LockState, i: nat)
    requires i < |s.calls|
  {
    match s.calls[i].after
    case None => forall k :: 0 <= k < i ==> s.calls[k].key != s.calls[i].key
    case Some(p) =>
      && p < i && s.calls[p].key == s.calls[i].key
      && (forall k :: p < k < i ==> s.calls[k].key != s.calls[i].key)
      && (s.calls[i].phase != Waiting ==> s.calls[p].tailSettled)
  }

  ghost predicate LastCall(s: LockState, key: string) {
    if key in s.tails then
      && s.tails[key] < |s.calls| && s.calls[s.tails[key]].key == key
      && (forall k :: s.tails[key] < k < |s.calls| ==> s.calls[k].key != key)
    else
      forall k :: 0 <= k < |s.calls| ==> s.calls[k].key != key
  }

  ghost predicate Inv(s: LockState) {
    && (forall i: nat :: i < |s.calls| ==> Chained(s, i))
    && (forall key :: LastCall(s, key))
    && (forall i :: 0 <= i < |s.calls| && s.calls[i].tailSettled ==> s.calls[i].phase.Settled?)
  }

  lemma RequestKeepsInv(s: LockState, key: string)
    requires Inv(s)
    ensures Inv(Request(s, key))
  {
    var s' := Request(s, key);
    assert LastCall(s, key);
    forall i: nat | i < |s'.calls|
      ensures Chained(s', i)
    {
      if i < |s.calls| { assert Chained(s, i); }
    }
    forall k
      ensures LastCall(s', k)
    {
      assert LastCall(s, k);
    }
  }

  lemma StepKeepsInv(s: LockState, e: Event)
    requires Inv(s)
    ensures Inv(Step(s, e))
  {
    if e.Requested? {
      RequestKeepsInv(s, e.key);
    } else {
      var s' := Step(s, e);
      forall i: nat | i < |s'.calls|
        ensures Chained(s', i)
      {
        assert Chained(s, i);
      }
      forall k
        ensures LastCall(s', k)
      {
        assert LastCall(s, k);
      }
    }
  }

  lemma {:induction false} AlwaysInv(events: seq<Event>)
    ensures Inv(After(events))
  {
    if events != [] {
      AlwaysInv(events[..|events| - 1]);
      StepKeepsInv(After(events[..|events| - 1]), events[|events| - 1]);
    }
  }

  // ----- main results

  lemma {:induction false} EarlierSettled(s: LockState, i: nat, j: nat)
    requires Inv(s) && i < j < |s.calls| && s.calls[i].key == s.calls[j].key && s.calls[j].phase != Waiting
    ensures s.calls[i].phase.Settled?
    decreases j
  {
    assert Chained(s, j);
    var p := s.calls[j].after.value;
    assert s.calls[p].tailSettled;
    if i < p {
      EarlierSettled(s, i, p);
    } else {
      assert i == p;
    }
  }

  /** Bodies run in call order, each starting only after every earlier one has settled: in any
      reachable state, a body that has started has only settled bodies before it. */
  lemma BodiesRunInCallOrder(events: seq<Event>, i: nat, j: nat)
    requires var s := After(events); i < j < |s.calls| && s.calls[i].key == s.calls[j].key && s.calls[j].phase != Waiting
    ensures After(events).calls[i].phase.Settled?
  {
    AlwaysInv(events);
    EarlierSettled(After(events), i, j);
  }

  /** Two bodies under one key never run at once. */
  lemma BodiesNeverOverlap(events: seq<Event>, i: nat, j: nat)
    requires var s := After(events);
             i < |s.calls| && j < |s.calls| && s.calls[i].key == s.calls[j].key
             && s.calls[i].phase == Running && s.calls[j].phase == Running
    ensures i == j
  {
    AlwaysInv(events);
    if i < j { EarlierSettled(After(events), i, j); }
    if j < i { EarlierSettled(After(events), j, i); }
  }

  ghost predicate FirstWaiting(s: LockState, key: string, j: nat) {
    && j < |s.calls| && s.calls[j].key == key && s.calls[j].phase == Waiting
    && forall k :: 0 <= k < j && s.calls[k].key == key ==> s.calls[k].phase != Waiting
  }

  /** Nothing is ever blocked for good: once the bodies before the first waiting call of a key
      have settled, well or badly, and so have their tails, that call can start. */
  lemma FirstWaitingCanStart(events: seq<Event>, key: string, j: nat)
    requires var s := After(events);
             && FirstWaiting(s, key, j)
             && (forall k :: 0 <= k < j && s.calls[k].key == key ==> s.calls[k].tailSettled)
    ensures Enabled(After(events), BodyStarts(j))
  {
    AlwaysInv(events);
    assert Chained(After(events), j);
  }

  /** A body's outcome reaches its own caller only: how it settles decides nothing about any
      other call, now or after any further events. */
  ghost predicate SameButOutcome(a: LockState, b: LockState, i: nat) {
    && a.tails == b.tails && |a.calls| == |b.calls|
    && forall k :: 0 <= k < |a.calls| ==>
         if k == i && a.calls[k].phase.Settled? then b.calls[k] == a.calls[k].(phase := b.calls[k].phase) && b.calls[k].phase.Settled?
         else b.calls[k] == a.calls[k]
  }

  function Continue(s: LockState, events: seq<Event>): LockState {
    if events == [] then s else Step(Continue(s, events[..|events| - 1]), events[|events| - 1])
  }

  lemma {:induction false} RejectionReachesOnlyItsCaller(s: LockState, i: nat, later: seq<Event>)
    requires Enabled(s, BodySettles(i, false))
    ensures var well, badly := Continue(Step(s, BodySettles(i, true)), later), Continue(Step(s, BodySettles(i, false)), later);
            SameButOutcome(well, badly, i) && i < |well.calls| && well.calls[i].phase.Settled?
  {
    if later != [] {
      var front, last := later[..|later| - 1], later[|later| - 1];
      RejectionReachesOnlyItsCaller(s, i, front);
    }
  }

  function KeyOf(s: LockState, e: Event): Option<string> {
    match e
    case Requested(key) => Some(key)
    case BodyStarts(i) => if i < |s.calls| then Some(s.calls[i].key) else None
    case BodySettles(i, _) => if i < |s.calls| then Some(s.calls[i].key) else None
    case TailSettles(i) => if i < |s.calls| then Some(s.calls[i].key) else None
  }

  /** Different keys do not constrain each other: an event under one key changes no call under
      another key and does not decide whether its body can start. */
  lemma KeysAreIndependent(events: seq<Event>, e: Event, i: nat)
    requires var s := After(events); i < |s.calls| && KeyOf(s, e) != Some(s.calls[i].key)
    ensures var s, s' := After(events), Step(After(events), e);
            i < |s'.calls| && s'.calls[i] == s.calls[i] && (Enabled(s', BodyStarts(i)) <==> Enabled(s, BodyStarts(i)))
  {
    AlwaysInv(events);
    assert Chained(After(events), i);
  }

  // ----- every call gets its turn

  /** The keys asked for, in order. */
  function Asked(events: seq<Event>): seq<string> {
    if events == [] then []
    else Asked(events[..|events| - 1]) + match events[|events| - 1] case Requested(key) => [key] case _ => []
  }

  /** Each request is one call, and nothing else makes one. */
  lemma {:induction false} CallsAreThoseAsked(events: seq<Event>)
    ensures var calls := After(events).calls;
            |calls| == |Asked(events)| && forall i :: 0 <= i < |calls| ==> calls[i].key == Asked(events)[i]
  {
    if events != [] {
      CallsAreThoseAsked(events[..|events| - 1]);
    }
  }

  /** What one more event does: a request adds a waiting call, a running body settles as it does, and then
      its tail; a body that can start does. */
  lemma EventsMoveCalls(events: seq<Event>, key: string, i: nat, ok: bool)
    ensures var s, s' := After(events), After(events + [Requested(key)]);
            && |s'.calls| == |s.calls| + 1 && s'.calls[..|s.calls|] == s.calls
            && s'.calls[|s.calls|].key == key && s'.calls[|s.calls|].phase == Waiting && !s'.calls[|s.calls|].tailSettled
    ensures var s, s' := After(events), After(events + [BodyStarts(i)]);
            Enabled(s, BodyStarts(i)) ==> i < |s.calls| && s'.calls == s.calls[i := s.calls[i].(phase := Running)]
    ensures var s, s' := After(events), After(events + [BodySettles(i, ok)]);
            i < |s.calls| && s.calls[i].phase == Running ==> s'.calls == s.calls[i := s.calls[i].(phase := Settled(ok))]
    ensures var s, s' := After(events), After(events + [TailSettles(i)]);
            i < |s.calls| && s.calls[i].phase.Settled? ==> s'.calls == s.calls[i := s.calls[i].(tailSettled := true)]
  {
    OneMore(events, Requested(key));
    OneMore(events, BodyStarts(i));
    OneMore(events, BodySettles(i, ok));
    OneMore(events, TailSettles(i));
  }

  lemma OneMore(events: seq<Event>, e: Event)
    ensures After(events + [e]) == Step(After(events), e)
  {
    assert (events + [e])[..|events|] == events;
  }

  lemma {:induction false} ContinueTwice(s: LockState, a: seq<Event>, b: seq<Event>)
    ensures Continue(s, a + b) == Continue(Continue(s, a), b)
  {
    if b == [] {
      assert a + b == a;
    } else {
      var n := |b| - 1;
      ContinueTwice(s, a, b[..n]);
      assert (a + b)[..|a + b| - 1] == a + b[..n];
    }
  }

  ghost predicate SameCalls(a: LockState, b: LockState) {
    && |a.calls| == |b.calls|
    && forall k :: 0 <= k < |a.calls| ==> a.calls[k].key == b.calls[k].key && a.calls[k].after == b.calls[k].after
  }

  /** A call whose predecessor's tail has settled can run to its end. */
  lemma RunsToItsEnd(s: LockState, j: nat)
    requires Inv(s) && j < |s.calls|
    requires s.calls[j].after.Some? ==> s.calls[j].after.value < |s.calls| && s.calls[s.calls[j].after.value].tailSettled
    ensures var s' := Step(Step(Step(s, BodyStarts(j)), BodySettles(j, true)), TailSettles(j));
            Inv(s') && SameCalls(s, s') && s'.calls[j].tailSettled
  {
    var s1 := Step(s, BodyStarts(j));
    var s2 := Step(s1, BodySettles(j, true));
    StepKeepsInv(s, BodyStarts(j));
    StepKeepsInv(s1, BodySettles(j, true));
    StepKeepsInv(s2, TailSettles(j));
  }

  lemma ContinueThree(s: LockState, a: Event, b: Event, c: Event)
    ensures Continue(s, [a, b, c]) == Step(Step(Step(s, a), b), c)
  {
    var all := [a, b, c];
    assert all[..2] == [a, b] && [a, b][..1] == [a] && [a][..0] == [];
    assert Continue(s, [a]) == Step(s, a);
    assert Continue(s, [a, b]) == Step(Step(s, a), b);
  }

  lemma {:induction false} CallCanSettle(s: LockState, j: nat) returns (more: seq<Event>)
    requires Inv(s) && j < |s.calls|
    ensures Inv(Continue(s, more)) && SameCalls(s, Continue(s, more)) && Continue(s, more).calls[j].tailSettled
    decreases j
  {
    assert Chained(s, j);
    more := [];
    if s.calls[j].after.Some? { more := CallCanSettle(s, s.calls[j].after.value); }
    var before := Continue(s, more);
    RunsToItsEnd(before, j);
    ContinueThree(before, BodyStarts(j), BodySettles(j, true), TailSettles(j));
    ContinueTwice(s, more, [BodyStarts(j), BodySettles(j, true), TailSettles(j)]);
    more := more + [BodyStarts(j), BodySettles(j, true), TailSettles(j)];
  }

  lemma {:induction false} AfterContinues(events: seq<Event>, more: seq<Event>)
    ensures After(events + more) == Continue(After(events), more)
  {
    if more == [] {
      assert events + more == events;
    } else {
      var n := |more| - 1;
      AfterContinues(events, more[..n]);
      assert (events + more)[..|events + more| - 1] == events + more[..n];
    }
  }

  /** No call is ever stuck: from every reachable state there is a way on, by settling what runs and what
      was asked for before, after which the call has run and settled. */
  lemma EveryCallCanSettle(events: seq<Event>, j: nat) returns (more: seq<Event>)
    requires j < |After(events).calls|
    ensures j < |After(events + more).calls| && After(events + more).calls[j].phase.Settled?
    ensures |After(events + more).calls| == |After(events).calls|
  {
    AlwaysInv(events);
    more := CallCanSettle(After(events), j);
    AfterContinues(events, more);
  }
}
