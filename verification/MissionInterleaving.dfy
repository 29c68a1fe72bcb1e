/** What holds in every interleaving of the mission system: its invariant, when a task's result reaches
    the store, and what marking a task writes. */
module MissionInterleaving {
  import opened Options
  import opened TaskGraph
  import opened MissionRecord
  import opened MissionSystem
  import opened SystemInvariant

  lemma InitialInv(s: System)
    requires Initial(s)
    ensures Inv(s, IdList(s.store.graph.tasks))
  {
    assert multiset(s.queue)[LoopActor] == 0;
  }

  lemma {:induction false} AlwaysInv(s0: System, events: seq<Event>)
    requires Initial(s0)
    ensures Inv(After(s0, events), IdList(s0.store.graph.tasks))
  {
    if events == [] {
      InitialInv(s0);
    } else {
      AlwaysInv(s0, events[..|events| - 1]);
      StepKeepsInv(After(s0, events[..|events| - 1]), events[|events| - 1], IdList(s0.store.graph.tasks));
    }
  }

  /** `b` differs from `a` at most in tasks with the id. */
  ghost predicate OnlyTaskChanges(a: Execution, b: Execution, id: string) {
    && |a.graph.tasks| == |b.graph.tasks|
    && forall i :: 0 <= i < |a.graph.tasks| && a.graph.tasks[i].id != id ==> b.graph.tasks[i] == a.graph.tasks[i]
  }

  lemma AfterOne(s: System, events: seq<Event>, e: Event)
    ensures After(s, events + [e]) == Step(After(s, events), e)
  {
    assert (events + [e])[..|events|] == events;
  }

  /** A settled task's result is applied exactly when no control has changed the task since the
      loop marked it; otherwise the store stays as the control left it. Either way no other task
      of the latest record is altered. */
  lemma ResultAppliedOnlyIfUntouched(s0: System, events: seq<Event>)
    requires Initial(s0)
    requires var s := After(s0, events); s.pc.Reconciling? && s.queue != [] && s.queue[0] == LoopActor && s.loaded.Some?
    ensures var s, s' := After(s0, events), After(s0, events + [HeadSaves]);
            && s.pc.id in Ids(s.store.graph.tasks)
            && s'.store == (if s.touched then s.store else ApplyOutcome(s.store, s.pc.id, s.pc.outcome))
            && OnlyTaskChanges(s.store, s'.store, s.pc.id)
            && s'.pc == Top && s'.current == s'.store
  {
    AlwaysInv(s0, events);
    AfterOne(s0, events, HeadSaves);
    ReconcilingStep(After(s0, events), IdList(s0.store.graph.tasks));
  }

  lemma ReconcilingStep(s: System, ids: seq<string>)
    requires Inv(s, ids) && s.pc.Reconciling? && s.queue != [] && s.queue[0] == LoopActor && s.loaded.Some?
    ensures var s' := Step(s, HeadSaves);
            && s.pc.id in Ids(s.store.graph.tasks)
            && s'.store == (if s.touched then s.store else ApplyOutcome(s.store, s.pc.id, s.pc.outcome))
            && OnlyTaskChanges(s.store, s'.store, s.pc.id)
            && s'.pc == Top && s'.current == s'.store
  {}

  /** Marking a task active writes the latest record with only that task's state changed,
      whatever that state was. */
  lemma MarkingChangesOnlyItsTask(s0: System, events: seq<Event>)
    requires Initial(s0)
    requires var s := After(s0, events); s.pc.Marking? && s.queue != [] && s.queue[0] == LoopActor && s.loaded.Some?
    ensures var s, s' := After(s0, events), After(s0, events + [HeadSaves]);
            && Lookup(s.store, s.pc.id).Some?
            && s'.store == MarkActive(s.store, s.pc.id, s.pc.active)
            && OnlyTaskChanges(s.store, s'.store, s.pc.id)
            && Lookup(s'.store, s.pc.id) == Some(Lookup(s.store, s.pc.id).value.(state := s.pc.active))
            && !s'.touched
  {
    AlwaysInv(s0, events);
    AfterOne(s0, events, HeadSaves);
    MarkingStep(After(s0, events), IdList(s0.store.graph.tasks));
  }

  lemma MarkingStep(s: System, ids: seq<string>)
    requires Inv(s, ids) && s.pc.Marking? && s.queue != [] && s.queue[0] == LoopActor && s.loaded.Some?
    ensures var s' := Step(s, HeadSaves);
            && Lookup(s.store, s.pc.id).Some?
            && s'.store == MarkActive(s.store, s.pc.id, s.pc.active)
            && OnlyTaskChanges(s.store, s'.store, s.pc.id)
            && Lookup(s'.store, s.pc.id) == Some(Lookup(s.store, s.pc.id).value.(state := s.pc.active))
            && !s'.touched
  {
    KnownIds(s.store, ids);
    MarkLookup(s.store, s.pc.id, s.pc.active);
  }
}
