/** The emergency reclaim flow: throw a node out now and stop its schedule from taking it back. */
module Emergency {
  import opened Wrappers
  import opened ApiCalls
  import opened CapiObjects

  function BeforeDelete(): seq<Call> {
    [SetPhase(EmergencyRemove), ResolveChild, Drain]
  }

  function AfterDelete(): seq<Call> {
    [DisableSchedule, ClearAnnotations, SetPhase(Disabled)]
  }

  /** The whole flow as calls; published events are left out. */
  function Flow(spec: MachineSpec): seq<Call> {
    BeforeDelete() + Deletes(spec) + AfterDelete()
  }

  function Handled(spec: MachineSpec, s: Store, replies: seq<Reply>): Outcome {
    Exec(s, replies, Flow(spec))
  }

  method HandleEmergencyRemove(spec: MachineSpec, c: Controller) returns (failure: Option<CallError>)
    modifies c
    ensures Outcome(c.store, c.replies, failure) == Handled(spec, old(c.store), old(c.replies))
  {
    ExecConcat(c.store, c.replies, BeforeDelete() + Deletes(spec), AfterDelete());
    ExecConcat(c.store, c.replies, BeforeDelete(), Deletes(spec));
    failure := EngageAndDrain(c);
    if failure.Some? {
      return;
    }
    failure := RemoveMachineFromCluster(spec, c);
    if failure.Some? {
      return;
    }
    failure := DisableAndFinish(c);
  }

  /** Steps 2 and 3. */
  method EngageAndDrain(c: Controller) returns (failure: Option<CallError>)
    modifies c
    ensures Outcome(c.store, c.replies, failure) == Exec(old(c.store), old(c.replies), BeforeDelete())
  {
    ExecThree(c.store, c.replies, SetPhase(EmergencyRemove), ResolveChild, Drain);
    failure := c.Propagate(SetPhase(EmergencyRemove));
    if failure.Some? {
      return;
    }
    failure := c.Propagate(ResolveChild);
    if failure.Some? {
      return;
    }
    failure := c.TryBestEffort(Drain);
  }

  /** Steps 5 to 7. */
  method DisableAndFinish(c: Controller) returns (failure: Option<CallError>)
    modifies c
    ensures Outcome(c.store, c.replies, failure) == Exec(old(c.store), old(c.replies), AfterDelete())
  {
    ExecThree(c.store, c.replies, DisableSchedule, ClearAnnotations, SetPhase(Disabled));
    failure := c.Propagate(DisableSchedule);
    if failure.Some? {
      return;
    }
    failure := c.TryBestEffort(ClearAnnotations);
    if failure.Some? {
      return;
    }
    failure := c.Propagate(SetPhase(Disabled));
  }

  // ---------------------------------------------------------------------------------------------
  // What every crash point keeps
  // ---------------------------------------------------------------------------------------------

  /** Every named object is gone and the schedule is off. */
  ghost predicate Reclaimed(spec: MachineSpec, s: Store) {
    s.live !! NamedIds(spec) && !s.enabled
  }

  /** How far a flow that started from `s` can have come: each part of the store is as before or final. */
  ghost predicate PartWay(spec: MachineSpec, s: Store, t: Store) {
    && s.live - NamedIds(spec) <= t.live <= s.live
    && (t.enabled ==> s.enabled)
    && (t.annotated ==> s.annotated)
    && (t.phase == s.phase || t.phase == EmergencyRemove || (t.phase == Disabled && Reclaimed(spec, t)))
    && (!t.enabled && s.enabled ==> t.live !! NamedIds(spec))
    && (!t.annotated && s.annotated ==> Reclaimed(spec, t))
  }

  /** The phase and the child client have to come off; the drain only has to be answered. */
  lemma EngageEffect(s: Store, replies: seq<Reply>)
    ensures var out := Exec(s, replies, BeforeDelete());
            && (out.store.phase == s.phase || out.store.phase == EmergencyRemove)
            && out.store == s.(phase := out.store.phase, drained := out.store.drained)
            && (out.failure.None? ==>
                  && |replies| >= 3 && replies[0].Done? && replies[1].Done?
                  && out.store == s.(phase := EmergencyRemove, drained := s.drained || !replies[2].Refused?))
  {
    ExecThree(s, replies, SetPhase(EmergencyRemove), ResolveChild, Drain);
  }

  lemma DeletesPartWay(spec: MachineSpec, s: Store, replies: seq<Reply>)
    ensures var t := Removed(spec, s, replies).store;
            s.live - NamedIds(spec) <= t.live <= s.live && t == s.(live := t.live)
  {
    ExecKeeps(s, replies, Deletes(spec), (t: Store) =>
      s.live - NamedIds(spec) <= t.live <= s.live && t == s.(live := t.live));
  }

  lemma FinishEffect(s: Store, replies: seq<Reply>)
    ensures var out := Exec(s, replies, AfterDelete());
            && out.store.live == s.live && out.store.drained == s.drained
            && (out.store.enabled ==> s.enabled) && (out.store.annotated ==> s.annotated)
            && (out.store.phase == s.phase || (out.store.phase == Disabled && !out.store.enabled))
            && (!out.store.annotated && s.annotated ==> !out.store.enabled)
            && (out.failure.None? ==> !out.store.enabled && out.store.phase == Disabled)
  {
    ExecThree(s, replies, DisableSchedule, ClearAnnotations, SetPhase(Disabled));
  }

  /**
   At every crash point: the annotations are cleared and the Disabled phase is reached only once every
   named object is gone and the schedule is off; the schedule is turned off only once they are gone.
   */
  lemma FlowIsOrdered(spec: MachineSpec, s: Store, replies: seq<Reply>)
    ensures PartWay(spec, s, Handled(spec, s, replies).store)
  {
    ExecConcat(s, replies, BeforeDelete() + Deletes(spec), AfterDelete());
    ExecConcat(s, replies, BeforeDelete(), Deletes(spec));
    var engaged := Exec(s, replies, BeforeDelete());
    EngageEffect(s, replies);
    if engaged.failure.None? {
      var removed := Removed(spec, engaged.store, engaged.replies);
      DeletesPartWay(spec, engaged.store, engaged.replies);
      if removed.failure.None? {
        RemoveSuccessIsComplete(spec, engaged.store, engaged.replies);
        FinishEffect(removed.store, removed.replies);
      }
    }
  }

  /** A flow that reports success has reclaimed the node and finished, whatever the drain and the clear did. */
  lemma FlowSuccess(spec: MachineSpec, s: Store, replies: seq<Reply>)
    requires Handled(spec, s, replies).failure.None?
    ensures var t := Handled(spec, s, replies).store;
            Reclaimed(spec, t) && t.phase == Disabled && t.live == s.live - NamedIds(spec)
  {
    ExecConcat(s, replies, BeforeDelete() + Deletes(spec), AfterDelete());
    ExecConcat(s, replies, BeforeDelete(), Deletes(spec));
    var engaged := Exec(s, replies, BeforeDelete());
    EngageEffect(s, replies);
    var removed := Removed(spec, engaged.store, engaged.replies);
    RemoveSuccessIsComplete(spec, engaged.store, engaged.replies);
    FinishEffect(removed.store, removed.replies);
  }

  /** The part of the store that is not touched after the drain, and the part not touched before the deletes. */
  lemma FlowStages(spec: MachineSpec, s: Store, replies: seq<Reply>)
    ensures var engaged, t := Exec(s, replies, BeforeDelete()), Handled(spec, s, replies).store;
            if engaged.failure.Some? then t == engaged.store
            else
              && t.drained == engaged.store.drained && t.phase in {engaged.store.phase, Disabled}
              && t.live == Removed(spec, engaged.store, engaged.replies).store.live
  {
    ExecConcat(s, replies, BeforeDelete() + Deletes(spec), AfterDelete());
    ExecConcat(s, replies, BeforeDelete(), Deletes(spec));
    hide Exec;
    var engaged := Exec(s, replies, BeforeDelete());
    if engaged.failure.None? {
      var removed := Removed(spec, engaged.store, engaged.replies);
      DeletesPartWay(spec, engaged.store, engaged.replies);
      FinishEffect(removed.store, removed.replies);
    }
  }

  /**
   Nothing is deleted before the drain is answered: at every crash point where an object is gone, the phase
   was set, the child client resolved, and the node drained unless the drain was refused.
   */
  lemma DrainComesFirst(spec: MachineSpec, s: Store, replies: seq<Reply>)
    requires Handled(spec, s, replies).store.live != s.live
    ensures |replies| > 3 && replies[0].Done? && replies[1].Done?
    ensures var t := Handled(spec, s, replies).store;
            t.phase in {EmergencyRemove, Disabled} && t.drained == (s.drained || !replies[2].Refused?)
  {
    FlowStages(spec, s, replies);
    EngageEffect(s, replies);
    EngageAnswers(s, replies);
    var engaged := Exec(s, replies, BeforeDelete());
    SilentServer(engaged.store, Deletes(spec));
    hide Exec;
    hide Handled;
  }

  lemma SilentServer(s: Store, calls: seq<Call>)
    ensures Exec(s, [], calls).store == s
  {
  }

  lemma EngageAnswers(s: Store, replies: seq<Reply>)
    ensures var out := Exec(s, replies, BeforeDelete());
            out.failure.None? ==> |replies| >= 3 && out.replies == replies[3..]
  {
    ExecThree(s, replies, SetPhase(EmergencyRemove), ResolveChild, Drain);
  }

  lemma DeletesAreDeletes(spec: MachineSpec)
    ensures forall k :: 0 <= k < |Deletes(spec)| ==> Deletes(spec)[k].Delete?
  {
  }

  /** The drain is call 2 of the flow, the clear the last but one; only their failures do not stop it. */
  lemma MayFail(spec: MachineSpec, k: nat, reply: Reply)
    requires k < |Flow(spec)|
    ensures Passes(Flow(spec)[k], reply) <==> reply.Done? || k == 2 || k == |Flow(spec)| - 2
  {
    DeletesAreDeletes(spec);
    if 3 <= k < |Flow(spec)| - 3 {
      assert Flow(spec)[k] == Deletes(spec)[k - 3];
    }
  }

  /** The flow succeeds exactly when every call but the drain and the clear is answered with success. */
  lemma FlowSucceedsIff(spec: MachineSpec, s: Store, replies: seq<Reply>)
    ensures var n := |Flow(spec)|;
            Handled(spec, s, replies).failure.None? <==>
            n <= |replies| && forall k :: 0 <= k < n && k != 2 && k != n - 2 ==> replies[k].Done?
  {
    ExecSucceedsIff(s, replies, Flow(spec));
    forall k | 0 <= k < |Flow(spec)| && k < |replies|
      ensures Passes(Flow(spec)[k], replies[k]) <==> replies[k].Done? || k == 2 || k == |Flow(spec)| - 2
    {
      MayFail(spec, k, replies[k]);
    }
  }

  /** The first other call that fails ends the flow with an API error, whatever would have come after it. */
  lemma FlowFailsWith(spec: MachineSpec, s: Store, replies: seq<Reply>, k: nat)
    requires k < |Flow(spec)| && k < |replies| && k != 2 && k != |Flow(spec)| - 2 && !replies[k].Done?
    requires forall j :: 0 <= j < k && j != 2 && j != |Flow(spec)| - 2 ==> replies[j].Done?
    ensures Handled(spec, s, replies).failure == Some(ApiError)
  {
    forall j | 0 <= j <= k
      ensures Passes(Flow(spec)[j], replies[j]) <==> replies[j].Done? || j == 2 || j == |Flow(spec)| - 2
    {
      MayFail(spec, j, replies[j]);
    }
    DeletesAreDeletes(spec);
    if 3 <= k < |Flow(spec)| - 3 {
      assert Flow(spec)[k] == Deletes(spec)[k - 3];
    }
    ExecFailsWith(s, replies, Flow(spec), k);
  }

  /** The store an uninterrupted flow leaves, the node drained. */
  function Final(spec: MachineSpec, s: Store): Store {
    Store(s.live - NamedIds(spec), false, Disabled, false, true)
  }

  lemma FlowEffect(spec: MachineSpec, s: Store)
    ensures AllEffects(s, Flow(spec)) == Final(spec, s)
  {
    var t := s.(phase := EmergencyRemove, drained := true);
    ThreeEffects(s, SetPhase(EmergencyRemove), ResolveChild, Drain);
    assert AllEffects(s, BeforeDelete()) == t;
    AllEffectsConcat(s, BeforeDelete(), Deletes(spec));
    DeletesEffect(spec, t);
    var u := t.(live := t.live - NamedIds(spec));
    AllEffectsConcat(s, BeforeDelete() + Deletes(spec), AfterDelete());
    ThreeEffects(u, DisableSchedule, ClearAnnotations, SetPhase(Disabled));
  }

  lemma ThreeEffects(s: Store, c0: Call, c1: Call, c2: Call)
    ensures AllEffects(s, [c0, c1, c2]) == Effect(c2, Effect(c1, Effect(c0, s)))
  {
    OneEffect(s, c0);
    OneEffect(Effect(c0, s), c1);
    OneEffect(Effect(c1, Effect(c0, s)), c2);
    AllEffectsConcat(s, [c0], [c1]);
    AllEffectsConcat(s, [c0] + [c1], [c2]);
    assert [c0] + [c1] + [c2] == [c0, c1, c2];
  }

  lemma UninterruptedFlow(spec: MachineSpec, s: Store, replies: seq<Reply>)
    requires Undisturbed(replies, |Flow(spec)|)
    ensures Handled(spec, s, replies).store == Final(spec, s) && Handled(spec, s, replies).failure.None?
  {
    UndisturbedExec(s, replies, Flow(spec));
    FlowEffect(spec, s);
  }

  /** The store after a number of flows, each failing or crashing wherever its replies say. */
  function Attempts(spec: MachineSpec, s: Store, attempts: seq<seq<Reply>>): Store
    decreases |attempts|
  {
    if |attempts| == 0 then s
    else Handled(spec, Attempts(spec, s, attempts[..|attempts| - 1]), attempts[|attempts| - 1]).store
  }

  lemma {:induction false} AttemptsStayPartWay(spec: MachineSpec, s: Store, attempts: seq<seq<Reply>>)
    ensures PartWay(spec, s, Attempts(spec, s, attempts))
    decreases |attempts|
  {
    if |attempts| > 0 {
      var before := attempts[..|attempts| - 1];
      var t := Attempts(spec, s, before);
      AttemptsStayPartWay(spec, s, before);
      FlowIsOrdered(spec, t, attempts[|attempts| - 1]);
      PartWayTransitive(spec, s, t, Attempts(spec, s, attempts));
    }
  }

  lemma PartWayTransitive(spec: MachineSpec, s: Store, t: Store, u: Store)
    requires PartWay(spec, s, t) && PartWay(spec, t, u)
    ensures PartWay(spec, s, u)
  {
  }

  /**
   Replay: however many flows were cut short and wherever, one more from the start ends in the very
   store that an undisturbed first flow would have left.
   */
  lemma ReplayConverges(spec: MachineSpec, s: Store, attempts: seq<seq<Reply>>, replies: seq<Reply>)
    requires Undisturbed(replies, |Flow(spec)|)
    ensures Handled(spec, Attempts(spec, s, attempts), replies).store == Handled(spec, s, replies).store
  {
    var t := Attempts(spec, s, attempts);
    AttemptsStayPartWay(spec, s, attempts);
    UninterruptedFlow(spec, t, replies);
    UninterruptedFlow(spec, s, replies);
    assert t.live - NamedIds(spec) == s.live - NamedIds(spec);
  }

  /**
   Recovery after the clear: once the annotations are gone, a machine left in the EmergencyRemove phase
   has only its phase to finish, and finishing it gives the uninterrupted flow's store, but for a drain that
   failed.
   */
  lemma RecoveryAfterClear(spec: MachineSpec, s: Store, attempts: seq<seq<Reply>>)
    requires s.annotated && !Attempts(spec, s, attempts).annotated
    ensures var t := Attempts(spec, s, attempts);
            Effect(SetPhase(Disabled), t) == Final(spec, s).(drained := t.drained)
  {
    AttemptsStayPartWay(spec, s, attempts);
    assert Attempts(spec, s, attempts).live == s.live - NamedIds(spec);
  }

  /**
   The same recovery after the annotations vanish by themselves, as when the Node goes with its Machine:
   wherever the flows were cut short, it gives the uninterrupted flow's store if and only if the schedule
   was already off by then.
   */
  lemma RecoveryIsCompleteIff(spec: MachineSpec, s: Store, attempts: seq<seq<Reply>>)
    requires s.enabled
    ensures var t := Attempts(spec, s, attempts);
            Effect(SetPhase(Disabled), t.(annotated := false)) == Final(spec, s).(drained := t.drained)
            <==> !t.enabled
  {
    var t := Attempts(spec, s, attempts);
    AttemptsStayPartWay(spec, s, attempts);
    if !t.enabled {
      assert t.live == s.live - NamedIds(spec);
    }
  }

  /**
   So a flow cut short between the deletes and the schedule patch, on a Node that then goes, is finished
   with the schedule still enabled.
   */
  lemma VanishedNodeLeavesScheduleOn(spec: MachineSpec, s: Store)
    requires s.annotated && s.enabled && Named(spec)
    ensures var replies := seq(6, _ => Done);
            var crashed := Handled(spec, s, replies).store;
            && crashed.live !! NamedIds(spec) && crashed.phase == EmergencyRemove
            && Effect(SetPhase(Disabled), crashed.(annotated := false))
               == Store(s.live - NamedIds(spec), true, Disabled, false, true)
  {
    var replies := seq(6, _ => Done);
    ExecConcat(s, replies, BeforeDelete() + Deletes(spec), AfterDelete());
    var first := BeforeDelete() + Deletes(spec);
    assert |first| == 6;
    UndisturbedExec(s, replies, first);
    AllEffectsConcat(s, BeforeDelete(), Deletes(spec));
    ThreeEffects(s, SetPhase(EmergencyRemove), ResolveChild, Drain);
    DeletesEffect(spec, s.(phase := EmergencyRemove, drained := true));
    assert replies[6..] == [];
  }
}
