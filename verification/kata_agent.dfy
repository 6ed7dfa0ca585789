/**
 The agent and the controller half as the source runs them, statement by statement, each call
 proved to be the corresponding stretch of the atomic-action machine.
 */
module KataAgent {
  import opened Wrappers
  import opened KataDelivery

  datatype RestartError = RestartFailed

  datatype DeliveryError = GetFailed | PatchFailed

  /** The Node, the host file system and the cluster that one agent sees. */
  class Node {
    var optedIn: bool
    var ref: Option<KataRef>
    var applied: Option<Hash>
    var host: Option<Content>
    var temp: Option<Content>
    var cluster: Cluster
    var tick: nat
    var log: seq<Event>
    /** How many more atomic actions get through before the agent is killed or an action fails. */
    var budget: nat

    constructor (cluster: Cluster)
      ensures State(Idle) == World(false, None, None, None, None, cluster, 0, Idle, []) && budget == 0
    {
      optedIn, ref, applied, host, temp := false, None, None, None, None;
      this.cluster, tick, log, budget := cluster, 0, [], 0;
    }

    /** The whole state, with the place the agent has reached in its tick. */
    ghost function State(pc: Pc): World
      reads this
    {
      World(optedIn, ref, applied, host, temp, cluster, tick, pc, log)
    }

    /** Spend one action; false when the agent does not live to do it. */
    method Spend() returns (alive: bool)
      modifies this`budget
      ensures alive == (old(budget) > 0)
      ensures budget == if old(budget) > 0 then old(budget) - 1 else 0
    {
      alive := budget > 0;
      if alive {
        budget := budget - 1;
      }
    }

    /** Write a temporary file next to the destination, set its mode, and rename it over. */
    method AtomicWrite(job: Job, content: Content) returns (done: bool)
      modifies this
      ensures cluster == old(cluster)
      ensures done == (old(budget) >= 4) && budget == (if done then old(budget) - 4 else 0)
      ensures done ==>
                State(Synced(job, Wrote(Sha(content)))) == Advance(old(State(Writing(job, content, ClearTemp))), 4)
      ensures !done ==> State(Idle) == Crash(Advance(old(State(Writing(job, content, ClearTemp))), old(budget)))
    {
      ghost var w := State(Writing(job, content, ClearTemp));
      ghost var n := budget;
      AdvanceWrite(w, content);
      var alive := Spend();
      if !alive { return false; }
      temp := None;
      alive := Spend();
      if !alive { return false; }
      temp := Some(content);
      alive := Spend();
      if !alive { return false; }
      alive := Spend();
      if !alive { return false; }
      host, temp := temp, None;
      return true;
    }

    method RemoveIfPresent(job: Job) returns (done: bool)
      modifies this
      ensures cluster == old(cluster)
      ensures done == (old(budget) >= 1) && budget == (if done then old(budget) - 1 else 0)
      ensures done ==> State(Synced(job, Deleted)) == AgentNext(old(State(Unlinking(job))))
      ensures !done ==> State(Idle) == old(State(Idle))
    {
      done := Spend();
      if done {
        host := None;
      }
    }

    /** Compare the host file with the content and write, unlink or leave it. */
    method SyncContent(job: Job, content: Option<Content>) returns (outcome: Option<SyncOutcome>)
      modifies this
      ensures cluster == old(cluster)
      ensures match outcome
              case None => State(Idle) == Crash(Advance(old(State(HaveContent(job, content))), old(budget)))
              case Some(o) =>
                && budget <= old(budget)
                && State(Synced(job, o)) == Advance(old(State(HaveContent(job, content))), old(budget) - budget)
    {
      ghost var w := State(HaveContent(job, content));
      ghost var n := budget;
      var alive := Spend();
      if !alive {
        return None;
      }
      match DecideAction(content, FileHash(host)) {
        case Write =>
          var bytes := if content.Some? then content.value else "";
          var done := AtomicWrite(job, bytes);
          return if done then Some(Wrote(Sha(bytes))) else None;
        case Delete =>
          assert Advance(w, 2) == Advance(AgentNext(w), 1) == AgentNext(AgentNext(w));
          var done := RemoveIfPresent(job);
          return if done then Some(Deleted) else None;
        case NoOp =>
          return Some(Unchanged(FileHash(host)));
      }
    }

    /** Clear the applied annotation and take off the opt-in label, in one patch. */
    method ClearOptin() returns (done: bool)
      modifies this
      ensures done == (old(budget) >= 1)
      ensures State(Idle) == if done then AgentNext(old(State(Synced(TearDown, Deleted)))) else old(State(Idle))
    {
      done := Spend();
      if done {
        optedIn, applied := false, None;
        log := log + [Cleared(tick)];
      }
    }

    method RecordApplied(hash: Hash) returns (done: bool)
      modifies this
      ensures cluster == old(cluster) && done == (old(budget) >= 1) && budget == (if done then old(budget) - 1 else 0)
      ensures State(Idle) == if !done then old(State(Idle))
                             else old(State(Idle)).(applied := Some(hash), log := old(log) + [Recorded(tick, hash)])
    {
      done := Spend();
      if done {
        applied := Some(hash);
        log := log + [Recorded(tick, hash)];
      }
    }

    /**
     Restart the service unless the hash is the one already applied. `works` is whether the restart
     command succeeds; once it is issued the attempt is on record either way. None: the agent is dead.
     */
    method RestartIfNeeded(prev: Option<Hash>, intended: Hash, works: bool)
      returns (result: Option<Result<bool, RestartError>>)
      modifies this
      ensures cluster == old(cluster)
      ensures result == if !NeedsRestart(prev, intended) then Some(Ok(false))
                        else if old(budget) == 0 then None
                        else if works then Some(Ok(true))
                        else Some(Err(RestartFailed))
      ensures State(Idle) == if NeedsRestart(prev, intended) && old(budget) > 0
                             then AgentNext(old(State(Restarting(intended)))) else old(State(Idle))
    {
      if !NeedsRestart(prev, intended) {
        return Some(Ok(false));
      }
      var alive := Spend();
      if !alive {
        return None;
      }
      log := log + [Restarted(tick, intended)];
      return Some(if works then Ok(true) else Err(RestartFailed));
    }

    /** One reconcile tick, cut off after `budget` atomic actions; whether a restart works changes nothing here. */
    method ReconcileOnce(works: bool)
      modifies this
      ensures State(Idle) == Crash(Advance(Begin(old(State(Idle))), old(budget)))
    {
      ghost var w := Begin(State(Idle));
      tick := tick + 1;
      var prev := applied;
      match ref {
        case None =>
          assert State(HaveContent(TearDown, None)) == w;
          TearDownDropIn();
        case Some(r) =>
          var alive := Spend();
          if !alive {
            return;
          }
          if r.kind.UnknownKind? {
            return;
          }
          var content := Fetch(cluster, r);
          assert State(HaveContent(Deliver(r, prev), content)) == AgentNext(w);
          DeliverDropIn(r, prev, content, works);
      }
    }

    /** Unlink the file if it is there, then clear the opt-in. */
    method TearDownDropIn()
      modifies this
      ensures State(Idle) == Crash(Advance(old(State(HaveContent(TearDown, None))), old(budget)))
    {
      ghost var w := State(HaveContent(TearDown, None));
      ghost var n := budget;
      var outcome := SyncContent(TearDown, None);
      if outcome.Some? {
        AdvanceSplits(w, n - budget, budget);
        var _ := ClearOptin();
      }
    }

    /** Sync the file, then record and restart if need be. */
    method DeliverDropIn(r: KataRef, prev: Option<Hash>, content: Option<Content>, works: bool)
      modifies this
      ensures State(Idle) == Crash(Advance(old(State(HaveContent(Deliver(r, prev), content))), old(budget)))
    {
      ghost var w := State(HaveContent(Deliver(r, prev), content));
      ghost var n := budget;
      var outcome := SyncContent(Deliver(r, prev), content);
      if outcome.Some? {
        AdvanceSplits(w, n - budget, budget);
        RecordAndRestart(r, prev, outcome.value, works);
      }
    }

    /** Record a hash that is not applied yet, and only then restart, so a kill in between is final. */
    method RecordAndRestart(r: KataRef, prev: Option<Hash>, outcome: SyncOutcome, works: bool)
      modifies this
      ensures State(Idle) == Crash(Advance(old(State(Synced(Deliver(r, prev), outcome))), old(budget)))
    {
      AdvanceSynced(State(Synced(Deliver(r, prev), outcome)), budget);
      var intended := IntendedHashFor(outcome);
      if NeedsRestart(prev, intended) {
        var recorded := RecordApplied(intended);
        if recorded {
          var _ := RestartIfNeeded(prev, intended, works);
        }
      }
    }

    /**
     The controller half: resolve the source, then opt in or clear the reference. A call that fails
     before the patch, or a patch that is refused, leaves the Node as it was.
     */
    method ReconcileKataConfigDelivery(kata: Option<KataRef>, faults: DeliveryFaults)
      returns (result: Result<DeliveryOutcome, DeliveryError>)
      modifies this`optedIn, this`ref
      ensures kata.None? ==>
                && result == (if faults.patch.Done? then Ok(Disabled) else Err(PatchFailed))
                && optedIn == old(optedIn) && ref == (if faults.patch.Refused? then old(ref) else None)
      ensures kata.Some? && faults.sourceGet ==>
                result == Err(GetFailed) && optedIn == old(optedIn) && ref == old(ref)
      ensures kata.Some? && !faults.sourceGet ==>
                var k := kata.value;
                if ObjectId(k.kind, k.namespace, k.name) in cluster.objects then
                  && result == (if faults.patch.Done? then Ok(Ready) else Err(PatchFailed))
                  && optedIn == (old(optedIn) || !faults.patch.Refused?)
                  && ref == (if faults.patch.Refused? then old(ref) else kata)
                else if faults.namespaceGet then
                  result == Err(GetFailed) && optedIn == old(optedIn) && ref == old(ref)
                else
                  && result == (if !faults.patch.Done? then Err(PatchFailed)
                                else if k.namespace in cluster.namespaces then Ok(SourceNotFound)
                                else Ok(TargetNamespaceMissing))
                  && optedIn == old(optedIn) && ref == (if faults.patch.Refused? then old(ref) else None)
      ensures forall pc :: State(pc) == if ReachesPatch(cluster, kata, faults) && !faults.patch.Refused?
                                        then Reconciled(old(State(pc)), kata) else old(State(pc))
    {
      if kata.None? {
        if !faults.patch.Refused? {
          ref := None;
        }
        return if faults.patch.Done? then Ok(Disabled) else Err(PatchFailed);
      }
      var k := kata.value;
      if faults.sourceGet {
        return Err(GetFailed);
      }
      if Exists(cluster, k) {
        if !faults.patch.Refused? {
          optedIn, ref := true, kata;
        }
        return if faults.patch.Done? then Ok(Ready) else Err(PatchFailed);
      }
      if faults.namespaceGet {
        return Err(GetFailed);
      }
      if !faults.patch.Refused? {
        ref := None;
      }
      if !faults.patch.Done? {
        return Err(PatchFailed);
      }
      return Ok(if k.namespace in cluster.namespaces then SourceNotFound else TargetNamespaceMissing);
    }
  }

  lemma {:induction false} AdvanceSplits(w: World, m: nat, n: nat)
    ensures Advance(w, m + n) == Advance(Advance(w, m), n)
    decreases m
  {
    if m > 0 && w.pc != Idle {
      AdvanceSplits(AgentNext(w), m - 1, n);
    }
  }

  /** The four actions of a write, spelled out. */
  lemma AdvanceWrite(w: World, content: Content)
    requires w.pc.Writing? && w.pc.bytes == content && w.pc.stage == ClearTemp
    ensures var job := w.pc.job;
            && Advance(w, 0) == w
            && Advance(w, 1) == w.(temp := None, pc := Writing(job, content, FillTemp))
            && Advance(w, 2) == w.(temp := Some(content), pc := Writing(job, content, SetMode))
            && Advance(w, 3) == w.(temp := Some(content), pc := Writing(job, content, Rename))
            && Advance(w, 4) == w.(host := Some(content), temp := None, pc := Synced(job, Wrote(Sha(content))))
  {
    var w1 := AgentNext(w);
    var w2 := AgentNext(w1);
    var w3 := AgentNext(w2);
    AdvanceSplits(w, 1, 1);
    AdvanceSplits(w, 2, 1);
    AdvanceSplits(w, 3, 1);
    assert Advance(w, 1) == w1 && Advance(w1, 1) == w2 && Advance(w2, 1) == w3;
  }

  /** The end of a delivery tick, cut off after `n` actions. */
  lemma AdvanceSynced(w: World, n: nat)
    requires w.pc.Synced? && w.pc.job.Deliver?
    ensures var h := IntendedHashFor(w.pc.outcome);
            Crash(Advance(w, n)) ==
            if !NeedsRestart(w.pc.job.prev, h) || n == 0 then Crash(w)
            else w.(applied := Some(h), pc := Idle,
                    log := w.log + [Recorded(w.tick, h)] + if n == 1 then [] else [Restarted(w.tick, h)])
  {
    if n > 0 {
      var w1 := AgentNext(w);
      assert Advance(w, n) == Advance(w1, n - 1);
      if n > 1 && w1.pc != Idle {
        assert Advance(w1, n - 1) == Advance(AgentNext(w1), n - 2);
      }
    }
  }
}
