/**
 Runs of the delivery protocol: controller patches, cluster edits, agent actions, crashes and failed
 calls in any order, at most one agent at a time.
 */
module KataRuns {
  import opened Wrappers
  import opened KataDelivery
  import opened KataAgent

  datatype Step =
    | Controller(kata: Option<KataRef>)
    | EditCluster(cluster: Cluster)
    | StartTick
    | Act // the agent's next action gets through
    | Die // a crash, or a call that fails without effect
    | TornWrite(length: nat) // the agent dies in the middle of filling the temporary file
    | RenameFails // the rename is refused and the temporary file removed
    | EditHost(host: Option<Content>) // somebody else touches the host file

  /** The poll loop starts a tick whenever none is under way; it does not look at the label. */
  predicate Enabled(w: World, s: Step) {
    match s
    case StartTick => w.pc == Idle
    case Act => w.pc != Idle
    case TornWrite(n) => w.pc.Writing? && w.pc.stage == FillTemp && n <= |w.pc.bytes|
    case RenameFails => w.pc.Writing? && w.pc.stage == Rename
    case _ => true
  }

  function Next(w: World, s: Step): World
    requires Enabled(w, s)
  {
    match s
    case Controller(kata) => Reconciled(w, kata)
    case EditCluster(cluster) => w.(cluster := cluster)
    case StartTick => Begin(w)
    case Act => AgentNext(w)
    case Die => Crash(w)
    case TornWrite(n) => w.(temp := Some(w.pc.bytes[..n]), pc := Idle)
    case RenameFails => w.(temp := None, pc := Idle)
    case EditHost(host) => w.(host := host)
  }

  ghost predicate IsRun(ws: seq<World>, steps: seq<Step>) {
    && |ws| == |steps| + 1
    && forall i :: 0 <= i < |steps| ==> Enabled(ws[i], steps[i]) && ws[i + 1] == Next(ws[i], steps[i])
  }

  /** Between ticks, with nothing logged yet. */
  predicate Fresh(w: World) {
    w.pc == Idle && w.log == []
  }

  // ---------------------------------------------------------------------------------------------
  // No orphan drop-in
  // ---------------------------------------------------------------------------------------------

  /** The label outlives the host file: it goes only at the end of a tear-down, after the file. */
  predicate NoOrphan(w: World) {
    && (w.host.Some? ==> w.optedIn)
    && (w.pc != Idle && !TearDownUnderWay(w.pc) ==> w.optedIn)
    && (w.pc.HaveContent? && w.pc.job.TearDown? ==> w.pc.content.None?)
    && (w.pc.Writing? ==> w.pc.job.Deliver?)
    && (w.pc.Synced? && w.pc.job.TearDown? ==> w.host.None?)
  }

  /** A delivery that starts on a Node without the label, as by an agent that outlives its descheduling. */
  predicate StartsUnlabelled(w: World, s: Step) {
    s.StartTick? && w.ref.Some? && !w.optedIn
  }

  lemma StepKeepsNoOrphan(w: World, s: Step)
    requires NoOrphan(w) && Enabled(w, s) && !s.EditHost? && !StartsUnlabelled(w, s)
    ensures NoOrphan(Next(w, s))
  {
    match s
    case Act =>
      match w.pc {
        case HaveContent(job, content) => assert DecideAction(content, FileHash(w.host)).Write? ==> content.Some?;
        case _ =>
      }
    case _ =>
  }

  /**
   As long as only the agent writes the host file and no delivery starts on an unlabelled Node, a Node
   that carries the drop-in carries the opt-in label too, at every moment of every run: no descheduled
   Node keeps an orphan.
   */
  lemma {:induction false} NoOrphanDropIn(ws: seq<World>, steps: seq<Step>, i: nat)
    requires IsRun(ws, steps) && Fresh(ws[0]) && (ws[0].host.Some? ==> ws[0].optedIn)
    requires forall s :: s in steps ==> !s.EditHost?
    requires forall m :: 0 <= m < |steps| ==> !StartsUnlabelled(ws[m], steps[m])
    requires i < |ws|
    ensures NoOrphan(ws[i])
    decreases i
  {
    if i > 0 {
      NoOrphanDropIn(ws, steps, i - 1);
      assert steps[i - 1] in steps;
      StepKeepsNoOrphan(ws[i - 1], steps[i - 1]);
    }
  }

  /** The assumption is needed: such a delivery, undisturbed, leaves an orphan exactly when there is content. */
  lemma UnlabelledDeliveryOrphans(w: World)
    requires w.pc == Idle && !w.optedIn && w.ref.Some? && !w.ref.value.kind.UnknownKind?
    ensures StartsUnlabelled(w, StartTick)
    ensures var v := Tick(w); v.host.Some? && !v.optedIn <==> Fetch(w.cluster, w.ref.value).Some?
  {
    DeliveryTick(w);
  }

  // ---------------------------------------------------------------------------------------------
  // Restarts
  // ---------------------------------------------------------------------------------------------

  /** The applied annotation as the first entries of the log leave it. */
  function ValueAfter(start: Option<Hash>, log: seq<Event>): Option<Hash>
    decreases |log|
  {
    if |log| == 0 then start
    else
      match log[|log| - 1]
      case Recorded(_, h) => Some(h)
      case Cleared(_) => None
      case Restarted(_, _) => ValueAfter(start, log[..|log| - 1])
  }

  /** Each record changes the annotation; each restart directly follows its record, in the same tick. */
  ghost predicate Disciplined(start: Option<Hash>, log: seq<Event>) {
    && (forall i :: 0 <= i < |log| && log[i].Recorded? ==> ValueAfter(start, log[..i]) != Some(log[i].hash))
    && (forall i :: 0 <= i < |log| && log[i].Restarted? ==> i > 0 && log[i - 1] == Recorded(log[i].tick, log[i].hash))
  }

  /** What a tick under way has read is still what the annotation holds. */
  predicate TickReadCurrent(w: World) {
    match w.pc
    case HaveRef(_, prev) => prev == w.applied
    case HaveContent(Deliver(_, prev), _) => prev == w.applied
    case Writing(Deliver(_, prev), _, _) => prev == w.applied
    case Unlinking(Deliver(_, prev)) => prev == w.applied
    case Synced(Deliver(_, prev), _) => prev == w.applied
    case Restarting(h) => |w.log| > 0 && w.log[|w.log| - 1] == Recorded(w.tick, h)
    case _ => true
  }

  ghost predicate RestartInvariant(start: Option<Hash>, w: World) {
    Disciplined(start, w.log) && w.applied == ValueAfter(start, w.log) && TickReadCurrent(w)
  }

  lemma LogGrows(start: Option<Hash>, log: seq<Event>, e: Event)
    requires Disciplined(start, log)
    requires e.Recorded? ==> ValueAfter(start, log) != Some(e.hash)
    requires e.Restarted? ==> |log| > 0 && log[|log| - 1] == Recorded(e.tick, e.hash)
    ensures Disciplined(start, log + [e])
    ensures ValueAfter(start, log + [e]) ==
            match e
            case Recorded(_, h) => Some(h)
            case Cleared(_) => None
            case Restarted(_, _) => ValueAfter(start, log)
  {
    var more := log + [e];
    assert more[..|log|] == log;
    forall i | 0 <= i < |more| && more[i].Recorded? ensures ValueAfter(start, more[..i]) != Some(more[i].hash) {
      assert more[..i] == log[..i];
      if i == |log| {
        assert log[..i] == log;
      }
    }
  }

  /** The actions that touch the annotation or the service. */
  predicate Logs(w: World, s: Step) {
    s.Act? && match w.pc
              case Synced(TearDown, _) => true
              case Synced(Deliver(_, prev), outcome) => NeedsRestart(prev, IntendedHashFor(outcome))
              case Restarting(_) => true
              case _ => false
  }

  lemma QuietStep(w: World, s: Step)
    requires TickReadCurrent(w) && Enabled(w, s) && !Logs(w, s)
    ensures Next(w, s).log == w.log && Next(w, s).applied == w.applied && TickReadCurrent(Next(w, s))
  {
  }

  lemma LoggingStep(start: Option<Hash>, w: World, s: Step)
    requires Disciplined(start, w.log) && w.applied == ValueAfter(start, w.log) && TickReadCurrent(w)
    requires Enabled(w, s) && Logs(w, s)
    ensures RestartInvariant(start, Next(w, s))
  {
    hide Disciplined;
    hide ValueAfter;
    match w.pc
    case Synced(TearDown, _) => LogGrows(start, w.log, Cleared(w.tick));
    case Synced(Deliver(_, _), outcome) => LogGrows(start, w.log, Recorded(w.tick, IntendedHashFor(outcome)));
    case Restarting(h) => LogGrows(start, w.log, Restarted(w.tick, h));
  }

  lemma StepKeepsRestartInvariant(start: Option<Hash>, w: World, s: Step, v: World)
    requires RestartInvariant(start, w) && Enabled(w, s) && v == Next(w, s)
    ensures RestartInvariant(start, v)
  {
    if Logs(w, s) {
      LoggingStep(start, w, s);
    } else {
      QuietStep(w, s);
    }
  }

  /**
   In every run, with crashes and failures anywhere and with anybody editing the host file, each
   restart directly follows, in its tick, a record that changed the applied annotation to its hash.
   */
  lemma {:induction false} RestartsFollowRecords(ws: seq<World>, steps: seq<Step>, i: nat)
    requires IsRun(ws, steps) && Fresh(ws[0]) && i < |ws|
    ensures RestartInvariant(ws[0].applied, ws[i])
    decreases i
  {
    if i > 0 {
      RestartsFollowRecords(ws, steps, i - 1);
      StepKeepsRestartInvariant(ws[0].applied, ws[i - 1], steps[i - 1], ws[i]);
    }
  }

  function Restarts(log: seq<Event>): nat
    decreases |log|
  {
    if |log| == 0 then 0 else Restarts(log[..|log| - 1]) + if log[|log| - 1].Restarted? then 1 else 0
  }

  /** How often the agent changed the value of the annotation. */
  function Changes(start: Option<Hash>, log: seq<Event>): nat
    decreases |log|
  {
    if |log| == 0 then 0
    else Changes(start, log[..|log| - 1]) +
         if ValueAfter(start, log) != ValueAfter(start, log[..|log| - 1]) then 1 else 0
  }

  lemma DisciplinedPrefix(start: Option<Hash>, log: seq<Event>, n: nat)
    requires Disciplined(start, log) && n <= |log|
    ensures Disciplined(start, log[..n])
  {
    forall i | 0 <= i < n ensures log[..n][..i] == log[..i] {}
  }

  lemma {:induction false} RestartsAreChanges(start: Option<Hash>, log: seq<Event>)
    requires Disciplined(start, log)
    ensures Restarts(log) <= Changes(start, log)
    ensures |log| > 0 && log[|log| - 1].Recorded? ==> Restarts(log) < Changes(start, log)
    decreases |log|
  {
    if |log| > 0 {
      var init := log[..|log| - 1];
      DisciplinedPrefix(start, log, |log| - 1);
      RestartsAreChanges(start, init);
    }
  }

  /** If the annotation once held `h` and later does not, something in between set it otherwise. */
  lemma {:induction false} ChangedBetween(start: Option<Hash>, log: seq<Event>, a: nat, b: nat, h: Hash)
    returns (m: nat)
    requires a <= b <= |log|
    requires ValueAfter(start, log[..a]) == Some(h) && ValueAfter(start, log[..b]) != Some(h)
    ensures a <= m < b && (log[m].Cleared? || (log[m].Recorded? && log[m].hash != h))
    decreases b
  {
    assert a < b;
    assert log[..b][..b - 1] == log[..b - 1];
    if log[b - 1].Restarted? {
      m := ChangedBetween(start, log, a, b - 1, h);
    } else {
      m := b - 1;
    }
  }

  predicate SameRestart(e: Event, f: Event) {
    e.Restarted? && f.Restarted? && e.hash == f.hash
  }

  /**
   Restarts never outnumber the agent's changes of the annotation, and between two restarts for the
   same hash the agent recorded another hash or tore the drop-in down.
   */
  lemma RestartsAreBounded(ws: seq<World>, steps: seq<Step>, i: nat)
    requires IsRun(ws, steps) && Fresh(ws[0]) && i < |ws|
    ensures var log := ws[i].log;
            && Restarts(log) <= Changes(ws[0].applied, log)
            && forall p, q :: 0 <= p < q < |log| && SameRestart(log[p], log[q]) ==>
                 exists m :: p < m < q && (log[m].Cleared? || (log[m].Recorded? && log[m].hash != log[p].hash))
  {
    RestartsFollowRecords(ws, steps, i);
    var start, log := ws[0].applied, ws[i].log;
    RestartsAreChanges(start, log);
    forall p, q | 0 <= p < q < |log| && SameRestart(log[p], log[q])
      ensures exists m :: p < m < q && (log[m].Cleared? || (log[m].Recorded? && log[m].hash != log[p].hash))
    {
      var h := log[p].hash;
      assert log[p - 1] == Recorded(log[p].tick, h) && log[q - 1] == Recorded(log[q].tick, h);
      assert log[..p + 1][..p] == log[..p] && log[..p][..p - 1] == log[..p - 1];
      assert ValueAfter(start, log[..p + 1]) == Some(h);
      var m := ChangedBetween(start, log, p + 1, q - 1, h);
    }
  }

  // ---------------------------------------------------------------------------------------------
  // What one tick achieves
  // ---------------------------------------------------------------------------------------------

  function AppliedFor(content: Option<Content>): Hash {
    match content
    case Some(bytes) => Sha(bytes)
    case None => AbsentMarker
  }

  lemma FinishWrite(w: World, job: Job, bytes: Content)
    requires w.pc == Writing(job, bytes, ClearTemp)
    ensures Finish(w) == Finish(w.(host := Some(bytes), temp := None, pc := Synced(job, Wrote(Sha(bytes)))))
  {
    hide Finish;
    var v1 := w.(temp := None, pc := Writing(job, bytes, FillTemp));
    var v2 := w.(temp := Some(bytes), pc := Writing(job, bytes, SetMode));
    var v3 := w.(temp := Some(bytes), pc := Writing(job, bytes, Rename));
    FinishStep(w, v1);
    FinishStep(v1, v2);
    FinishStep(v2, v3);
    FinishStep(v3, w.(host := Some(bytes), temp := None, pc := Synced(job, Wrote(Sha(bytes)))));
  }

  lemma FinishStep(w: World, v: World)
    requires w.pc != Idle && v == AgentNext(w)
    ensures Finish(w) == Finish(v)
  {
  }

  lemma SyncIntends(host: Option<Content>, content: Option<Content>)
    ensures IntendedHashFor(SyncResult(host, content)) == AppliedFor(content)
    ensures match DecideAction(content, FileHash(host))
            case Write => content.Some? && SyncResult(host, content) == Wrote(Sha(content.value))
            case Delete => content.None? && SyncResult(host, content) == Deleted
            case NoOp => host == content && SyncResult(host, content) == Unchanged(FileHash(host))
  {
  }

  /** The host file after a sync, and what the sync reports. */
  lemma FinishSync(w: World, job: Job, content: Option<Content>)
    requires w.pc == HaveContent(job, content)
    ensures IntendedHashFor(SyncResult(w.host, content)) == AppliedFor(content)
    ensures Finish(w) == Finish(AfterSync(w, job, content))
  {
    hide Finish;
    hide DecideAction;
    hide SyncResult;
    hide FileHash;
    var v := AgentNext(w);
    SyncIntends(w.host, content);
    FinishStep(w, v);
    match DecideAction(content, FileHash(w.host))
    case Write => FinishWrite(v, job, content.value);
    case Delete => FinishStep(v, AgentNext(v));
    case NoOp =>
  }

  function AfterSync(w: World, job: Job, content: Option<Content>): World {
    var outcome := SyncResult(w.host, content);
    w.(host := content, temp := if outcome.Wrote? then None else w.temp, pc := Synced(job, outcome))
  }

  /**
   An undisturbed delivery tick makes the host file equal the source, absent exactly when the source
   is, leaves the matching applied hash, and restarts exactly when that hash was not there before.
   */
  lemma DeliveryTick(w: World)
    requires w.pc == Idle && w.ref.Some? && !w.ref.value.kind.UnknownKind?
    ensures var content, v := Fetch(w.cluster, w.ref.value), Tick(w);
            var h := AppliedFor(content);
            && v.host == content
            && v.applied == Some(h)
            && v.log == w.log + RestartLog(w, h)
            && v.pc == Idle && v.optedIn == w.optedIn && v.ref == w.ref && v.cluster == w.cluster
            && v.tick == w.tick + 1
            && (w.host == content ==> v.temp == w.temp)
  {
    var b := Begin(w);
    var content := Fetch(w.cluster, w.ref.value);
    var job := Deliver(w.ref.value, w.applied);
    FinishSync(AgentNext(b), job, content);
    var s := AfterSync(AgentNext(b), job, content);
    assert Finish(b) == Finish(s);
    var s1 := AgentNext(s);
    if s1.pc != Idle {
      var s2 := AgentNext(s1);
      assert s2.pc == Idle;
      assert Finish(s) == Finish(s1) == Finish(s2) == s2;
      assert s2.log == w.log + RestartLog(w, AppliedFor(content));
    } else {
      assert Finish(s) == Finish(s1) == s1;
      assert s1.log == w.log + [];
    }
  }

  /** What the next tick logs when it delivers content of hash `h`. */
  function RestartLog(w: World, h: Hash): seq<Event> {
    if w.applied == Some(h) then [] else [Recorded(w.tick + 1, h), Restarted(w.tick + 1, h)]
  }

  /** With source and file as the last tick left them, a tick writes, patches and restarts nothing. */
  lemma SteadyTick(w: World)
    requires w.pc == Idle && w.ref.Some? && !w.ref.value.kind.UnknownKind?
    ensures var v := Tick(w); Tick(v) == v.(tick := v.tick + 1)
  {
    DeliveryTick(w);
    DeliveryTick(Tick(w));
    var v := Tick(w);
    assert v.log + [] == v.log;
  }

  /**
   Out-of-band drift of the host file is put right and the service is not bounced for it; the sync
   counts as a drift correction exactly when there is content and the file had strayed from it.
   */
  lemma DriftTick(w: World, drifted: Option<Content>)
    requires w.pc == Idle && w.ref.Some? && !w.ref.value.kind.UnknownKind?
    ensures var content, v := Fetch(w.cluster, w.ref.value), Tick(w);
            var u := Tick(v.(host := drifted));
            && u.host == v.host && u.applied == v.applied && u.log == v.log
            && (IsDriftCorrection(SyncResult(drifted, content), v.applied) <==> content.Some? && drifted != content)
  {
    DeliveryTick(w);
    DeliveryTick(Tick(w).(host := drifted));
  }

  /**
   A restart that is recorded but never happens, because the agent dies just before it or the command
   fails, is not made up for: whatever the others do meanwhile, the next undisturbed delivery restarts
   if and only if the content is by then another one.
   */
  lemma LostRestartIsNotRetried(ws: seq<World>, steps: seq<Step>, i: nat, h: Hash, v: World)
    requires IsRun(ws, steps) && Fresh(ws[0]) && i < |ws| && ws[i].pc == Restarting(h)
    requires v.pc == Idle && v.applied == ws[i].applied && v.log in {ws[i].log, AgentNext(ws[i]).log}
    requires v.ref.Some? && !v.ref.value.kind.UnknownKind?
    ensures Restarts(Tick(v).log) ==
            Restarts(v.log) + if AppliedFor(Fetch(v.cluster, v.ref.value)) != h then 1 else 0
  {
    RestartsFollowRecords(ws, steps, i);
    var n := AppliedFor(Fetch(v.cluster, v.ref.value));
    assert v.applied == Some(h);
    DeliveryTick(v);
    if n == h {
      assert v.log + [] == v.log;
    } else {
      var r, s := Recorded(v.tick + 1, n), Restarted(v.tick + 1, n);
      assert (v.log + [r])[..|v.log|] == v.log && (v.log + [r, s])[..|v.log| + 1] == v.log + [r];
    }
  }

  /** An undisturbed tick without a reference leaves no file, no applied hash and no label. */
  lemma TearDownTick(w: World)
    requires w.pc == Idle && w.ref.None?
    ensures var v := Tick(w);
            v.host.None? && v.applied.None? && !v.optedIn && v.pc == Idle && v.log == w.log + [Cleared(w.tick + 1)]
  {
    FinishSync(Begin(w), TearDown, None);
    var s := AfterSync(Begin(w), TearDown, None);
    assert Finish(s) == Finish(AgentNext(s)) == AgentNext(s);
  }

  /**
   Wherever a tick is cut off, even halfway through filling the temporary file, the host file is
   the whole old one or what the whole tick would have left.
   */
  lemma CutOffLeavesOldOrNew(w: World, n: nat)
    requires w.pc == Idle
    ensures var v := Advance(Begin(w), n); v.host == w.host || v.host == Tick(w).host
    ensures var v := Advance(Begin(w), n);
            forall s: Step :: (s.TornWrite? || s.RenameFails? || s.Die?) && Enabled(v, s) ==>
                        Next(v, s).host == w.host || Next(v, s).host == Tick(w).host
  {
    StillToCome(Begin(w), n);
  }

  ghost predicate OnItsWay(w: World) {
    w.pc.Writing? && w.pc.stage in {SetMode, Rename} ==> w.temp == Some(w.pc.bytes)
  }

  lemma {:induction false} StillToCome(w: World, n: nat)
    requires OnItsWay(w)
    ensures OnItsWay(Advance(w, n)) && Finish(Advance(w, n)) == Finish(w)
    ensures Advance(w, n).host == w.host || Advance(w, n).host == Finish(w).host
    decreases n
  {
    if n > 0 && w.pc != Idle {
      StillToCome(AgentNext(w), n - 1);
      if AgentNext(w).host != w.host {
        HostSettled(AgentNext(w));
      }
    }
  }

  /** Once the sync is done, the rest of the tick leaves the host file alone. */
  lemma {:induction false} HostSettled(w: World)
    requires w.pc.Synced? || w.pc.Restarting? || w.pc.Idle?
    ensures Finish(w).host == w.host
    decreases Rank(w.pc)
  {
    if w.pc != Idle {
      HostSettled(AgentNext(w));
    }
  }

  /** The text that a reference names, entry by entry. */
  ghost predicate Holds(cluster: Cluster, r: KataRef, content: Content) {
    var id := ObjectId(r.kind, r.namespace, r.name);
    id in cluster.objects && r.key in cluster.objects[id] && cluster.objects[id][r.key] == content
  }

  /**
   Both halves together: once the controller has seen the referenced object, one undisturbed tick puts the
   text under the reference's key on the host, or no file at all if the object has no such key.
   */
  lemma StampDelivers(w: World, r: KataRef)
    requires w.pc == Idle && Exists(w.cluster, r) && !r.kind.UnknownKind?
    ensures var v := Tick(Next(w, Controller(Some(r))));
            && v.optedIn && v.ref == Some(r)
            && forall content :: v.host == Some(content) <==> Holds(w.cluster, r, content)
  {
    DeliveryTick(Next(w, Controller(Some(r))));
  }

  /**
   And once the spec has no Kata block, or its object is gone, one undisturbed tick leaves no file, no
   applied hash and no label.
   */
  lemma ClearTearsDown(w: World, kata: Option<KataRef>)
    requires w.pc == Idle && (kata.Some? ==> !Exists(w.cluster, kata.value))
    ensures var v := Tick(Next(w, Controller(kata)));
            v.host.None? && v.applied.None? && !v.optedIn && v.ref.None? && v.pc == Idle
  {
    var c := Next(w, Controller(kata));
    TearDownTick(c);
    RefStays(Begin(c));
  }

  lemma {:induction false} RefStays(w: World)
    ensures Finish(w).ref == w.ref
    decreases Rank(w.pc)
  {
    if w.pc != Idle {
      RefStays(AgentNext(w));
    }
  }

  /** A reference of a kind that the agent does not know changes nothing. */
  lemma UnknownKindIsIgnored(w: World)
    requires w.pc == Idle && w.ref.Some? && w.ref.value.kind.UnknownKind?
    ensures Tick(w) == w.(tick := w.tick + 1)
  {
    var b := Begin(w);
    assert Finish(b) == Finish(AgentNext(b)) == AgentNext(b);
  }

  // ---------------------------------------------------------------------------------------------
  // The label and the reference
  // ---------------------------------------------------------------------------------------------

  /** A stamp put on while a tick is under way outlives the tick if and only if the tick is no tear-down. */
  lemma StampSurvivesTickIff(w: World, kata: KataRef)
    requires Exists(w.cluster, kata)
    ensures Finish(Reconciled(w, Some(kata))).optedIn <==> !TearDownUnderWay(w.pc)
  {
    LabelAfterTick(Reconciled(w, Some(kata)));
  }

  lemma {:induction false} LabelAfterTick(w: World)
    requires w.optedIn
    ensures Finish(w).optedIn <==> !TearDownUnderWay(w.pc)
    decreases Rank(w.pc)
  {
    if w.pc != Idle {
      var v := AgentNext(w);
      if v.optedIn {
        LabelAfterTick(v);
      } else {
        assert v.pc == Idle && Finish(v) == v;
      }
    }
  }

  /** The last action of a tear-down goes through: the patch that takes the label off. */
  predicate TakesLabelOff(w: World, s: Step) {
    s.Act? && w.pc.Synced? && w.pc.job.TearDown?
  }

  /** The controller stamps at step `i` and does not reconcile again before state `j`. */
  ghost predicate StampedOnce(ws: seq<World>, steps: seq<Step>, i: nat, j: nat, kata: KataRef) {
    && IsRun(ws, steps) && i < j < |ws|
    && steps[i] == Controller(Some(kata)) && Exists(ws[i].cluster, kata)
    && forall m :: i < m < j ==> !steps[m].Controller?
  }

  /** A tear-down at state `j` is the very tick that was under way at the stamp, and the reference is there. */
  ghost predicate OnlyTheOldTick(w: World, v: World, kata: KataRef) {
    v.ref == Some(kata) && (TearDownUnderWay(v.pc) ==> TearDownUnderWay(w.pc) && v.tick == w.tick)
  }

  lemma {:induction false} OnlyTheOldTickTearsDown(ws: seq<World>, steps: seq<Step>, i: nat, j: nat, kata: KataRef)
    requires StampedOnce(ws, steps, i, j, kata)
    ensures OnlyTheOldTick(ws[i], ws[j], kata)
    decreases j
  {
    if j > i + 1 {
      hide StampedOnce;
      hide OnlyTheOldTick;
      hide Enabled;
      hide Next;
      StampedEarlier(ws, steps, i, j, kata);
      OnlyTheOldTickTearsDown(ws, steps, i, j - 1, kata);
      OldTickStep(ws[i], ws[j - 1], steps[j - 1], ws[j], kata);
    } else {
      StampedNow(ws, steps, i, kata);
    }
  }

  lemma OldTickStep(w: World, v: World, s: Step, u: World, kata: KataRef)
    requires OnlyTheOldTick(w, v, kata) && Enabled(v, s) && !s.Controller? && u == Next(v, s)
    ensures OnlyTheOldTick(w, u, kata)
  {
  }

  /** The last step before state `n` that takes the label off, if there is one since the stamp. */
  function LabelTaken(ws: seq<World>, steps: seq<Step>, i: nat, n: nat): Option<nat>
    requires |ws| == |steps| + 1 && i < n < |ws|
    decreases n
  {
    if n == i + 1 then None
    else if TakesLabelOff(ws[n - 1], steps[n - 1]) then Some(n - 1)
    else LabelTaken(ws, steps, i, n - 1)
  }

  lemma {:induction false} LabelTakenIff(ws: seq<World>, steps: seq<Step>, i: nat, n: nat)
    requires |ws| == |steps| + 1 && i < n < |ws|
    ensures LabelTaken(ws, steps, i, n).Some? <==> exists m :: i < m < n && TakesLabelOff(ws[m], steps[m])
    decreases n
  {
    if n > i + 1 {
      hide TakesLabelOff;
      LabelTakenIff(ws, steps, i, n - 1);
    }
  }

  lemma {:induction false} LabelIsOnUntilTaken(ws: seq<World>, steps: seq<Step>, i: nat, j: nat, kata: KataRef)
    requires StampedOnce(ws, steps, i, j, kata)
    ensures ws[j].optedIn <==> LabelTaken(ws, steps, i, j).None?
    decreases j
  {
    if j > i + 1 {
      hide StampedOnce;
      hide TakesLabelOff;
      hide Enabled;
      hide Next;
      StampedEarlier(ws, steps, i, j, kata);
      LabelIsOnUntilTaken(ws, steps, i, j - 1, kata);
      OnlyTheOldTickTearsDown(ws, steps, i, j - 1, kata);
      LabelAfterStep(ws[j - 1], steps[j - 1]);
    } else {
      StampedNow(ws, steps, i, kata);
    }
  }

  lemma LabelAfterStep(w: World, s: Step)
    requires Enabled(w, s) && !s.Controller?
    ensures Next(w, s).optedIn == (w.optedIn && !TakesLabelOff(w, s))
  {
  }

  lemma StampedNow(ws: seq<World>, steps: seq<Step>, i: nat, kata: KataRef)
    requires StampedOnce(ws, steps, i, i + 1, kata)
    ensures ws[i + 1] == ws[i].(optedIn := true, ref := Some(kata))
  {
  }

  lemma StampedEarlier(ws: seq<World>, steps: seq<Step>, i: nat, j: nat, kata: KataRef)
    requires i + 1 < j && StampedOnce(ws, steps, i, j, kata)
    ensures StampedOnce(ws, steps, i, j - 1, kata)
    ensures Enabled(ws[j - 1], steps[j - 1]) && !steps[j - 1].Controller?
    ensures ws[j] == Next(ws[j - 1], steps[j - 1])
  {
  }

  /** The tick under way at step `i` lives to take the label off before state `j`. */
  ghost predicate TickEndsTearDown(ws: seq<World>, steps: seq<Step>, i: nat, j: nat)
    requires |ws| == |steps| + 1 && i < j < |ws|
  {
    exists m :: i < m < j && ws[m].tick == ws[i].tick && TakesLabelOff(ws[m], steps[m])
  }

  /**
   In every run, with crashes and failures anywhere: the reference stays, and the stamp is lost if and only
   if the tick that was under way when it was put on is a tear-down and that very tick lives to take the
   label off.
   */
  lemma StampSurvivesIff(ws: seq<World>, steps: seq<Step>, i: nat, j: nat, kata: KataRef)
    requires StampedOnce(ws, steps, i, j, kata)
    ensures ws[j].ref == Some(kata)
    ensures !ws[j].optedIn <==> TearDownUnderWay(ws[i].pc) && TickEndsTearDown(ws, steps, i, j)
  {
    OnlyTheOldTickTearsDown(ws, steps, i, j, kata);
    LabelIsOnUntilTaken(ws, steps, i, j, kata);
    LabelTakenIff(ws, steps, i, j);
    if m :| i < m < j && TakesLabelOff(ws[m], steps[m]) {
      StampedUpTo(ws, steps, i, j, m, kata);
      OnlyTheOldTickTearsDown(ws, steps, i, m, kata);
      assert TearDownUnderWay(ws[m].pc);
    }
  }

  lemma StampedUpTo(ws: seq<World>, steps: seq<Step>, i: nat, j: nat, m: nat, kata: KataRef)
    requires StampedOnce(ws, steps, i, j, kata) && i < m < j
    ensures StampedOnce(ws, steps, i, m, kata)
  {
  }

  /** Such a run: the Node keeps its reference but no label, until the controller reconciles again. */
  lemma StampLostToTearDown(w: World, kata: KataRef)
    requires w.pc == Idle && w.optedIn && w.ref.None? && Exists(w.cluster, kata)
    requires w.host.None?
    ensures var steps := [StartTick, Act, Controller(Some(kata)), Act];
            exists ws: seq<World> :: IsRun(ws, steps) && ws[0] == w && ws[4].ref == Some(kata) && !ws[4].optedIn
                                     && Next(ws[4], Controller(Some(kata))).optedIn
  {
    var w1 := Begin(w);
    var w2 := AgentNext(w1);
    var w3 := Reconciled(w2, Some(kata));
    var w4 := AgentNext(w3);
    var ws := [w, w1, w2, w3, w4];
    assert IsRun(ws, [StartTick, Act, Controller(Some(kata)), Act]);
    assert ws[4].ref == Some(kata) && !ws[4].optedIn;
  }
}
