/**
 Runs of the taint reconcile: admins edit the Node, users edit the spec, the controller
 reconciles, and it may crash between patching the Node and patching the status record.
 */
module TaintRuns {
  import opened Wrappers
  import opened Seqs
  import opened NodeTaints
  import opened TaintMerge

  /** The Node's taints and ownership annotation, the spec, and the recorded taints. */
  datatype World = World(
    node: seq<Taint>, spec: seq<NodeTaint>, record: seq<NodeTaint>, owned: Option<seq<TaintId>>)

  datatype Step =
    | AdminEdit(node: seq<Taint>)
    | SpecEdit(spec: seq<NodeTaint>)
    // false: the status patch never landed, also when the Node patch landed but its reply was lost
    | Reconcile(persisted: bool)

  ghost predicate ValidWorld(w: World) {
    WellFormed(w.node, w.spec, w.record) && UniqueWanted(w.spec)
  }

  ghost predicate ValidStep(s: Step) {
    match s
    case AdminEdit(node) => UniqueTaints(node)
    case SpecEdit(spec) => UniqueWanted(spec)
    case Reconcile(_) => true
  }

  function Next(w: World, s: Step): World {
    match s
    case AdminEdit(node) => w.(node := node)
    case SpecEdit(spec) => w.(spec := spec)
    case Reconcile(persisted) =>
      var plan := PlanOf(w.node, w.spec, w.record);
      if plan.conflicts != [] then w
      else
        World(
          Target(w.node, plan), w.spec, if persisted then w.spec else w.record,
          if plan.IsNoop() then w.owned else Some(Owned(plan)))
  }

  function Run(w: World, steps: seq<Step>): World
    decreases |steps|
  {
    if |steps| == 0 then w else Next(Run(w, steps[..|steps| - 1]), steps[|steps| - 1])
  }

  ghost predicate ValidRun(w: World, steps: seq<Step>) {
    ValidWorld(w) && forall s :: s in steps ==> ValidStep(s)
  }

  lemma {:induction false} RunStaysValid(w: World, steps: seq<Step>)
    requires ValidRun(w, steps)
    ensures ValidWorld(Run(w, steps))
    decreases |steps|
  {
    if |steps| > 0 {
      var v := Run(w, steps[..|steps| - 1]);
      RunStaysValid(w, steps[..|steps| - 1]);
      var s := steps[|steps| - 1];
      assert s in steps;
      TargetUnique(v.node, v.spec, v.record);
      UniqueRepeatsNothing(v.node, v.spec);
      if s.SpecEdit? {
        UniqueHasOneValue(s.spec);
      }
    }
  }

  // ---------------------------------------------------------------------------------------------
  // Only recorded taints are touched
  // ---------------------------------------------------------------------------------------------

  /**
   At any point of any run, a taint that one reconcile takes off the Node or overwrites is at that
   moment recorded as applied with the same key, effect and value.
   */
  lemma TouchedWasRecorded(w: World, steps: seq<Step>, persisted: bool, t: Taint)
    requires ValidRun(w, steps)
    requires t in Run(w, steps).node && t !in Next(Run(w, steps), Reconcile(persisted)).node
    ensures EffectFromStr(t.effect).Some?
    ensures NodeTaint(t.key, t.value, EffectFromStr(t.effect).value) in Run(w, steps).record
  {
    RunStaysValid(w, steps);
    var v := Run(w, steps);
    var plan, id := PlanOf(v.node, v.spec, v.record), IdOf(t);
    PlanAt(v.node, v.spec, v.record, id);
    FindTaintUnique(v.node, t);
    FilterMembers(v.node, Kept(plan));
    FindWantedFinds(v.record, id);
    var kept := Filter(v.node, Kept(plan));
    if t in kept {
      var i :| 0 <= i < |kept| && kept[i] == t;
      assert RewriteAll(plan, kept)[i] == Rewrite(plan, t);
      assert Rewrite(plan, t) != t;
    }
    var r := FindWanted(v.record, id).value;
    EffectTranslation(t.effect, r.effect);
    assert r == NodeTaint(t.key, t.value, EffectFromStr(t.effect).value);
  }

  /** Every identity that some spec of the run or the first record names. */
  function Mentioned(w: World, steps: seq<Step>): set<TaintId>
    decreases |steps|
  {
    if |steps| == 0 then
      (set x | x in w.spec :: WantedId(x)) + (set x | x in w.record :: WantedId(x))
    else
      Mentioned(w, steps[..|steps| - 1]) +
      match steps[|steps| - 1]
      case SpecEdit(spec) => set x | x in spec :: WantedId(x)
      case _ => {}
  }

  /** The Node list as the last admin edit left it. */
  function LastAdminList(w: World, steps: seq<Step>): seq<Taint>
    decreases |steps|
  {
    if |steps| == 0 then w.node
    else
      match steps[|steps| - 1]
      case AdminEdit(node) => node
      case _ => LastAdminList(w, steps[..|steps| - 1])
  }

  lemma {:induction false} RunStaysCovered(w: World, steps: seq<Step>)
    ensures Covers(Mentioned(w, steps), Run(w, steps).spec) && Covers(Mentioned(w, steps), Run(w, steps).record)
    decreases |steps|
  {
    if |steps| > 0 {
      RunStaysCovered(w, steps[..|steps| - 1]);
    }
  }

  /**
   Over a whole run the taints that no spec and no first record ever named are, as a sub-list,
   what the last admin edit wrote: the controller never added, removed, changed or moved one.
   */
  lemma {:induction false} ForeignTaintsNeverTouched(w: World, steps: seq<Step>, ids: set<TaintId>)
    requires Mentioned(w, steps) <= ids
    ensures Filter(Run(w, steps).node, Foreign(ids)) == Filter(LastAdminList(w, steps), Foreign(ids))
    decreases |steps|
  {
    if |steps| > 0 {
      var init := steps[..|steps| - 1];
      var v := Run(w, init);
      ForeignTaintsNeverTouched(w, init, ids);
      RunStaysCovered(w, init);
      MergeKeepsForeign(v.node, v.spec, v.record, ids);
    }
  }

  // ---------------------------------------------------------------------------------------------
  // Fixpoint and replay
  // ---------------------------------------------------------------------------------------------

  /** The Node shows the whole spec and nothing that the record alone names. */
  ghost predicate Settled(node: seq<Taint>, spec: seq<NodeTaint>, record: seq<NodeTaint>) {
    && (forall d :: d in spec ==> NodeSlot(node, WantedId(d)) == Present(d.value))
    && (forall r :: r in record && !Names(spec, WantedId(r)) ==> !Carries(node, WantedId(r)))
  }

  lemma SettledMeansNoop(node: seq<Taint>, spec: seq<NodeTaint>, record: seq<NodeTaint>)
    requires Settled(node, spec, record)
    ensures PlanOf(node, spec, record).IsNoop() && PlanOf(node, spec, record).conflicts == []
    ensures Target(node, PlanOf(node, spec, record)) == node
  {
    forall d | d in spec ensures JudgeDesired(node, record, d) == Unchanged {
      FindCurrentIsFindTaint(node, d.key, d.effect);
    }
    forall r | r in record ensures JudgeApplied(node, spec, r) == Skip {
      FindWantedFinds(spec, WantedId(r));
      FindCurrentFinds(node, r.key, r.effect);
    }
    FilterNone(spec, DesiredIn(node, record, Add));
    FilterNone(spec, DesiredIn(node, record, Update));
    FilterNone(spec, DesiredIn(node, record, Conflict));
    FilterNone(record, AppliedIn(node, spec, Remove));
    FilterNone(record, AppliedIn(node, spec, Conflict));
    NoopTarget(node, PlanOf(node, spec, record));
  }

  lemma ReconcileSettles(w: World)
    requires UniqueTaints(w.node) && OneValue(w.spec) && PlanOf(w.node, w.spec, w.record).conflicts == []
    ensures var node := Target(w.node, PlanOf(w.node, w.spec, w.record));
            Settled(node, w.spec, w.record) && Settled(node, w.spec, w.spec)
  {
    hide PlanOf;
    hide Target;
    hide NodeSlot;
    var node := Target(w.node, PlanOf(w.node, w.spec, w.record));
    forall d | d in w.spec ensures NodeSlot(node, WantedId(d)) == Present(d.value) {
      DesiredIsShown(w.node, w.spec, w.record, d);
    }
    forall r | r in w.record && !Names(w.spec, WantedId(r))
      ensures !Carries(node, WantedId(r))
    {
      DroppedIsGone(w.node, w.spec, w.record, r);
    }
  }

  lemma NoopShowsSpec(node: seq<Taint>, spec: seq<NodeTaint>, record: seq<NodeTaint>)
    requires PlanOf(node, spec, record).IsNoop() && PlanOf(node, spec, record).conflicts == []
    ensures forall d :: d in spec ==> NodeSlot(node, WantedId(d)) == Present(d.value)
  {
    FilterMembers(spec, DesiredIn(node, record, Add));
    FilterMembers(spec, DesiredIn(node, record, Update));
    FilterMembers(spec, DesiredIn(node, record, Conflict));
    forall d | d in spec ensures NodeSlot(node, WantedId(d)) == Present(d.value) {
      FindCurrentIsFindTaint(node, d.key, d.effect);
      var v := JudgeDesired(node, record, d);
      assert v != Add && v != Update && v != Conflict;
    }
  }

  /**
   Fixpoint: after a conflict-free reconcile of any spec against any record, the next plan changes
   nothing and conflicts with nothing if and only if the spec gives no identity two values, both with the
   record brought up to date and with the record a crash left behind; and then replaying the crashed
   reconcile brings the record up to date without touching the Node.
   */
  lemma ReconcileReachesFixpoint(w: World, persisted: bool)
    requires UniqueTaints(w.node) && PlanOf(w.node, w.spec, w.record).conflicts == []
    ensures var v := Next(w, Reconcile(persisted));
            && (PlanOf(v.node, v.spec, v.record).IsNoop() && PlanOf(v.node, v.spec, v.record).conflicts == [] <==>
                OneValue(w.spec))
            && (OneValue(w.spec) ==> Next(v, Reconcile(true)) == v.(record := w.spec))
  {
    var v := Next(w, Reconcile(persisted));
    if OneValue(w.spec) {
      ReconcileSettles(w);
      SettledMeansNoop(v.node, v.spec, v.record);
    } else if PlanOf(v.node, v.spec, v.record).IsNoop() && PlanOf(v.node, v.spec, v.record).conflicts == [] {
      NoopShowsSpec(v.node, v.spec, v.record);
      ShownHasOneValue(v.node, v.spec);
    }
  }

  /**
   Two values for one identity, of which the Node carries the first, recorded: the reconcile updates the
   taint to the second, reports both as applied, and from then on conflicts with its own write.
   */
  lemma RepeatConflictsWithItself(x: NodeTaint, y: NodeTaint)
    requires WantedId(x) == WantedId(y) && x.value != y.value
    ensures var w := World([ToTaint(x)], [x, y], [x], None);
            var v := Next(w, Reconcile(true));
            && v.node == [ToTaint(y)] && v.record == [x, y]
            && PlanOf(v.node, v.spec, v.record).conflicts == [x]
            && Next(v, Reconcile(true)) == v
  {
    var before, after := [ToTaint(x)], [ToTaint(y)];
    RepeatJudged(x, y);
    RepeatPlanned(x, y);
    FilterOne(ToTaint(x), Kept(PlanOf(before, [x, y], [x])));
  }

  lemma RepeatPlanned(x: NodeTaint, y: NodeTaint)
    requires WantedId(x) == WantedId(y) && x.value != y.value
    ensures PlanOf([ToTaint(x)], [x, y], [x]) == Plan([], [y], [], [x], [])
    ensures PlanOf([ToTaint(y)], [x, y], [x, y]) == Plan([], [], [], [y], [x])
  {
    hide JudgeDesired;
    hide JudgeApplied;
    RepeatJudged(x, y);
    TwoEntries([ToTaint(x)], [x], x, y);
    TwoEntries([ToTaint(y)], [x, y], x, y);
    FilterNone([x], AppliedIn([ToTaint(x)], [x, y], Remove));
    FilterNone([x], AppliedIn([ToTaint(x)], [x, y], Conflict));
    FilterNone([x, y], AppliedIn([ToTaint(y)], [x, y], Remove));
    FilterNone([x, y], AppliedIn([ToTaint(y)], [x, y], Conflict));
  }

  lemma RepeatJudged(x: NodeTaint, y: NodeTaint)
    requires WantedId(x) == WantedId(y) && x.value != y.value
    ensures JudgeDesired([ToTaint(x)], [x], x) == Unchanged && JudgeDesired([ToTaint(x)], [x], y) == Update
    ensures JudgeDesired([ToTaint(y)], [x, y], x) == Conflict && JudgeDesired([ToTaint(y)], [x, y], y) == Unchanged
    ensures forall node, a :: a == x || a == y ==> JudgeApplied(node, [x, y], a) == Skip
  {
    EffectTranslation(EffectStr(x.effect), x.effect);
    EffectTranslation(EffectStr(x.effect), y.effect);
  }

  /** One uninterrupted reconcile equals any number of crashed ones followed by one that lands. */
  lemma {:induction false} CrashesThenSuccess(w: World, crashes: nat)
    requires ValidWorld(w)
    ensures Run(w, seq(crashes, _ => Reconcile(false)) + [Reconcile(true)]) == Next(w, Reconcile(true))
  {
    var steps := seq(crashes, _ => Reconcile(false));
    assert (steps + [Reconcile(true)])[..crashes] == steps;
    CrashedRun(w, crashes);
    if crashes > 0 && PlanOf(w.node, w.spec, w.record).conflicts == [] {
      ReconcileReachesFixpoint(w, false);
    }
  }

  lemma {:induction false} CrashedRun(w: World, crashes: nat)
    requires ValidWorld(w)
    ensures Run(w, seq(crashes, _ => Reconcile(false))) == if crashes == 0 then w else Next(w, Reconcile(false))
  {
    if crashes > 0 {
      hide Next;
      CrashedRun(w, crashes - 1);
      assert seq(crashes, _ => Reconcile(false))[..crashes - 1] == seq(crashes - 1, _ => Reconcile(false));
      CrashAgain(w);
    }
  }

  /** A second crashed reconcile finds nothing left to do. */
  lemma CrashAgain(w: World)
    requires ValidWorld(w)
    ensures Next(Next(w, Reconcile(false)), Reconcile(false)) == Next(w, Reconcile(false))
  {
    hide PlanOf;
    hide Target;
    if PlanOf(w.node, w.spec, w.record).conflicts == [] {
      ReconcileSettles(w);
      var v := Next(w, Reconcile(false));
      SettledMeansNoop(v.node, v.spec, v.record);
    }
  }

  // ---------------------------------------------------------------------------------------------
  // The ownership annotation
  // ---------------------------------------------------------------------------------------------

  /** The Node's annotation lists exactly the identities of the spec. */
  ghost predicate OwnsSpec(w: World) {
    w.owned.Some? && multiset(w.owned.value) == multiset(WantedIds(w.spec))
  }

  /**
   After a reconcile that reports the taints applied, the annotation lists the spec's identities if and
   only if there was something to change or it listed them already: a plan without a change is not sent.
   */
  lemma AnnotationIsCurrentIff(w: World, persisted: bool)
    requires ValidWorld(w) && PlanOf(w.node, w.spec, w.record).conflicts == []
    ensures OwnsSpec(Next(w, Reconcile(persisted))) <==>
            !PlanOf(w.node, w.spec, w.record).IsNoop() || OwnsSpec(w)
  {
    OwnedIsPermutation(w.node, w.spec, w.record);
  }

  /** A taint that somebody else put there first is adopted without ever being listed as owned. */
  lemma AdoptedTaintIsNotListed(x: NodeTaint)
    ensures var w := World([ToTaint(x)], [x], [], None);
            && ValidWorld(w) && PlanOf(w.node, w.spec, w.record).conflicts == []
            && Next(w, Reconcile(true)) == World([ToTaint(x)], [x], [x], None)
  {
    var node := [ToTaint(x)];
    EffectTranslation(EffectStr(x.effect), x.effect);
    assert FindCurrent(node, x.key, x.effect) == Some(ToTaint(x));
    SettledMeansNoop(node, [x], []);
  }

  // ---------------------------------------------------------------------------------------------
  // A crash followed by a spec edit
  // ---------------------------------------------------------------------------------------------

  ghost predicate SameEntries(p: Plan, q: Plan) {
    forall w ::
      && (w in p.toAdd <==> w in q.toAdd)
      && (w in p.toUpdate <==> w in q.toUpdate)
      && (w in p.toRemove <==> w in q.toRemove)
      && (w in p.settled <==> w in q.settled)
      && (w in p.conflicts <==> w in q.conflicts)
  }

  /** Each taint of the interrupted spec is already on record or is kept as it is by the new spec. */
  ghost predicate NothingStranded(old_: seq<NodeTaint>, new_: seq<NodeTaint>, record: seq<NodeTaint>) {
    forall a :: a in old_ ==> a in record || a in new_
  }

  lemma JudgedAlike(w: World, next: seq<NodeTaint>, b: NodeTaint)
    requires ValidWorld(w) && OneValue(next) && Settled(w.node, w.spec, w.record)
    requires b in next
    ensures JudgeDesired(w.node, w.record, b) == JudgeDesired(w.node, w.spec, b) ||
            exists a :: a in w.spec && a !in w.record && a !in next
  {
    var id := WantedId(b);
    FindCurrentIsFindTaint(w.node, b.key, b.effect);
    FindTaintFinds(w.node, id);
    FindWantedFinds(w.spec, id);
    FindWantedFinds(w.record, id);
    FindWantedUnique(next, b);
    match FindWanted(w.spec, id)
    case None =>
    case Some(a) =>
      if a in next {
        FindWantedUnique(next, a);
      } else if a in w.record {
        FindWantedUnique(w.record, a);
      }
  }

  lemma RemovedAlike(w: World, next: seq<NodeTaint>, r: NodeTaint)
    requires ValidWorld(w) && Settled(w.node, w.spec, w.record)
    ensures r in w.spec ==> JudgeApplied(w.node, next, r) == if Names(next, WantedId(r)) then Skip else Remove
    ensures r in w.record ==>
              JudgeApplied(w.node, next, r) ==
              if Names(next, WantedId(r)) || !Names(w.spec, WantedId(r)) then Skip
              else if r in w.spec then Remove else Conflict
  {
    var id := WantedId(r);
    FindCurrentIsFindTaint(w.node, r.key, r.effect);
    FindTaintFinds(w.node, id);
    FindWantedFinds(next, id);
    FindWantedFinds(w.spec, id);
    match FindWanted(w.spec, id)
    case None =>
    case Some(a) =>
      EffectTranslation(EffectStr(a.effect), r.effect);
      EffectTranslation(EffectStr(a.effect), a.effect);
      if r in w.spec {
        FindWantedUnique(w.spec, r);
      }
  }

  /**
   The Node patch landed, the status patch did not, and then the spec changed to `next`. The next
   plan is the one a saved record would have given exactly when nothing is stranded: otherwise a
   taint the controller put on the Node is either never removed or reported as somebody else's.
   */
  lemma CrashThenSpecEdit(w: World, next: seq<NodeTaint>)
    requires ValidWorld(w) && OneValue(next) && Settled(w.node, w.spec, w.record)
    ensures SameEntries(PlanOf(w.node, next, w.record), PlanOf(w.node, next, w.spec)) <==>
            NothingStranded(w.spec, next, w.record)
  {
    var p, q := PlanOf(w.node, next, w.record), PlanOf(w.node, next, w.spec);
    forall x ensures
      && (x in p.toAdd <==> x in next && JudgeDesired(w.node, w.record, x) == Add)
      && (x in q.toAdd <==> x in next && JudgeDesired(w.node, w.spec, x) == Add)
      && (x in p.toUpdate <==> x in next && JudgeDesired(w.node, w.record, x) == Update)
      && (x in q.toUpdate <==> x in next && JudgeDesired(w.node, w.spec, x) == Update)
      && (x in p.settled <==> x in next && JudgeDesired(w.node, w.record, x) == Unchanged)
      && (x in q.settled <==> x in next && JudgeDesired(w.node, w.spec, x) == Unchanged)
      && (x in p.toRemove <==> x in w.record && JudgeApplied(w.node, next, x) == Remove)
      && (x in q.toRemove <==> x in w.spec && JudgeApplied(w.node, next, x) == Remove)
      && (x in p.conflicts <==> (|| (x in next && JudgeDesired(w.node, w.record, x) == Conflict)
                                 || (x in w.record && JudgeApplied(w.node, next, x) == Conflict)))
      && (x in q.conflicts <==> (|| (x in next && JudgeDesired(w.node, w.spec, x) == Conflict)
                                 || (x in w.spec && JudgeApplied(w.node, next, x) == Conflict)))
    {
      PlanMembers(w.node, next, w.record, x);
      PlanMembers(w.node, next, w.spec, x);
    }
    if NothingStranded(w.spec, next, w.record) {
      forall x | x in next ensures JudgeDesired(w.node, w.record, x) == JudgeDesired(w.node, w.spec, x) {
        JudgedAlike(w, next, x);
      }
      forall x | x in w.spec || x in w.record ensures
          && (x in w.record && JudgeApplied(w.node, next, x) == Remove <==>
              x in w.spec && JudgeApplied(w.node, next, x) == Remove)
          && JudgeApplied(w.node, next, x) != Conflict
      {
        RemovedAlike(w, next, x);
        if x in w.record && Names(w.spec, WantedId(x)) && !Names(next, WantedId(x)) {
          StrandedNever(w, next, x);
        }
      }
    } else {
      var a :| a in w.spec && a !in w.record && a !in next;
      RemovedAlike(w, next, a);
      if Names(next, WantedId(a)) {
        StrandedUpdate(w, next, a);
      }
    }
  }

  lemma PlanMembers(current: seq<Taint>, desired: seq<NodeTaint>, applied: seq<NodeTaint>, x: NodeTaint)
    ensures var p := PlanOf(current, desired, applied);
            && (x in p.toAdd <==> x in desired && JudgeDesired(current, applied, x) == Add)
            && (x in p.toUpdate <==> x in desired && JudgeDesired(current, applied, x) == Update)
            && (x in p.settled <==> x in desired && JudgeDesired(current, applied, x) == Unchanged)
            && (x in p.toRemove <==> x in applied && JudgeApplied(current, desired, x) == Remove)
            && (x in p.conflicts <==> (|| (x in desired && JudgeDesired(current, applied, x) == Conflict)
                                       || (x in applied && JudgeApplied(current, desired, x) == Conflict)))
  {
    FilterMember(desired, DesiredIn(current, applied, Add), x);
    FilterMember(desired, DesiredIn(current, applied, Update), x);
    FilterMember(desired, DesiredIn(current, applied, Unchanged), x);
    FilterMember(desired, DesiredIn(current, applied, Conflict), x);
    FilterMember(applied, AppliedIn(current, desired, Remove), x);
    FilterMember(applied, AppliedIn(current, desired, Conflict), x);
  }

  lemma StrandedNever(w: World, next: seq<NodeTaint>, x: NodeTaint)
    requires ValidWorld(w) && NothingStranded(w.spec, next, w.record) && Settled(w.node, w.spec, w.record)
    requires x in w.record && Names(w.spec, WantedId(x)) && !Names(next, WantedId(x))
    ensures x in w.spec
  {
    var a :| a in w.spec && WantedId(a) == WantedId(x);
    assert a in w.record;
    FindWantedUnique(w.record, a);
    FindWantedUnique(w.record, x);
  }

  lemma StrandedUpdate(w: World, next: seq<NodeTaint>, a: NodeTaint)
    requires ValidWorld(w) && OneValue(next) && Settled(w.node, w.spec, w.record)
    requires a in w.spec && a !in w.record && a !in next && Names(next, WantedId(a))
    ensures exists b :: b in next && JudgeDesired(w.node, w.spec, b) == Update
                                  && JudgeDesired(w.node, w.record, b) == Conflict
  {
    var b :| b in next && WantedId(b) == WantedId(a);
    FindCurrentIsFindTaint(w.node, b.key, b.effect);
    FindWantedUnique(w.spec, a);
    FindWantedFinds(w.record, WantedId(a));
    EffectTranslation(EffectStr(a.effect), a.effect);
    EffectTranslation(EffectStr(a.effect), b.effect);
    match FindWanted(w.record, WantedId(a)) {
      case None =>
      case Some(r) => EffectTranslation(EffectStr(a.effect), r.effect);
    }
    assert JudgeDesired(w.node, w.spec, b) == Update && JudgeDesired(w.node, w.record, b) == Conflict;
  }

  /** A spec of one entry fills one bucket. */
  lemma LoneEntry(current: seq<Taint>, applied: seq<NodeTaint>, x: NodeTaint, v: Verdict)
    requires JudgeDesired(current, applied, x) == v
    ensures Filter([x], DesiredIn(current, applied, Add)) == if v == Add then [x] else []
    ensures Filter([x], DesiredIn(current, applied, Update)) == if v == Update then [x] else []
    ensures Filter([x], DesiredIn(current, applied, Unchanged)) == if v == Unchanged then [x] else []
    ensures Filter([x], DesiredIn(current, applied, Conflict)) == if v == Conflict then [x] else []
  {
    hide JudgeDesired;
    FilterOne(x, DesiredIn(current, applied, Add));
    FilterOne(x, DesiredIn(current, applied, Update));
    FilterOne(x, DesiredIn(current, applied, Unchanged));
    FilterOne(x, DesiredIn(current, applied, Conflict));
  }

  lemma FirstTaintPlanned(x: NodeTaint)
    ensures PlanOf([], [x], []) == Plan([x], [], [], [], [])
  {
    assert JudgeDesired([], [], x) == Add;
    hide JudgeDesired;
    LoneEntry([], [], x, Add);
  }

  lemma FirstTaintApplied(x: NodeTaint)
    ensures PlanOf([], [x], []) == Plan([x], [], [], [], []) && Target([], PlanOf([], [x], [])) == [ToTaint(x)]
    ensures Owned(PlanOf([], [x], [])) == [WantedId(x)]
  {
    hide PlanOf;
    FirstTaintPlanned(x);
  }

  lemma ThreeSteps(w: World, s0: Step, s1: Step, s2: Step)
    ensures Run(w, [s0, s1, s2]) == Next(Next(Next(w, s0), s1), s2)
  {
    var steps := [s0, s1, s2];
    assert steps[..2][..1] == [s0] && steps[..2][..1][..0] == [];
    assert Run(w, steps[..2][..1]) == Next(w, s0);
  }

  /** The smallest such run: the taint stays on the Node for good and no record names it. */
  lemma OrphanedTaint(x: NodeTaint)
    ensures var w := World([], [x], [], None);
            && ValidWorld(w)
            && Run(w, [Reconcile(false), SpecEdit([]), Reconcile(true)])
               == World([ToTaint(x)], [], [], Some([WantedId(x)]))
  {
    hide PlanOf;
    hide Target;
    FirstTaintApplied(x);
    SettledMeansNoop([ToTaint(x)], [], []);
    ThreeSteps(World([], [x], [], None), Reconcile(false), SpecEdit([]), Reconcile(true));
  }

  // ---------------------------------------------------------------------------------------------
  // The second GET
  // ---------------------------------------------------------------------------------------------

  /** Every value that the patch takes off the second list is the recorded one. */
  ghost predicate OnlyRecordedLost(second: seq<Taint>, plan: Plan, applied: seq<NodeTaint>) {
    forall t :: t in second && NodeSlot(Target(second, plan), IdOf(t)) != Present(t.value) ==>
      WantedSlot(applied, IdOf(t)) == Present(t.value)
  }

  /** An identity due for removal or update shows the same slot as before, is gone, or has the new value. */
  ghost predicate UnchangedAt(first: seq<Taint>, second: seq<Taint>, plan: Plan, w: NodeTaint) {
    var now := NodeSlot(second, WantedId(w));
    || now == Absent
    || now == NodeSlot(first, WantedId(w))
    || (w in plan.toUpdate && now == Present(w.value))
  }

  /**
   A taint that the second GET shows loses its value to the patch without being recorded exactly
   when an identity due for removal or update was changed by somebody else between the two GETs.
   */
  lemma RaceOverwritesIff(first: seq<Taint>, second: seq<Taint>, desired: seq<NodeTaint>, applied: seq<NodeTaint>)
    requires WellFormed(first, desired, applied) && UniqueTaints(second)
    ensures var plan := PlanOf(first, desired, applied);
            OnlyRecordedLost(second, plan, applied) <==>
            forall w :: w in plan.toRemove || w in plan.toUpdate ==> UnchangedAt(first, second, plan, w)
  {
    hide PlanOf;
    hide UnchangedAt;
    var plan := PlanOf(first, desired, applied);
    if OnlyRecordedLost(second, plan, applied) {
      forall w | w in plan.toRemove || w in plan.toUpdate ensures UnchangedAt(first, second, plan, w) {
        KeptIsUnchanged(first, second, desired, applied, w);
      }
    }
    if forall w :: w in plan.toRemove || w in plan.toUpdate ==> UnchangedAt(first, second, plan, w) {
      forall t | t in second && NodeSlot(Target(second, plan), IdOf(t)) != Present(t.value)
        ensures WantedSlot(applied, IdOf(t)) == Present(t.value)
      {
        LostWasRecorded(first, second, desired, applied, t);
      }
    }
  }

  lemma KeptIsUnchanged(first: seq<Taint>, second: seq<Taint>, desired: seq<NodeTaint>, applied: seq<NodeTaint>,
                        w: NodeTaint)
    requires WellFormed(first, desired, applied) && UniqueTaints(second)
    requires OnlyRecordedLost(second, PlanOf(first, desired, applied), applied)
    requires var plan := PlanOf(first, desired, applied); w in plan.toRemove || w in plan.toUpdate
    ensures UnchangedAt(first, second, PlanOf(first, desired, applied), w)
  {
    hide PlanOf;
    hide Target;
    var id := WantedId(w);
    ChangedSlot(first, desired, applied, w);
    FindTaintFinds(second, id);
    if NodeSlot(second, id) != Absent {
      var t := FindTaint(second, id).value;
      RebuiltSlot(first, second, desired, applied, t);
    }
  }

  lemma LostWasRecorded(first: seq<Taint>, second: seq<Taint>, desired: seq<NodeTaint>, applied: seq<NodeTaint>,
                        t: Taint)
    requires WellFormed(first, desired, applied) && UniqueTaints(second) && t in second
    requires var plan := PlanOf(first, desired, applied);
             && NodeSlot(Target(second, plan), IdOf(t)) != Present(t.value)
             && forall w :: w in plan.toRemove || w in plan.toUpdate ==> UnchangedAt(first, second, plan, w)
    ensures WantedSlot(applied, IdOf(t)) == Present(t.value)
  {
    hide PlanOf;
    hide Target;
    var plan, id := PlanOf(first, desired, applied), IdOf(t);
    RebuiltSlot(first, second, desired, applied, t);
    FindWantedFinds(plan.toRemove, id);
    FindWantedFinds(plan.toUpdate, id);
    var w := if FindWanted(plan.toRemove, id).Some? then FindWanted(plan.toRemove, id).value
             else FindWanted(plan.toUpdate, id).value;
    ChangedSlot(first, desired, applied, w);
    assert UnchangedAt(first, second, plan, w);
  }

  /** The spec's taint appears on the Node between the GETs: the patch names its identity twice. */
  lemma DuplicatingRace(x: NodeTaint)
    ensures var plan := PlanOf([], [x], []);
            Target([ToTaint(x)], plan) == [ToTaint(x), ToTaint(x)] && !UniqueTaints(Target([ToTaint(x)], plan))
  {
    FirstTaintApplied(x);
    var second, plan := [ToTaint(x)], PlanOf([], [x], []);
    FilterOne(ToTaint(x), Kept(plan));
    var target := Target(second, plan);
    assert target == [ToTaint(x), ToTaint(x)];
    assert IdOf(target[0]) == IdOf(target[1]);
  }

  /**
   The value of an owned taint changes between the GETs, from the recorded one to one nobody recorded:
   the patch overwrites it.
   */
  lemma OverwritingRace(a: NodeTaint, b: NodeTaint, c: NodeTaint)
    requires WantedId(a) == WantedId(b) == WantedId(c) && a.value != b.value && c.value != a.value && c.value != b.value
    ensures var plan := PlanOf([ToTaint(a)], [b], [a]);
            plan.conflicts == [] && Target([ToTaint(c)], plan) == [ToTaint(b)]
    ensures WantedSlot([a], WantedId(c)) != Present(c.value)
  {
    hide PlanOf;
    OwnedValueUpdate(a, b);
    var plan := PlanOf([ToTaint(a)], [b], [a]);
    FilterOne(ToTaint(c), Kept(plan));
  }

  /** A new value for a taint the controller put there is an update and nothing else. */
  lemma OwnedValueUpdate(a: NodeTaint, b: NodeTaint)
    requires WantedId(a) == WantedId(b) && a.value != b.value
    ensures PlanOf([ToTaint(a)], [b], [a]) == Plan([], [b], [], [], [])
  {
    hide JudgeDesired;
    hide JudgeApplied;
    var current := [ToTaint(a)];
    OwnedValueJudged(a, b);
    LoneEntry(current, [a], b, Update);
    FilterOne(a, AppliedIn(current, [b], Remove));
    FilterOne(a, AppliedIn(current, [b], Conflict));
  }

  lemma OwnedValueJudged(a: NodeTaint, b: NodeTaint)
    requires WantedId(a) == WantedId(b) && a.value != b.value
    ensures JudgeDesired([ToTaint(a)], [a], b) == Update && JudgeApplied([ToTaint(a)], [b], a) == Skip
  {
    EffectTranslation(EffectStr(a.effect), b.effect);
    assert FindCurrent([ToTaint(a)], b.key, b.effect) == Some(ToTaint(a));
  }

  lemma RebuiltSlot(first: seq<Taint>, second: seq<Taint>, desired: seq<NodeTaint>, applied: seq<NodeTaint>, t: Taint)
    requires WellFormed(first, desired, applied) && UniqueTaints(second) && t in second
    ensures var plan := PlanOf(first, desired, applied);
            && NodeSlot(second, IdOf(t)) == Present(t.value)
            && NodeSlot(Target(second, plan), IdOf(t)) ==
               if FindWanted(plan.toRemove, IdOf(t)).Some? then Absent
               else if FindWanted(plan.toUpdate, IdOf(t)).Some? then WantedSlot(plan.toUpdate, IdOf(t))
               else Present(t.value)
  {
    var plan, id := PlanOf(first, desired, applied), IdOf(t);
    FindTaintUnique(second, t);
    PlanAt(first, desired, applied, id);
    FindTaintConcat(RewriteAll(plan, Filter(second, Kept(plan))), ToTaints(plan.toAdd), id);
    FindTaintRewrite(plan, Filter(second, Kept(plan)), id);
    FindTaintFilter(second, Kept(plan), id);
    FindTaintAdded(plan.toAdd, id);
  }

  lemma ChangedSlot(first: seq<Taint>, desired: seq<NodeTaint>, applied: seq<NodeTaint>, w: NodeTaint)
    requires WellFormed(first, desired, applied)
    requires var plan := PlanOf(first, desired, applied); w in plan.toRemove || w in plan.toUpdate
    ensures var plan := PlanOf(first, desired, applied);
            && NodeSlot(first, WantedId(w)) == WantedSlot(applied, WantedId(w)) != Absent
            && (w in plan.toRemove ==> FindWanted(plan.toRemove, WantedId(w)) == Some(w))
            && (w in plan.toUpdate ==> FindWanted(plan.toUpdate, WantedId(w)) == Some(w))
            && (w in plan.toUpdate ==> FindWanted(plan.toRemove, WantedId(w)) == None)
            && (w in plan.toRemove ==> w !in plan.toUpdate)
  {
    var plan, id := PlanOf(first, desired, applied), WantedId(w);
    PlanAt(first, desired, applied, id);
    BucketsHaveOneValue(first, desired, applied);
    hide PlanOf;
    hide FindWanted;
    hide OneValue;
    if w in plan.toRemove {
      FindWantedUnique(plan.toRemove, w);
    }
    if w in plan.toUpdate {
      FindWantedUnique(plan.toUpdate, w);
    }
  }

  lemma BucketsHaveOneValue(first: seq<Taint>, desired: seq<NodeTaint>, applied: seq<NodeTaint>)
    requires OneValue(desired) && OneValue(applied)
    ensures OneValue(PlanOf(first, desired, applied).toUpdate) && OneValue(PlanOf(first, desired, applied).toRemove)
  {
    FilterMembers(desired, DesiredIn(first, applied, Update));
    FilterMembers(applied, AppliedIn(first, desired, Remove));
  }
}
