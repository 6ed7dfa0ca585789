/**
 What one conflict-free taint reconcile means: the plan and the rebuild together are a three-way
 merge of the Node, the spec and the record, identity by identity, that disturbs nothing else.
 */
module TaintMerge {
  import opened Wrappers
  import opened Seqs
  import opened NodeTaints

  // ---------------------------------------------------------------------------------------------
  // The reference merge, for one identity at a time
  // ---------------------------------------------------------------------------------------------

  /** What one of the three lists says about one identity. */
  datatype Slot = Absent | Present(value: Option<string>)

  datatype Merged = Settle(slot: Slot) | Clash

  /** The spec wins over what the controller wrote itself, and over nothing else. */
  function MergeSlot(current: Slot, wanted: Slot, recorded: Slot): Merged {
    if wanted.Present? then
      if current.Absent? || current == wanted || current == recorded then Settle(wanted) else Clash
    else if recorded.Absent? || current.Absent? then
      Settle(current)
    else if current == recorded then
      Settle(Absent)
    else
      Clash
  }

  function FindTaint(ts: seq<Taint>, id: TaintId): Option<Taint> {
    if |ts| == 0 then None
    else if IdOf(ts[0]) == id then Some(ts[0])
    else FindTaint(ts[1..], id)
  }

  function NodeSlot(ts: seq<Taint>, id: TaintId): Slot {
    match FindTaint(ts, id)
    case Some(t) => Present(t.value)
    case None => Absent
  }

  function WantedSlot(ws: seq<NodeTaint>, id: TaintId): Slot {
    match FindWanted(ws, id)
    case Some(w) => Present(w.value)
    case None => Absent
  }

  /** The reference merge of the three lists at one identity. */
  function MergedAt(current: seq<Taint>, desired: seq<NodeTaint>, applied: seq<NodeTaint>, id: TaintId): Merged {
    MergeSlot(NodeSlot(current, id), WantedSlot(desired, id), WantedSlot(applied, id))
  }

  /** No identity is given two values; the same entry may stand there twice. */
  ghost predicate OneValue(ws: seq<NodeTaint>) {
    forall v, w :: v in ws && w in ws && WantedId(v) == WantedId(w) ==> v == w
  }

  lemma UniqueHasOneValue(ws: seq<NodeTaint>)
    requires UniqueWanted(ws)
    ensures OneValue(ws)
  {
  }

  /** (key, effect) is unique on the Node, and stands for one entry in each of the other two lists. */
  ghost predicate WellFormed(current: seq<Taint>, desired: seq<NodeTaint>, applied: seq<NodeTaint>) {
    UniqueTaints(current) && OneValue(desired) && OneValue(applied)
  }

  // ---------------------------------------------------------------------------------------------
  // Look-ups through filtering, rewriting and concatenation
  // ---------------------------------------------------------------------------------------------

  lemma {:induction false} FindTaintFinds(ts: seq<Taint>, id: TaintId)
    ensures match FindTaint(ts, id)
            case Some(t) => t in ts && IdOf(t) == id
            case None => !Carries(ts, id)
  {
    if |ts| > 0 {
      FindTaintFinds(ts[1..], id);
      assert ts == [ts[0]] + ts[1..];
    }
  }

  lemma {:induction false} FindCurrentIsFindTaint(current: seq<Taint>, key: string, effect: TaintEffect)
    ensures FindCurrent(current, key, effect) == FindTaint(current, TaintId(key, EffectStr(effect)))
  {
    if |current| > 0 {
      EffectTranslation(current[0].effect, effect);
      FindCurrentIsFindTaint(current[1..], key, effect);
    }
  }

  lemma FindTaintUnique(ts: seq<Taint>, t: Taint)
    requires UniqueTaints(ts) && t in ts
    ensures FindTaint(ts, IdOf(t)) == Some(t)
  {
    FindTaintFinds(ts, IdOf(t));
    var found := FindTaint(ts, IdOf(t)).value;
    var i :| 0 <= i < |ts| && ts[i] == t;
    var j :| 0 <= j < |ts| && ts[j] == found;
  }

  lemma FindWantedUnique(ws: seq<NodeTaint>, w: NodeTaint)
    requires OneValue(ws) && w in ws
    ensures FindWanted(ws, WantedId(w)) == Some(w)
  {
    FindWantedFinds(ws, WantedId(w));
  }

  lemma FindWantedFilter(ws: seq<NodeTaint>, p: NodeTaint -> bool, id: TaintId)
    requires OneValue(ws)
    ensures FindWanted(Filter(ws, p), id) ==
            match FindWanted(ws, id) case Some(w) => (if p(w) then Some(w) else None) case None => None
  {
    FindWantedFinds(Filter(ws, p), id);
    FindWantedFinds(ws, id);
    FilterMembers(ws, p);
    match FindWanted(Filter(ws, p), id)
    case Some(w) => FindWantedUnique(ws, w);
    case None =>
  }

  lemma FindTaintFilter(ts: seq<Taint>, p: Taint -> bool, id: TaintId)
    requires UniqueTaints(ts)
    ensures FindTaint(Filter(ts, p), id) ==
            match FindTaint(ts, id) case Some(t) => (if p(t) then Some(t) else None) case None => None
  {
    FindTaintFinds(Filter(ts, p), id);
    FindTaintFinds(ts, id);
    FilterMembers(ts, p);
    match FindTaint(Filter(ts, p), id)
    case Some(t) => FindTaintUnique(ts, t);
    case None =>
  }

  lemma RewriteKeepsId(plan: Plan, t: Taint)
    ensures IdOf(Rewrite(plan, t)) == IdOf(t)
  {
    FindWantedFinds(plan.toUpdate, IdOf(t));
  }

  lemma {:induction false} FindTaintRewrite(plan: Plan, ts: seq<Taint>, id: TaintId)
    ensures FindTaint(RewriteAll(plan, ts), id) ==
            match FindTaint(ts, id) case Some(t) => Some(Rewrite(plan, t)) case None => None
  {
    if |ts| > 0 {
      RewriteKeepsId(plan, ts[0]);
      FindTaintRewrite(plan, ts[1..], id);
      assert RewriteAll(plan, ts)[1..] == RewriteAll(plan, ts[1..]);
    }
  }

  lemma {:induction false} FindTaintAdded(ws: seq<NodeTaint>, id: TaintId)
    ensures FindTaint(ToTaints(ws), id) ==
            match FindWanted(ws, id) case Some(w) => Some(ToTaint(w)) case None => None
  {
    if |ws| > 0 {
      FindTaintAdded(ws[1..], id);
      assert ToTaints(ws)[1..] == ToTaints(ws[1..]);
    }
  }

  lemma {:induction false} FindTaintConcat(ts: seq<Taint>, us: seq<Taint>, id: TaintId)
    ensures FindTaint(ts + us, id) == if FindTaint(ts, id).Some? then FindTaint(ts, id) else FindTaint(us, id)
  {
    if |ts| == 0 {
      assert ts + us == us;
    } else {
      FindTaintConcat(ts[1..], us, id);
      assert (ts + us)[1..] == ts[1..] + us;
    }
  }

  lemma {:induction false} FilterUnique(ts: seq<Taint>, p: Taint -> bool)
    requires UniqueTaints(ts)
    ensures UniqueTaints(Filter(ts, p))
    decreases |ts|
  {
    if |ts| > 0 {
      var init, t := ts[..|ts| - 1], ts[|ts| - 1];
      FilterUnique(init, p);
      forall u | u in Filter(init, p) ensures IdOf(u) != IdOf(t) {
        FilterMember(init, p, u);
        var i :| 0 <= i < |init| && init[i] == u;
        assert ts[i] == u;
      }
    }
  }

  /** No two members of the list that pass the test share an identity. */
  ghost predicate PassersDiffer(ws: seq<NodeTaint>, p: NodeTaint -> bool) {
    forall i, j :: 0 <= i < j < |ws| && p(ws[i]) && p(ws[j]) ==> WantedId(ws[i]) != WantedId(ws[j])
  }

  lemma PassersSnoc(init: seq<NodeTaint>, w: NodeTaint, ws: seq<NodeTaint>, p: NodeTaint -> bool)
    requires ws == init + [w]
    ensures PassersDiffer(ws, p) <==>
            && PassersDiffer(init, p)
            && (p(w) ==> forall u :: u in init && p(u) ==> WantedId(u) != WantedId(w))
  {
    assert forall i :: 0 <= i < |init| ==> ws[i] == init[i];
    assert ws[|init|] == w;
    if PassersDiffer(ws, p) && p(w) {
      forall u | u in init && p(u) ensures WantedId(u) != WantedId(w) {
        var i :| 0 <= i < |init| && init[i] == u;
        assert p(ws[i]) && p(ws[|init|]);
      }
    }
  }

  lemma {:induction false} FilterUniqueWantedIff(ws: seq<NodeTaint>, p: NodeTaint -> bool)
    ensures UniqueWanted(Filter(ws, p)) <==> PassersDiffer(ws, p)
    decreases |ws|
  {
    if |ws| > 0 {
      hide PassersDiffer;
      hide UniqueWanted;
      hide WantedId;
      var init, w := ws[..|ws| - 1], ws[|ws| - 1];
      assert ws == init + [w];
      FilterUniqueWantedIff(init, p);
      UniqueSnoc(Filter(init, p), w);
      PassersSnoc(init, w, ws, p);
      FilterMembers(init, p);
    }
  }

  lemma UniqueSnoc(ws: seq<NodeTaint>, w: NodeTaint)
    ensures UniqueWanted(ws + [w]) <==> UniqueWanted(ws) && forall u :: u in ws ==> WantedId(u) != WantedId(w)
  {
    var more := ws + [w];
    assert forall i :: 0 <= i < |ws| ==> more[i] == ws[i];
    assert more[|ws|] == w;
    if UniqueWanted(more) {
      forall u | u in ws ensures WantedId(u) != WantedId(w) {
        var i :| 0 <= i < |ws| && ws[i] == u;
        assert WantedId(more[i]) != WantedId(more[|ws|]);
      }
    }
  }

  // ---------------------------------------------------------------------------------------------
  // The merge theorem
  // ---------------------------------------------------------------------------------------------

  /** Which bucket of the plan names an identity, read off the three slots. */
  lemma PlanAt(current: seq<Taint>, desired: seq<NodeTaint>, applied: seq<NodeTaint>, id: TaintId)
    requires WellFormed(current, desired, applied)
    ensures var plan := PlanOf(current, desired, applied);
            var c, w, r := NodeSlot(current, id), WantedSlot(desired, id), WantedSlot(applied, id);
            && FindWanted(plan.toAdd, id) == (if w.Present? && c.Absent? then FindWanted(desired, id) else None)
            && FindWanted(plan.toUpdate, id) ==
               (if w.Present? && c.Present? && c != w && c == r then FindWanted(desired, id) else None)
            && FindWanted(plan.toRemove, id) ==
               (if w.Absent? && c.Present? && c == r then FindWanted(applied, id) else None)
            && (Names(plan.conflicts, id) <==> MergedAt(current, desired, applied, id) == Clash)
  {
    FindWantedFilter(desired, DesiredIn(current, applied, Add), id);
    FindWantedFilter(desired, DesiredIn(current, applied, Update), id);
    FindWantedFilter(desired, DesiredIn(current, applied, Conflict), id);
    FindWantedFilter(applied, AppliedIn(current, desired, Remove), id);
    FindWantedFilter(applied, AppliedIn(current, desired, Conflict), id);
    FindWantedFinds(Filter(desired, DesiredIn(current, applied, Conflict)), id);
    FindWantedFinds(Filter(applied, AppliedIn(current, desired, Conflict)), id);
    FindWantedFinds(desired, id);
    FindWantedFinds(applied, id);
    match FindWanted(desired, id) {
      case Some(w) => FindCurrentIsFindTaint(current, w.key, w.effect);
      case None =>
    }
    match FindWanted(applied, id) {
      case Some(r) => FindCurrentIsFindTaint(current, r.key, r.effect);
      case None =>
    }
  }

  lemma TargetAt(current: seq<Taint>, desired: seq<NodeTaint>, applied: seq<NodeTaint>, id: TaintId)
    requires WellFormed(current, desired, applied)
    ensures var merged := MergedAt(current, desired, applied, id);
            merged.Settle? ==> NodeSlot(Target(current, PlanOf(current, desired, applied)), id) == merged.slot
  {
    var plan := PlanOf(current, desired, applied);
    PlanAt(current, desired, applied, id);
    FindTaintConcat(RewriteAll(plan, Filter(current, Kept(plan))), ToTaints(plan.toAdd), id);
    FindTaintRewrite(plan, Filter(current, Kept(plan)), id);
    FindTaintFilter(current, Kept(plan), id);
    FindTaintFinds(current, id);
    FindTaintAdded(plan.toAdd, id);
  }

  /**
   The list algorithm is the reference merge: it reports a conflict exactly when some identity
   clashes, and otherwise every identity, known effect or not, ends in its merged slot.
   */
  lemma MergeMatchesReference(current: seq<Taint>, desired: seq<NodeTaint>, applied: seq<NodeTaint>)
    requires WellFormed(current, desired, applied)
    ensures var plan := PlanOf(current, desired, applied);
            && (plan.conflicts == [] <==> forall id :: MergedAt(current, desired, applied, id).Settle?)
            && (plan.conflicts == [] ==>
                forall id :: Settle(NodeSlot(Target(current, plan), id)) == MergedAt(current, desired, applied, id))
  {
    var plan := PlanOf(current, desired, applied);
    if plan.conflicts == [] {
      forall id ensures Settle(NodeSlot(Target(current, plan), id)) == MergedAt(current, desired, applied, id) {
        PlanAt(current, desired, applied, id);
        TargetAt(current, desired, applied, id);
      }
    } else {
      var w := plan.conflicts[0];
      assert w in plan.conflicts;
      PlanAt(current, desired, applied, WantedId(w));
      assert MergedAt(current, desired, applied, WantedId(w)) == Clash;
    }
  }

  // ---------------------------------------------------------------------------------------------
  // When the rebuilt list names an identity twice
  // ---------------------------------------------------------------------------------------------

  /** Every identity that the spec names twice is on the Node already. */
  ghost predicate RepeatsCarried(current: seq<Taint>, desired: seq<NodeTaint>) {
    forall i, j :: 0 <= i < j < |desired| && WantedId(desired[i]) == WantedId(desired[j]) ==>
      Carries(current, WantedId(desired[i]))
  }

  lemma AddsUniqueIff(current: seq<Taint>, desired: seq<NodeTaint>, applied: seq<NodeTaint>)
    ensures UniqueWanted(PlanOf(current, desired, applied).toAdd) <==> RepeatsCarried(current, desired)
  {
    var p := DesiredIn(current, applied, Add);
    FilterUniqueWantedIff(desired, p);
    forall w ensures p(w) <==> !Carries(current, WantedId(w)) {
      FindCurrentFinds(current, w.key, w.effect);
    }
    if UniqueWanted(Filter(desired, p)) {
      forall i, j | 0 <= i < j < |desired| && WantedId(desired[i]) == WantedId(desired[j])
        ensures Carries(current, WantedId(desired[i]))
      {
        assert p(desired[i]) <==> p(desired[j]);
      }
    }
  }

  /** What the plan removes the spec does not name. */
  lemma RemovedIsUnnamed(current: seq<Taint>, desired: seq<NodeTaint>, applied: seq<NodeTaint>, d: NodeTaint)
    requires d in desired
    ensures FindWanted(PlanOf(current, desired, applied).toRemove, WantedId(d)).None?
  {
    var plan := PlanOf(current, desired, applied);
    FindWantedFinds(plan.toRemove, WantedId(d));
    FindWantedFinds(desired, WantedId(d));
    FilterMembers(applied, AppliedIn(current, desired, Remove));
  }

  lemma HalvesUniqueIff(front: seq<Taint>, back: seq<Taint>)
    requires UniqueTaints(front)
    ensures UniqueTaints(front + back) <==>
            && UniqueTaints(back)
            && forall t, u :: t in front && u in back ==> IdOf(t) != IdOf(u)
  {
    var all := front + back;
    assert forall i :: 0 <= i < |front| ==> all[i] == front[i];
    assert forall j :: 0 <= j < |back| ==> all[|front| + j] == back[j];
    if UniqueTaints(all) {
      forall t, u | t in front && u in back ensures IdOf(t) != IdOf(u) {
        var i :| 0 <= i < |front| && front[i] == t;
        var j :| 0 <= j < |back| && back[j] == u;
        assert IdOf(all[i]) != IdOf(all[|front| + j]);
      }
      forall i, j | 0 <= i < j < |back| ensures IdOf(back[i]) != IdOf(back[j]) {
        assert IdOf(all[|front| + i]) != IdOf(all[|front| + j]);
      }
    }
    if UniqueTaints(back) && (forall t, u :: t in front && u in back ==> IdOf(t) != IdOf(u)) {
      forall i, j | 0 <= i < j < |all| ensures IdOf(all[i]) != IdOf(all[j]) {
        if i < |front| <= j {
          assert front[i] in front && back[j - |front|] in back;
        }
      }
    }
  }

  /** Rewriting keeps the identities of a list, in their order. */
  lemma RewrittenIds(plan: Plan, kept: seq<Taint>)
    ensures forall i :: 0 <= i < |kept| ==> IdOf(RewriteAll(plan, kept)[i]) == IdOf(kept[i])
    ensures UniqueTaints(kept) ==> UniqueTaints(RewriteAll(plan, kept))
    ensures forall id :: Carries(RewriteAll(plan, kept), id) <==> Carries(kept, id)
  {
    var front := RewriteAll(plan, kept);
    forall i | 0 <= i < |kept| ensures IdOf(front[i]) == IdOf(kept[i]) {
      RewriteKeepsId(plan, kept[i]);
    }
    forall id ensures Carries(front, id) <==> Carries(kept, id) {
      if Carries(front, id) {
        var i :| 0 <= i < |front| && IdOf(front[i]) == id;
        assert kept[i] in kept;
      }
      if Carries(kept, id) {
        var i :| 0 <= i < |kept| && IdOf(kept[i]) == id;
        assert front[i] in front;
      }
    }
  }

  lemma ToTaintsIds(ws: seq<NodeTaint>)
    ensures UniqueTaints(ToTaints(ws)) <==> UniqueWanted(ws)
    ensures forall id :: Carries(ToTaints(ws), id) <==> Names(ws, id)
  {
    var ts := ToTaints(ws);
    assert forall i :: 0 <= i < |ws| ==> IdOf(ts[i]) == WantedId(ws[i]);
    forall id ensures Carries(ts, id) <==> Names(ws, id) {
      if Names(ws, id) {
        var i :| 0 <= i < |ws| && WantedId(ws[i]) == id;
        assert ts[i] in ts;
      }
      if Carries(ts, id) {
        var i :| 0 <= i < |ts| && IdOf(ts[i]) == id;
        assert ws[i] in ws;
      }
    }
  }

  /**
   The plan is made from one GET and the list rebuilt from a second. The patch then names an identity
   twice exactly when an identity it adds has appeared on the Node in between, or the spec repeats one that
   the first list does not carry.
   */
  lemma RaceDuplicatesIff(first: seq<Taint>, second: seq<Taint>, desired: seq<NodeTaint>, applied: seq<NodeTaint>)
    requires UniqueTaints(second)
    ensures var plan := PlanOf(first, desired, applied);
            UniqueTaints(Target(second, plan)) <==>
            RepeatsCarried(first, desired) && forall w :: w in plan.toAdd ==> !Carries(second, WantedId(w))
  {
    var plan := PlanOf(first, desired, applied);
    var kept := Filter(second, Kept(plan));
    var front, back := RewriteAll(plan, kept), ToTaints(plan.toAdd);
    FilterUnique(second, Kept(plan));
    FilterMembers(second, Kept(plan));
    FilterMembers(desired, DesiredIn(first, applied, Add));
    RewrittenIds(plan, kept);
    ToTaintsIds(plan.toAdd);
    AddsUniqueIff(first, desired, applied);
    HalvesUniqueIff(front, back);
    forall w | w in plan.toAdd ensures Carries(front, WantedId(w)) <==> Carries(second, WantedId(w)) {
      RemovedIsUnnamed(first, desired, applied, w);
      if Carries(second, WantedId(w)) {
        var t :| t in second && IdOf(t) == WantedId(w);
        assert t in kept;
      }
    }
    if t, u :| t in front && u in back && IdOf(t) == IdOf(u) {
      assert Carries(front, IdOf(u)) && Names(plan.toAdd, IdOf(u));
    }
    if w :| w in plan.toAdd && Carries(second, WantedId(w)) {
      var t :| t in front && IdOf(t) == WantedId(w);
      assert Names(plan.toAdd, WantedId(w)) && Carries(back, WantedId(w));
    }
  }

  /**
   For any spec and any record: the rebuilt list names an identity twice if and only if the spec names
   twice an identity that the Node does not carry.
   */
  lemma TargetUnique(current: seq<Taint>, desired: seq<NodeTaint>, applied: seq<NodeTaint>)
    requires UniqueTaints(current)
    ensures UniqueTaints(Target(current, PlanOf(current, desired, applied))) <==> RepeatsCarried(current, desired)
  {
    RaceDuplicatesIff(current, current, desired, applied);
    FilterMembers(desired, DesiredIn(current, applied, Add));
    forall w | w in PlanOf(current, desired, applied).toAdd ensures !Carries(current, WantedId(w)) {
      FindCurrentFinds(current, w.key, w.effect);
    }
  }

  lemma UniqueRepeatsNothing(current: seq<Taint>, desired: seq<NodeTaint>)
    requires UniqueWanted(desired)
    ensures RepeatsCarried(current, desired)
  {
  }

  // ---------------------------------------------------------------------------------------------
  // Everything else stays, in its order
  // ---------------------------------------------------------------------------------------------

  ghost function Foreign(ids: set<TaintId>): Taint -> bool {
    t => IdOf(t) !in ids
  }

  ghost predicate Covers(ids: set<TaintId>, ws: seq<NodeTaint>) {
    forall w :: w in ws ==> WantedId(w) in ids
  }

  lemma {:induction false} RebuildKeepsForeign(ts: seq<Taint>, plan: Plan, ids: set<TaintId>)
    requires Covers(ids, plan.toRemove) && Covers(ids, plan.toUpdate)
    ensures Filter(RewriteAll(plan, Filter(ts, Kept(plan))), Foreign(ids)) == Filter(ts, Foreign(ids))
    decreases |ts|
  {
    if |ts| > 0 {
      var init, t := ts[..|ts| - 1], ts[|ts| - 1];
      RebuildKeepsForeign(init, plan, ids);
      FindWantedFinds(plan.toRemove, IdOf(t));
      FindWantedFinds(plan.toUpdate, IdOf(t));
      RewriteKeepsId(plan, t);
      if Kept(plan)(t) {
        var kept := Filter(init, Kept(plan));
        assert RewriteAll(plan, kept + [t]) == RewriteAll(plan, kept) + [Rewrite(plan, t)];
        FilterSnoc(RewriteAll(plan, kept), Rewrite(plan, t), Foreign(ids));
      }
    }
  }

  /** The taints that neither the spec nor the record names survive as the same sub-list. */
  lemma MergeKeepsForeign(current: seq<Taint>, desired: seq<NodeTaint>, applied: seq<NodeTaint>, ids: set<TaintId>)
    requires Covers(ids, desired) && Covers(ids, applied)
    ensures Filter(Target(current, PlanOf(current, desired, applied)), Foreign(ids)) == Filter(current, Foreign(ids))
  {
    var plan := PlanOf(current, desired, applied);
    FilterMembers(applied, AppliedIn(current, desired, Remove));
    FilterMembers(desired, DesiredIn(current, applied, Update));
    FilterMembers(desired, DesiredIn(current, applied, Add));
    RebuildKeepsForeign(current, plan, ids);
    FilterConcat(RewriteAll(plan, Filter(current, Kept(plan))), ToTaints(plan.toAdd), Foreign(ids));
    forall t | t in ToTaints(plan.toAdd) ensures IdOf(t) in ids {
      var i :| 0 <= i < |plan.toAdd| && t == ToTaint(plan.toAdd[i]);
      assert plan.toAdd[i] in plan.toAdd;
    }
    FilterNone(ToTaints(plan.toAdd), Foreign(ids));
  }

  /** A taint that the spec wants and the Node already shows keeps its whole entry. */
  lemma SettledEntriesStay(current: seq<Taint>, desired: seq<NodeTaint>, applied: seq<NodeTaint>, t: Taint)
    requires WellFormed(current, desired, applied) && t in current
    requires WantedSlot(desired, IdOf(t)) == Present(t.value)
    ensures t in Target(current, PlanOf(current, desired, applied))
  {
    var plan := PlanOf(current, desired, applied);
    FindTaintUnique(current, t);
    PlanAt(current, desired, applied, IdOf(t));
    FilterMembers(current, Kept(plan));
    var kept := Filter(current, Kept(plan));
    var i :| 0 <= i < |kept| && kept[i] == t;
    assert RewriteAll(plan, kept)[i] == t;
  }

  /** Every other entry of the rebuilt list is one of the spec, to the letter, and without a timestamp. */
  lemma NewEntriesAreTheSpecs(current: seq<Taint>, desired: seq<NodeTaint>, applied: seq<NodeTaint>, t: Taint)
    requires t in Target(current, PlanOf(current, desired, applied))
    ensures t in current || exists w :: w in desired && t == Taint(w.key, w.value, EffectStr(w.effect), None)
  {
    var plan := PlanOf(current, desired, applied);
    var kept := Filter(current, Kept(plan));
    FilterMembers(current, Kept(plan));
    FilterMembers(desired, DesiredIn(current, applied, Update));
    FilterMembers(desired, DesiredIn(current, applied, Add));
    hide JudgeDesired;
    hide JudgeApplied;
    if t in RewriteAll(plan, kept) {
      var i :| 0 <= i < |kept| && t == Rewrite(plan, kept[i]);
      assert kept[i] in kept;
      FindWantedFinds(plan.toUpdate, IdOf(kept[i]));
    } else {
      var i :| 0 <= i < |plan.toAdd| && t == ToTaint(plan.toAdd[i]);
      assert plan.toAdd[i] in plan.toAdd;
    }
  }

  // ---------------------------------------------------------------------------------------------
  // The ownership annotation
  // ---------------------------------------------------------------------------------------------

  lemma {:induction false} OwnedCountsDesired(
      current: seq<Taint>, desired: seq<NodeTaint>, applied: seq<NodeTaint>, ds: seq<NodeTaint>)
    requires forall d :: d in ds ==> JudgeDesired(current, applied, d) != Conflict
    ensures multiset(Owned(PlanSoFar(current, desired, applied, ds, []))) == multiset(WantedIds(ds))
    decreases |ds|
  {
    if |ds| == 0 {
      NothingOwned(current, desired, applied);
    } else {
      var init, d := ds[..|ds| - 1], ds[|ds| - 1];
      assert d in ds;
      OwnedCountsDesired(current, desired, applied, init);
      OwnedGrows(current, desired, applied, init, d, ds);
    }
  }

  lemma OwnedGrows(current: seq<Taint>, desired: seq<NodeTaint>, applied: seq<NodeTaint>,
                   init: seq<NodeTaint>, d: NodeTaint, ds: seq<NodeTaint>)
    requires ds == init + [d] && JudgeDesired(current, applied, d) != Conflict
    requires multiset(Owned(PlanSoFar(current, desired, applied, init, []))) == multiset(WantedIds(init))
    ensures multiset(Owned(PlanSoFar(current, desired, applied, ds, []))) == multiset(WantedIds(ds))
  {
    hide PlanSoFar;
    hide Owned;
    hide PushDesired;
    hide WantedIds;
    hide FindWanted;
    hide FindCurrent;
    DesiredStep(current, desired, applied, ds, |init|);
    assert ds[..|init|] == init && ds[..|init| + 1] == ds;
    WantedIdsSnoc(init, d);
    OwnedPush(PlanSoFar(current, desired, applied, init, []), JudgeDesired(current, applied, d), d);
  }

  lemma NothingOwned(current: seq<Taint>, desired: seq<NodeTaint>, applied: seq<NodeTaint>)
    ensures Owned(PlanSoFar(current, desired, applied, [], [])) == WantedIds([])
  {
    assert PlanSoFar(current, desired, applied, [], []) == Plan([], [], [], [], []);
  }

  lemma WantedIdsSnoc(ws: seq<NodeTaint>, d: NodeTaint)
    ensures WantedIds(ws + [d]) == WantedIds(ws) + [WantedId(d)]
  {
  }

  /** Any addition to the plan but a conflict adds one identity to what it owns. */
  lemma OwnedPush(q: Plan, v: Verdict, d: NodeTaint)
    requires v == Add || v == Update || v == Unchanged
    ensures multiset(Owned(PushDesired(q, v, d))) == multiset(Owned(q)) + multiset([WantedId(d)])
  {
    OwnedSplits(q);
    OwnedSplits(PushDesired(q, v, d));
    WantedIdsSnoc(q.toAdd, d);
    WantedIdsSnoc(q.toUpdate, d);
    WantedIdsSnoc(q.settled, d);
  }

  lemma OwnedSplits(p: Plan)
    ensures multiset(Owned(p)) ==
            multiset(WantedIds(p.toAdd)) + multiset(WantedIds(p.toUpdate)) + multiset(WantedIds(p.settled))
  {
    assert Owned(p) == WantedIds(p.toAdd) + WantedIds(p.toUpdate) + WantedIds(p.settled);
  }

  /** When a patch is sent, its annotation lists exactly the identities of the spec. */
  lemma OwnedIsPermutation(current: seq<Taint>, desired: seq<NodeTaint>, applied: seq<NodeTaint>)
    requires PlanOf(current, desired, applied).conflicts == []
    ensures multiset(Owned(PlanOf(current, desired, applied))) == multiset(WantedIds(desired))
  {
    FilterMembers(desired, DesiredIn(current, applied, Conflict));
    forall d | d in desired ensures JudgeDesired(current, applied, d) != Conflict {
      assert d !in Filter(desired, DesiredIn(current, applied, Conflict));
    }
    OwnedCountsDesired(current, desired, applied, desired);
  }

  // ---------------------------------------------------------------------------------------------
  // The theorem about one reconcile
  // ---------------------------------------------------------------------------------------------

  /** A spec that gives no identity two values is shown entry by entry. */
  lemma DesiredIsShown(current: seq<Taint>, desired: seq<NodeTaint>, applied: seq<NodeTaint>, d: NodeTaint)
    requires UniqueTaints(current) && OneValue(desired) && d in desired
    requires PlanOf(current, desired, applied).conflicts == []
    ensures NodeSlot(Target(current, PlanOf(current, desired, applied)), WantedId(d)) == Present(d.value)
  {
    var plan, id := PlanOf(current, desired, applied), WantedId(d);
    FilterMembers(desired, DesiredIn(current, applied, Add));
    FilterMembers(desired, DesiredIn(current, applied, Update));
    FilterMembers(desired, DesiredIn(current, applied, Conflict));
    RemovedIsUnnamed(current, desired, applied, d);
    FindCurrentIsFindTaint(current, d.key, d.effect);
    FindTaintFinds(current, id);
    FindWantedFinds(plan.toAdd, id);
    FindWantedFinds(plan.toUpdate, id);
    FindTaintConcat(RewriteAll(plan, Filter(current, Kept(plan))), ToTaints(plan.toAdd), id);
    FindTaintRewrite(plan, Filter(current, Kept(plan)), id);
    FindTaintFilter(current, Kept(plan), id);
    FindTaintAdded(plan.toAdd, id);
    assert JudgeDesired(current, applied, d) != Conflict;
  }

  /** A spec that gives an identity two values cannot be shown. */
  lemma ShownHasOneValue(target: seq<Taint>, desired: seq<NodeTaint>)
    requires forall d :: d in desired ==> NodeSlot(target, WantedId(d)) == Present(d.value)
    ensures OneValue(desired)
  {
    forall v, w | v in desired && w in desired && WantedId(v) == WantedId(w) ensures v == w {
      EffectTranslation(EffectStr(v.effect), v.effect);
      EffectTranslation(EffectStr(v.effect), w.effect);
    }
  }

  /** What was recorded and is no longer wanted is gone, whatever repeats in either list. */
  lemma DroppedIsGone(current: seq<Taint>, desired: seq<NodeTaint>, applied: seq<NodeTaint>, a: NodeTaint)
    requires PlanOf(current, desired, applied).conflicts == [] && a in applied && !Names(desired, WantedId(a))
    ensures !Carries(Target(current, PlanOf(current, desired, applied)), WantedId(a))
  {
    var plan, id := PlanOf(current, desired, applied), WantedId(a);
    var kept := Filter(current, Kept(plan));
    FilterMembers(applied, AppliedIn(current, desired, Remove));
    FilterMembers(applied, AppliedIn(current, desired, Conflict));
    FilterMembers(desired, DesiredIn(current, applied, Add));
    FilterMembers(current, Kept(plan));
    FindWantedFinds(desired, id);
    FindWantedFinds(plan.toRemove, id);
    FindCurrentFinds(current, a.key, a.effect);
    RewrittenIds(plan, kept);
    ToTaintsIds(plan.toAdd);
    assert JudgeApplied(current, desired, a) != Conflict;
    CarriesConcat(RewriteAll(plan, kept), ToTaints(plan.toAdd), id);
  }

  lemma CarriesConcat(front: seq<Taint>, back: seq<Taint>, id: TaintId)
    ensures Carries(front + back, id) <==> Carries(front, id) || Carries(back, id)
  {
  }

  /**
   After a conflict-free reconcile of any spec against any record: no identity stands there twice exactly
   when every identity the spec repeats was there before, and every desired taint is there with its value
   exactly when the spec gives no identity two values; every recorded taint the spec dropped is gone, and
   all others are the same sub-list as before.
   */
  lemma MergeCorrect(current: seq<Taint>, desired: seq<NodeTaint>, applied: seq<NodeTaint>, ids: set<TaintId>)
    requires UniqueTaints(current)
    requires PlanOf(current, desired, applied).conflicts == []
    requires Covers(ids, desired) && Covers(ids, applied)
    ensures var target := Target(current, PlanOf(current, desired, applied));
            && (UniqueTaints(target) <==> RepeatsCarried(current, desired))
            && ((forall d :: d in desired ==> NodeSlot(target, WantedId(d)) == Present(d.value)) <==> OneValue(desired))
            && (forall a :: a in applied && !Names(desired, WantedId(a)) ==> !Carries(target, WantedId(a)))
            && Filter(target, Foreign(ids)) == Filter(current, Foreign(ids))
            && multiset(Owned(PlanOf(current, desired, applied))) == multiset(WantedIds(desired))
  {
    hide PlanOf;
    hide Target;
    hide Owned;
    var target := Target(current, PlanOf(current, desired, applied));
    TargetUnique(current, desired, applied);
    MergeKeepsForeign(current, desired, applied, ids);
    OwnedIsPermutation(current, desired, applied);
    if OneValue(desired) {
      forall d | d in desired ensures NodeSlot(target, WantedId(d)) == Present(d.value) {
        DesiredIsShown(current, desired, applied, d);
      }
    } else if forall d :: d in desired ==> NodeSlot(target, WantedId(d)) == Present(d.value) {
      ShownHasOneValue(target, desired);
    }
    forall a | a in applied && !Names(desired, WantedId(a)) ensures !Carries(target, WantedId(a)) {
      DroppedIsGone(current, desired, applied, a);
    }
  }

  // ---------------------------------------------------------------------------------------------
  // A spec that repeats an identity
  // ---------------------------------------------------------------------------------------------

  /** Two new taints with one identity and two values: no conflict, and the list names it twice. */
  lemma RepeatedTaintIsAddedTwice(x: NodeTaint, y: NodeTaint)
    requires WantedId(x) == WantedId(y) && x != y
    ensures var plan := PlanOf([], [x, y], []);
            plan == Plan([x, y], [], [], [], []) && Target([], plan) == [ToTaint(x), ToTaint(y)]
    ensures IdOf(ToTaint(x)) == IdOf(ToTaint(y))
  {
    assert JudgeDesired([], [], x) == JudgeDesired([], [], y) == Add;
    hide JudgeDesired;
    TwoEntries([], [], x, y);
  }

  /** A spec of two entries, bucket by bucket. */
  lemma TwoEntries(current: seq<Taint>, applied: seq<NodeTaint>, x: NodeTaint, y: NodeTaint)
    ensures forall v :: Filter([x, y], DesiredIn(current, applied, v)) ==
                        (if JudgeDesired(current, applied, x) == v then [x] else [])
                        + if JudgeDesired(current, applied, y) == v then [y] else []
  {
    forall v ensures Filter([x, y], DesiredIn(current, applied, v)) ==
                     (if JudgeDesired(current, applied, x) == v then [x] else [])
                     + if JudgeDesired(current, applied, y) == v then [y] else []
    {
      hide JudgeDesired;
      assert [x, y] == [x] + [y];
      FilterOne(x, DesiredIn(current, applied, v));
      FilterSnoc([x], y, DesiredIn(current, applied, v));
    }
  }
}
