/**
 The node-taint reconcile: the three-way diff between the Node's taints, the taints the spec
 asks for and the taints recorded as applied, and the rebuild of the Node's list from the plan.
 */
module NodeTaints {
  import opened Wrappers
  import opened Seqs

  datatype TaintEffect = NoSchedule | PreferNoSchedule | NoExecute

  /** A taint as the spec and the status record carry it. */
  datatype NodeTaint = NodeTaint(key: string, value: Option<string>, effect: TaintEffect)

  /** A taint as the Node object carries it; the effect is free text to this controller. */
  datatype Taint = Taint(key: string, value: Option<string>, effect: string, timeAdded: Option<string>)

  /** The (key, effect) pair that names a taint; the value is not part of it. */
  datatype TaintId = TaintId(key: string, effect: string)

  datatype Plan = Plan(
    toAdd: seq<NodeTaint>,
    toUpdate: seq<NodeTaint>,
    toRemove: seq<NodeTaint>,
    settled: seq<NodeTaint>,
    conflicts: seq<NodeTaint>)
  {
    predicate IsNoop() {
      toAdd == [] && toUpdate == [] && toRemove == []
    }
  }

  function EffectStr(e: TaintEffect): string {
    match e
    case NoSchedule => "NoSchedule"
    case PreferNoSchedule => "PreferNoSchedule"
    case NoExecute => "NoExecute"
  }

  function EffectFromStr(s: string): Option<TaintEffect> {
    if s == "NoSchedule" then Some(NoSchedule)
    else if s == "PreferNoSchedule" then Some(PreferNoSchedule)
    else if s == "NoExecute" then Some(NoExecute)
    else None
  }

  /** The two translations agree, so matching parsed effects and matching text are the same test. */
  lemma EffectTranslation(s: string, e: TaintEffect)
    ensures EffectFromStr(s) == Some(e) <==> s == EffectStr(e)
    ensures s == "NoSchedule" ==> EffectFromStr(s) == Some(NoSchedule)
    ensures s == "PreferNoSchedule" ==> EffectFromStr(s) == Some(PreferNoSchedule)
    ensures s == "NoExecute" ==> EffectFromStr(s) == Some(NoExecute)
  {
    assert EffectStr(NoSchedule)[0] == 'N' && |EffectStr(NoExecute)| == 9;
  }

  function IdOf(t: Taint): TaintId {
    TaintId(t.key, t.effect)
  }

  function WantedId(w: NodeTaint): TaintId {
    TaintId(w.key, EffectStr(w.effect))
  }

  function ToTaint(w: NodeTaint): Taint {
    Taint(w.key, w.value, EffectStr(w.effect), None)
  }

  // ---------------------------------------------------------------------------------------------
  // Look-ups
  // ---------------------------------------------------------------------------------------------

  function FindCurrent(current: seq<Taint>, key: string, effect: TaintEffect): Option<Taint> {
    if |current| == 0 then None
    else if current[0].key == key && EffectFromStr(current[0].effect) == Some(effect) then Some(current[0])
    else FindCurrent(current[1..], key, effect)
  }

  function FindWanted(wanted: seq<NodeTaint>, id: TaintId): Option<NodeTaint> {
    if |wanted| == 0 then None
    else if WantedId(wanted[0]) == id then Some(wanted[0])
    else FindWanted(wanted[1..], id)
  }

  ghost predicate UniqueTaints(ts: seq<Taint>) {
    forall i, j :: 0 <= i < j < |ts| ==> IdOf(ts[i]) != IdOf(ts[j])
  }

  ghost predicate UniqueWanted(ws: seq<NodeTaint>) {
    forall i, j :: 0 <= i < j < |ws| ==> WantedId(ws[i]) != WantedId(ws[j])
  }

  ghost predicate Names(ws: seq<NodeTaint>, id: TaintId) {
    exists w :: w in ws && WantedId(w) == id
  }

  ghost predicate Carries(ts: seq<Taint>, id: TaintId) {
    exists t :: t in ts && IdOf(t) == id
  }

  lemma {:induction false} FindCurrentFinds(current: seq<Taint>, key: string, effect: TaintEffect)
    ensures match FindCurrent(current, key, effect)
            case Some(t) => t in current && IdOf(t) == TaintId(key, EffectStr(effect))
            case None => !Carries(current, TaintId(key, EffectStr(effect)))
  {
    if |current| > 0 {
      EffectTranslation(current[0].effect, effect);
      FindCurrentFinds(current[1..], key, effect);
      assert current == [current[0]] + current[1..];
    }
  }

  lemma {:induction false} FindWantedFinds(wanted: seq<NodeTaint>, id: TaintId)
    ensures match FindWanted(wanted, id)
            case Some(w) => w in wanted && WantedId(w) == id
            case None => !Names(wanted, id)
  {
    if |wanted| > 0 {
      FindWantedFinds(wanted[1..], id);
      assert wanted == [wanted[0]] + wanted[1..];
    }
  }

  // ---------------------------------------------------------------------------------------------
  // The plan
  // ---------------------------------------------------------------------------------------------

  datatype Verdict = Add | Update | Remove | Unchanged | Conflict | Skip

  /** The bucket that one entry of the spec falls into. */
  function JudgeDesired(current: seq<Taint>, applied: seq<NodeTaint>, want: NodeTaint): Verdict {
    match FindCurrent(current, want.key, want.effect)
    case None => Add
    case Some(cur) =>
      if cur.value == want.value then Unchanged
      else
        var recorded := FindWanted(applied, WantedId(want));
        if recorded.Some? && recorded.value.value == cur.value then Update else Conflict
  }

  /** The bucket that one recorded entry falls into once the spec no longer names it. */
  function JudgeApplied(current: seq<Taint>, desired: seq<NodeTaint>, applied: NodeTaint): Verdict {
    if FindWanted(desired, WantedId(applied)).Some? then Skip
    else
      match FindCurrent(current, applied.key, applied.effect)
      case None => Skip
      case Some(cur) => if cur.value == applied.value then Remove else Conflict
  }

  function DesiredIn(current: seq<Taint>, applied: seq<NodeTaint>, v: Verdict): NodeTaint -> bool {
    want => JudgeDesired(current, applied, want) == v
  }

  function AppliedIn(current: seq<Taint>, desired: seq<NodeTaint>, v: Verdict): NodeTaint -> bool {
    a => JudgeApplied(current, desired, a) == v
  }

  /** The plan once the entries `ds` of the spec and `rs` of the record have been looked at. */
  function PlanSoFar(current: seq<Taint>, desired: seq<NodeTaint>, applied: seq<NodeTaint>,
                     ds: seq<NodeTaint>, rs: seq<NodeTaint>): Plan
  {
    Plan(
      Filter(ds, DesiredIn(current, applied, Add)),
      Filter(ds, DesiredIn(current, applied, Update)),
      Filter(rs, AppliedIn(current, desired, Remove)),
      Filter(ds, DesiredIn(current, applied, Unchanged)),
      Filter(ds, DesiredIn(current, applied, Conflict)) + Filter(rs, AppliedIn(current, desired, Conflict)))
  }

  function PlanOf(current: seq<Taint>, desired: seq<NodeTaint>, applied: seq<NodeTaint>): Plan {
    PlanSoFar(current, desired, applied, desired, applied)
  }

  function PushDesired(plan: Plan, v: Verdict, w: NodeTaint): Plan {
    match v
    case Add => plan.(toAdd := plan.toAdd + [w])
    case Update => plan.(toUpdate := plan.toUpdate + [w])
    case Unchanged => plan.(settled := plan.settled + [w])
    case _ => plan.(conflicts := plan.conflicts + [w])
  }

  function PushApplied(plan: Plan, v: Verdict, a: NodeTaint): Plan {
    match v
    case Remove => plan.(toRemove := plan.toRemove + [a])
    case Conflict => plan.(conflicts := plan.conflicts + [a])
    case _ => plan
  }

  lemma DesiredFilter(current: seq<Taint>, applied: seq<NodeTaint>, ds: seq<NodeTaint>, i: nat, v: Verdict)
    requires i < |ds|
    ensures Filter(ds[..i + 1], DesiredIn(current, applied, v)) ==
            Filter(ds[..i], DesiredIn(current, applied, v))
            + if JudgeDesired(current, applied, ds[i]) == v then [ds[i]] else []
  {
    hide JudgeDesired;
    assert ds[..i + 1] == ds[..i] + [ds[i]];
    FilterSnoc(ds[..i], ds[i], DesiredIn(current, applied, v));
  }

  lemma DesiredStep(current: seq<Taint>, desired: seq<NodeTaint>, applied: seq<NodeTaint>,
                    ds: seq<NodeTaint>, i: nat)
    requires i < |ds|
    ensures PlanSoFar(current, desired, applied, ds[..i + 1], []) ==
            PushDesired(PlanSoFar(current, desired, applied, ds[..i], []), JudgeDesired(current, applied, ds[i]), ds[i])
  {
    DesiredFilter(current, applied, ds, i, Add);
    DesiredFilter(current, applied, ds, i, Update);
    DesiredFilter(current, applied, ds, i, Unchanged);
    DesiredFilter(current, applied, ds, i, Conflict);
  }

  lemma AppliedStep(current: seq<Taint>, desired: seq<NodeTaint>, applied: seq<NodeTaint>, i: nat)
    requires i < |applied|
    ensures PlanSoFar(current, desired, applied, desired, applied[..i + 1]) ==
            PushApplied(PlanSoFar(current, desired, applied, desired, applied[..i]),
                        JudgeApplied(current, desired, applied[i]), applied[i])
  {
    hide JudgeApplied;
    hide JudgeDesired;
    assert applied[..i + 1] == applied[..i] + [applied[i]];
    FilterSnoc(applied[..i], applied[i], AppliedIn(current, desired, Remove));
    FilterSnoc(applied[..i], applied[i], AppliedIn(current, desired, Conflict));
  }

  /** The two loops of the diff, each pushing onto the buckets of a plan that starts empty. */
  method DiffNodeTaints(current: seq<Taint>, desired: seq<NodeTaint>, applied: seq<NodeTaint>)
    returns (plan: Plan)
    ensures plan == PlanOf(current, desired, applied)
  {
    plan := Plan([], [], [], [], []);
    for i := 0 to |desired|
      invariant plan == PlanSoFar(current, desired, applied, desired[..i], [])
    {
      var want := desired[i];
      DesiredStep(current, desired, applied, desired, i);
      match FindCurrent(current, want.key, want.effect)
      case None =>
        plan := plan.(toAdd := plan.toAdd + [want]);
      case Some(cur) =>
        if cur.value == want.value {
          plan := plan.(settled := plan.settled + [want]);
        } else {
          var recorded := FindWanted(applied, WantedId(want));
          if recorded.Some? && recorded.value.value == cur.value {
            plan := plan.(toUpdate := plan.toUpdate + [want]);
          } else {
            plan := plan.(conflicts := plan.conflicts + [want]);
          }
        }
    }
    assert desired[..|desired|] == desired && applied[..0] == [];
    for i := 0 to |applied|
      invariant plan == PlanSoFar(current, desired, applied, desired, applied[..i])
    {
      var a := applied[i];
      AppliedStep(current, desired, applied, i);
      if FindWanted(desired, WantedId(a)).Some? {
        continue;
      }
      match FindCurrent(current, a.key, a.effect)
      case None =>
      case Some(cur) =>
        if cur.value == a.value {
          plan := plan.(toRemove := plan.toRemove + [a]);
        } else {
          plan := plan.(conflicts := plan.conflicts + [a]);
        }
    }
    assert applied[..|applied|] == applied;
  }

  // ---------------------------------------------------------------------------------------------
  // The rebuild
  // ---------------------------------------------------------------------------------------------

  function Kept(plan: Plan): Taint -> bool {
    t => FindWanted(plan.toRemove, IdOf(t)).None?
  }

  function Rewrite(plan: Plan, t: Taint): Taint {
    match FindWanted(plan.toUpdate, IdOf(t))
    case Some(u) => ToTaint(u)
    case None => t
  }

  function RewriteAll(plan: Plan, ts: seq<Taint>): seq<Taint> {
    seq(|ts|, i requires 0 <= i < |ts| => Rewrite(plan, ts[i]))
  }

  function ToTaints(ws: seq<NodeTaint>): seq<Taint> {
    seq(|ws|, i requires 0 <= i < |ws| => ToTaint(ws[i]))
  }

  function WantedIds(ws: seq<NodeTaint>): seq<TaintId> {
    seq(|ws|, i requires 0 <= i < |ws| => WantedId(ws[i]))
  }

  /** The whole list that the patch writes to the Node. */
  function Target(current: seq<Taint>, plan: Plan): seq<Taint> {
    RewriteAll(plan, Filter(current, Kept(plan))) + ToTaints(plan.toAdd)
  }

  /** The identities that the patch writes to the ownership annotation. */
  function Owned(plan: Plan): seq<TaintId> {
    WantedIds(plan.toAdd + plan.toUpdate + plan.settled)
  }

  lemma RewriteStep(plan: Plan, current: seq<Taint>, i: nat)
    requires i < |current|
    ensures RewriteAll(plan, Filter(current[..i + 1], Kept(plan))) ==
            RewriteAll(plan, Filter(current[..i], Kept(plan)))
            + if Kept(plan)(current[i]) then [Rewrite(plan, current[i])] else []
  {
    assert current[..i + 1] == current[..i] + [current[i]];
    FilterSnoc(current[..i], current[i], Kept(plan));
  }

  method BuildTarget(current: seq<Taint>, plan: Plan) returns (target: seq<Taint>)
    ensures target == Target(current, plan)
  {
    target := [];
    for i := 0 to |current|
      invariant target == RewriteAll(plan, Filter(current[..i], Kept(plan)))
    {
      var t := current[i];
      RewriteStep(plan, current, i);
      if FindWanted(plan.toRemove, IdOf(t)).None? {
        match FindWanted(plan.toUpdate, IdOf(t))
        case Some(u) => target := target + [ToTaint(u)];
        case None => target := target + [t];
      }
    }
    assert current[..|current|] == current;
    for i := 0 to |plan.toAdd|
      invariant target == RewriteAll(plan, Filter(current, Kept(plan))) + ToTaints(plan.toAdd[..i])
    {
      target := target + [ToTaint(plan.toAdd[i])];
    }
    assert plan.toAdd[..|plan.toAdd|] == plan.toAdd;
  }

  // ---------------------------------------------------------------------------------------------
  // The Node object and the orchestration
  // ---------------------------------------------------------------------------------------------

  datatype Outcome =
    | NoNodeYet
    | NodeNotReady
    | Applied(applied: seq<NodeTaint>)
    | Conflicted(conflicts: seq<NodeTaint>)

  /** An API call that came back with an error other than 404. */
  datatype KubeError = GetFailed | PatchFailed

  /** What the API server makes of the calls: whether each GET fails, and what becomes of the PATCH. */
  datatype Faults = Faults(firstGet: bool, secondGet: bool, patch: Reply)

  /** The part of the Node that the controller reads and patches. */
  class NodeObject {
    var materialised: bool
    var ready: bool
    var taints: seq<Taint>
    var owned: Option<seq<TaintId>>

    constructor (materialised: bool, ready: bool, taints: seq<Taint>)
      ensures this.materialised == materialised && this.ready == ready && this.taints == taints && owned == None
    {
      this.materialised, this.ready, this.taints, owned := materialised, ready, taints, None;
    }

    /**
     Rebuild the list and patch it together with the annotation. A plan with nothing to change
     sends no patch at all, so the annotation then keeps whatever it held.
     */
    method ApplyPlan(plan: Plan, faults: Faults) returns (result: Result<(), KubeError>)
      modifies this`taints, this`owned
      ensures result == if plan.IsNoop() then Ok(())
                        else if faults.secondGet || !materialised then Err(GetFailed)
                        else if faults.patch.Done? then Ok(())
                        else Err(PatchFailed)
      ensures var landed := !plan.IsNoop() && materialised && !faults.secondGet && !faults.patch.Refused?;
              && taints == (if landed then Target(old(taints), plan) else old(taints))
              && owned == (if landed then Some(Owned(plan)) else old(owned))
    {
      if plan.IsNoop() {
        return Ok(());
      }
      if faults.secondGet || !materialised {
        return Err(GetFailed);
      }
      var target := BuildTarget(taints, plan);
      if !faults.patch.Refused? {
        taints := target;
        owned := Some(Owned(plan));
      }
      return if faults.patch.Done? then Ok(()) else Err(PatchFailed);
    }

    /**
     One reconcile. `Applied` means that the Node now carries the rebuilt list; every other outcome
     and every error leaves the Node as it was, unless the patch landed and only its reply was lost.
     */
    method Reconcile(desired: seq<NodeTaint>, applied: seq<NodeTaint>, faults: Faults)
      returns (result: Result<Outcome, KubeError>)
      modifies this`taints, this`owned
      ensures faults.firstGet ==> result == Err(GetFailed)
      ensures !faults.firstGet && !materialised ==> result == Ok(NoNodeYet)
      ensures !faults.firstGet && materialised && !ready ==> result == Ok(NodeNotReady)
      ensures !faults.firstGet && materialised && ready ==>
                var plan := PlanOf(old(taints), desired, applied);
                && (plan.conflicts != [] ==> result == Ok(Conflicted(plan.conflicts)))
                && (plan.conflicts == [] && plan.IsNoop() ==> result == Ok(Applied(desired)))
                && (plan.conflicts == [] && !plan.IsNoop() ==>
                      result == if faults.secondGet then Err(GetFailed)
                                else if faults.patch.Done? then Ok(Applied(desired))
                                else Err(PatchFailed))
      ensures result.Ok? && result.value.Applied? ==>
                var plan := PlanOf(old(taints), desired, applied);
                && taints == Target(old(taints), plan)
                && owned == if plan.IsNoop() then old(owned) else Some(Owned(plan))
      ensures !(result.Ok? && result.value.Applied?) && !(result == Err(PatchFailed) && faults.patch.Lost?) ==>
                taints == old(taints) && owned == old(owned)
      ensures result == Err(PatchFailed) && faults.patch.Lost? ==>
                var plan := PlanOf(old(taints), desired, applied);
                taints == Target(old(taints), plan) && owned == Some(Owned(plan))
    {
      if faults.firstGet {
        return Err(GetFailed);
      }
      if !materialised {
        return Ok(NoNodeYet);
      }
      if !ready {
        return Ok(NodeNotReady);
      }
      var plan := DiffNodeTaints(taints, desired, applied);
      if |plan.conflicts| > 0 {
        return Ok(Conflicted(plan.conflicts));
      }
      NoopTarget(taints, plan);
      var done := ApplyPlan(plan, faults);
      match done
      case Err(e) => return Err(e);
      case Ok(_) => return Ok(Applied(desired));
    }
  }

  /** Skipping the patch for a plan with nothing to change loses nothing. */
  lemma NoopTarget(current: seq<Taint>, plan: Plan)
    ensures plan.IsNoop() ==> Target(current, plan) == current
  {
    if plan.IsNoop() {
      KeepAll(current, plan);
    }
  }

  lemma {:induction false} KeepAll(current: seq<Taint>, plan: Plan)
    requires plan.IsNoop()
    ensures Filter(current, Kept(plan)) == current
    decreases |current|
  {
    if |current| > 0 {
      KeepAll(current[..|current| - 1], plan);
    }
  }
}
