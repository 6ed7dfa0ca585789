/**
 The API calls of the machine flows, one at a time, against a store. The other side is a script of
 replies: each call takes the next one, and a controller that has used up its script has crashed. Since
 the script is arbitrary, its length puts a crash between any two calls.
 */
module ApiCalls {
  import opened Wrappers

  /** An object of the machine's own name and namespace, by API group and plural. */
  datatype Id = Id(group: string, plural: string)

  datatype Phase = EmergencyRemove | Disabled | OtherPhase(name: string)

  datatype Store = Store(live: set<Id>, enabled: bool, phase: Phase, annotated: bool, drained: bool)

  datatype Call =
    | Review(id: Id) | Create(id: Id) | Delete(id: Id)
    | SetPhase(phase: Phase) | ResolveChild | Drain | DisableSchedule | ClearAnnotations

  datatype CallError = InvalidConfig | ValidationError | PermissionDenied | ApiError | Crashed

  datatype Outcome = Outcome(store: Store, replies: seq<Reply>, failure: Option<CallError>)

  function Effect(call: Call, s: Store): Store {
    match call
    case Create(id) => s.(live := s.live + {id})
    case Delete(id) => s.(live := s.live - {id})
    case SetPhase(phase) => s.(phase := phase)
    case DisableSchedule => s.(enabled := false)
    case ClearAnnotations => s.(annotated := false)
    case Drain => s.(drained := true)
    case _ => s
  }

  /**
   What the caller makes of a call that is not answered with success. An access review that says no is
   `Refused`; one that itself fails is `Lost`.
   */
  function FailureOf(call: Call, reply: Reply): CallError {
    if call.Review? && reply.Refused? then PermissionDenied else ApiError
  }

  /** The caller logs a failure of these and goes on. */
  predicate BestEffort(call: Call) {
    call.Drain? || call.ClearAnnotations?
  }

  function ExecOne(s: Store, replies: seq<Reply>, call: Call): Outcome {
    if |replies| == 0 then Outcome(s, [], Some(Crashed))
    else
      var after := if replies[0].Refused? then s else Effect(call, s);
      Outcome(
        after, replies[1..],
        if replies[0].Done? || BestEffort(call) then None
        else Some(FailureOf(call, replies[0])))
  }

  /** A sequence of calls up to the first failure. */
  function Exec(s: Store, replies: seq<Reply>, calls: seq<Call>): Outcome
    decreases |calls|
  {
    if |calls| == 0 then Outcome(s, replies, None)
    else
      var first := ExecOne(s, replies, calls[0]);
      if first.failure.Some? then first else Exec(first.store, first.replies, calls[1..])
  }

  /** What a server answers; a dead caller gets nothing. */
  datatype Answer = Accepted | NotAllowed | Rejected(code: nat) | NoAnswer

  const HTTP_NOT_FOUND: nat := 404
  const HTTP_ALREADY_EXISTS: nat := 409
  const HTTP_OTHER: nat := 500

  class Controller {
    var store: Store
    var replies: seq<Reply>

    constructor (store: Store, replies: seq<Reply>)
      ensures this.store == store && this.replies == replies
    {
      this.store := store;
      this.replies := replies;
    }

    /** The server's side of a call. Creating twice answers 409, deleting what is absent 404. */
    method Send(call: Call) returns (answer: Answer)
      modifies this
      ensures |old(replies)| == 0 ==> store == old(store) && replies == [] && answer == NoAnswer
      ensures |old(replies)| > 0 ==> replies == old(replies)[1..]
      ensures |old(replies)| > 0 && old(replies)[0].Refused? ==>
                && store == old(store)
                && answer == if call.Review? then NotAllowed else Rejected(HTTP_OTHER)
      ensures |old(replies)| > 0 && old(replies)[0].Lost? ==>
                store == Effect(call, old(store)) && answer == Rejected(HTTP_OTHER)
      ensures |old(replies)| > 0 && old(replies)[0].Done? ==>
                && store == Effect(call, old(store))
                && answer == (if call.Create? && call.id in old(store).live then Rejected(HTTP_ALREADY_EXISTS)
                              else if call.Delete? && call.id !in old(store).live then Rejected(HTTP_NOT_FOUND)
                              else Accepted)
    {
      if |replies| == 0 {
        replies := [];
        return NoAnswer;
      }
      var reply := replies[0];
      replies := replies[1..];
      if reply.Refused? {
        return if call.Review? then NotAllowed else Rejected(HTTP_OTHER);
      }
      var before := store;
      store := Effect(call, store);
      if reply.Lost? {
        return Rejected(HTTP_OTHER);
      }
      if call.Create? && call.id in before.live {
        assert store.live == before.live;
        return Rejected(HTTP_ALREADY_EXISTS);
      }
      if call.Delete? && call.id !in before.live {
        assert store.live == before.live;
        return Rejected(HTTP_NOT_FOUND);
      }
      return Accepted;
    }

    /** A prior reconcile may already have created the object: 409 counts as success. */
    method CreateDynamicResource(id: Id) returns (failure: Option<CallError>)
      modifies this
      ensures Outcome(store, replies, failure) == ExecOne(old(store), old(replies), Create(id))
      ensures old(replies) == [] ==> failure == Some(Crashed) && store == old(store)
      ensures old(replies) != [] ==>
                && failure == (if old(replies)[0].Done? then None else Some(ApiError))
                && store == (if old(replies)[0].Refused? then old(store)
                             else old(store).(live := old(store).live + {id}))
    {
      var answer := Send(Create(id));
      match answer
      case Accepted => return None;
      case NotAllowed => return Some(ApiError);
      case Rejected(code) => return if code == HTTP_ALREADY_EXISTS then None else Some(ApiError);
      case NoAnswer => return Some(Crashed);
    }

    /** An object that is already gone counts as deleted. */
    method DeleteDynamicResource(id: Id) returns (failure: Option<CallError>)
      modifies this
      ensures Outcome(store, replies, failure) == ExecOne(old(store), old(replies), Delete(id))
      ensures old(replies) == [] ==> failure == Some(Crashed) && store == old(store)
      ensures old(replies) != [] ==>
                && failure == (if old(replies)[0].Done? then None else Some(ApiError))
                && store == (if old(replies)[0].Refused? then old(store)
                             else old(store).(live := old(store).live - {id}))
    {
      var answer := Send(Delete(id));
      match answer
      case Accepted => return None;
      case NotAllowed => return Some(ApiError);
      case Rejected(code) => return if code == HTTP_NOT_FOUND then None else Some(ApiError);
      case NoAnswer => return Some(Crashed);
    }

    method EnsureCanCreate(id: Id) returns (failure: Option<CallError>)
      modifies this
      ensures Outcome(store, replies, failure) == ExecOne(old(store), old(replies), Review(id))
      ensures old(replies) == [] ==> failure == Some(Crashed)
      ensures old(replies) != [] ==>
                failure == match old(replies)[0]
                           case Done => None
                           case Refused => Some(PermissionDenied)
                           case Lost => Some(ApiError)
      ensures store == old(store)
    {
      var answer := Send(Review(id));
      match answer
      case Accepted => return None;
      case NotAllowed => return Some(PermissionDenied);
      case Rejected(_) => return Some(ApiError);
      case NoAnswer => return Some(Crashed);
    }

    /** A call whose failure is passed on to the caller. */
    method Propagate(call: Call) returns (failure: Option<CallError>)
      requires !call.Create? && !call.Delete? && !call.Review? && !BestEffort(call)
      modifies this
      ensures Outcome(store, replies, failure) == ExecOne(old(store), old(replies), call)
    {
      var answer := Send(call);
      match answer
      case Accepted => return None;
      case NotAllowed => return Some(ApiError);
      case Rejected(_) => return Some(ApiError);
      case NoAnswer => return Some(Crashed);
    }

    /** A call whose failure is only logged. */
    method TryBestEffort(call: Call) returns (failure: Option<CallError>)
      requires BestEffort(call)
      modifies this
      ensures Outcome(store, replies, failure) == ExecOne(old(store), old(replies), call)
    {
      var answer := Send(call);
      return if answer.NoAnswer? then Some(Crashed) else None;
    }
  }

  // ---------------------------------------------------------------------------------------------
  // Sequences of calls
  // ---------------------------------------------------------------------------------------------

  lemma ExecCons(s: Store, replies: seq<Reply>, call: Call, calls: seq<Call>)
    ensures Exec(s, replies, [call] + calls)
         == var first := ExecOne(s, replies, call);
            if first.failure.Some? then first else Exec(first.store, first.replies, calls)
  {
    assert ([call] + calls)[1..] == calls;
  }

  lemma {:induction false} ExecConcat(s: Store, replies: seq<Reply>, calls: seq<Call>, more: seq<Call>)
    ensures Exec(s, replies, calls + more)
         == var first := Exec(s, replies, calls);
            if first.failure.Some? then first else Exec(first.store, first.replies, more)
    decreases |calls|
  {
    if |calls| == 0 {
      assert calls + more == more;
    } else {
      var first := ExecOne(s, replies, calls[0]);
      ExecConcat(first.store, first.replies, calls[1..], more);
      assert calls + more == [calls[0]] + (calls[1..] + more);
      ExecCons(s, replies, calls[0], calls[1..] + more);
    }
  }

  /** A property that every call of the sequence keeps holds at every crash point. */
  lemma {:induction false} ExecKeeps(s: Store, replies: seq<Reply>, calls: seq<Call>, P: Store -> bool)
    requires P(s) && forall t, i :: 0 <= i < |calls| && P(t) ==> P(Effect(calls[i], t))
    ensures P(Exec(s, replies, calls).store)
    decreases |calls|
  {
    if |calls| > 0 {
      var first := ExecOne(s, replies, calls[0]);
      assert P(first.store);
      forall t, i | 0 <= i < |calls[1..]| && P(t) ensures P(Effect(calls[1..][i], t)) {
        assert calls[1..][i] == calls[i + 1];
      }
      ExecKeeps(first.store, first.replies, calls[1..], P);
    }
  }

  /** The store after all the calls took effect. */
  function AllEffects(s: Store, calls: seq<Call>): Store
    decreases |calls|
  {
    if |calls| == 0 then s else AllEffects(Effect(calls[0], s), calls[1..])
  }

  lemma {:induction false} AllEffectsConcat(s: Store, calls: seq<Call>, more: seq<Call>)
    ensures AllEffects(s, calls + more) == AllEffects(AllEffects(s, calls), more)
    decreases |calls|
  {
    if |calls| == 0 {
      assert calls + more == more;
    } else {
      AllEffectsConcat(Effect(calls[0], s), calls[1..], more);
      assert (calls + more)[1..] == calls[1..] + more;
    }
  }

  lemma OneEffect(s: Store, call: Call)
    ensures AllEffects(s, [call]) == Effect(call, s)
  {
    assert AllEffects(Effect(call, s), []) == Effect(call, s);
  }

  /** An undisturbed run carries out every call. */
  lemma {:induction false} UndisturbedExec(s: Store, replies: seq<Reply>, calls: seq<Call>)
    requires |calls| <= |replies| && forall i :: 0 <= i < |calls| ==> replies[i] == Done
    ensures Exec(s, replies, calls) == Outcome(AllEffects(s, calls), replies[|calls|..], None)
    decreases |calls|
  {
    if |calls| > 0 {
      UndisturbedExec(Effect(calls[0], s), replies[1..], calls[1..]);
      assert replies[1..][|calls| - 1..] == replies[|calls|..];
    }
  }

  /** The caller gets past the reply to a call: success, or any answer to the drain or the clear. */
  predicate Passes(call: Call, reply: Reply) {
    reply.Done? || call == Drain || call == ClearAnnotations
  }

  /** The first call that is not got past decides the failure; a script that ends before is a crash. */
  lemma {:induction false} ExecFailsWith(s: Store, replies: seq<Reply>, calls: seq<Call>, k: nat)
    requires k <= |calls| && k <= |replies| && forall j :: 0 <= j < k ==> Passes(calls[j], replies[j])
    ensures k == |calls| ==> Exec(s, replies, calls).failure == None
    ensures k == |replies| < |calls| ==> Exec(s, replies, calls).failure == Some(Crashed)
    ensures k < |calls| && k < |replies| && !Passes(calls[k], replies[k]) ==>
              Exec(s, replies, calls).failure ==
              Some(if calls[k].Review? && replies[k].Refused? then PermissionDenied else ApiError)
    decreases |calls|
  {
    if |calls| > 0 && |replies| > 0 && k > 0 {
      assert Passes(calls[0], replies[0]);
      var first := ExecOne(s, replies, calls[0]);
      assert forall j :: 0 <= j < k - 1 ==> calls[1..][j] == calls[j + 1] && replies[1..][j] == replies[j + 1];
      ExecFailsWith(first.store, first.replies, calls[1..], k - 1);
    }
  }

  /** A sequence succeeds exactly when every call is answered and got past. */
  lemma {:induction false} ExecSucceedsIff(s: Store, replies: seq<Reply>, calls: seq<Call>)
    ensures Exec(s, replies, calls).failure.None? <==>
            |calls| <= |replies| && forall k :: 0 <= k < |calls| ==> Passes(calls[k], replies[k])
    decreases |calls|
  {
    if |calls| > 0 && |replies| > 0 {
      var first := ExecOne(s, replies, calls[0]);
      ExecSucceedsIff(first.store, first.replies, calls[1..]);
      assert forall j :: 0 <= j < |calls| - 1 ==> calls[1..][j] == calls[j + 1];
      assert forall j :: 0 <= j < |replies| - 1 ==> replies[1..][j] == replies[j + 1];
    }
  }

  /** No failure means every call that is not best-effort took effect; the rest did or did not. */
  lemma {:induction false} ExecSucceeds(s: Store, replies: seq<Reply>, calls: seq<Call>)
    requires Exec(s, replies, calls).failure.None?
    requires forall i :: 0 <= i < |calls| ==> !BestEffort(calls[i])
    ensures Exec(s, replies, calls).store == AllEffects(s, calls)
    decreases |calls|
  {
    if |calls| > 0 {
      var first := ExecOne(s, replies, calls[0]);
      ExecSucceeds(first.store, first.replies, calls[1..]);
    }
  }
}
