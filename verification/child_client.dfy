/**
 The child-cluster client cache: bounded, invalidated by the Secret's resourceVersion, evicting the
 least recently used entry, and firing the watcher callbacks as it builds and evicts.
 */
module ChildClient {
  import opened Wrappers
  import opened ChildWatch

  const CHILD_CLIENT_CACHE_CAP: nat := 256

  /** One data value of a Secret; `defect` is why no client can be built from it, if so. */
  datatype RawKubeconfig = RawKubeconfig(text: string, defect: Option<string>)

  /** What the GET of the Secret comes back with. */
  datatype SecretGet =
    | NoSecret
    | GetError
    | Found(resourceVersion: Option<string>, data: map<string, RawKubeconfig>)

  datatype ResolveError =
    | NotNamespaced
    | ChildClusterUnreachable
    | NotFound
    | KubeError
    | KubeconfigSecretMissingKey(key: string)
    | KubeconfigInvalid(reason: string)

  datatype Resolved = Management | Child(client: Client)

  datatype CachedEntry = CachedEntry(client: Client, resourceVersion: string, lastUsed: nat)

  /** The cache, its clock, the number of clients built so far, and the watcher manager's state. */
  datatype CacheState = CacheState(
    entries: map<CacheKey, CachedEntry>, clock: nat, builds: nat, watch: WatchState)

  datatype Request = Request(key: CacheKey, get: SecretGet, dataKey: string, explicit: bool)

  // ---------------------------------------------------------------------------------------------
  // Specification of one call
  // ---------------------------------------------------------------------------------------------

  datatype Lookup = Hit | Build(kubeconfig: string) | Fail

  function VersionOf(get: SecretGet): string
    requires get.Found?
  {
    match get.resourceVersion
    case Some(rv) => rv
    case None => ""
  }

  /** Whether a request is served from the cache, builds a client, or fails. */
  function LookUp(entries: map<CacheKey, CachedEntry>, r: Request): Lookup {
    match r.get
    case NoSecret => Fail
    case GetError => Fail
    case Found(_, data) =>
      if r.key in entries && entries[r.key].resourceVersion == VersionOf(r.get) then Hit
      else if r.dataKey !in data || data[r.dataKey].defect.Some? then Fail
      else Build(data[r.dataKey].text)
  }

  /** Which Secret a machine's client comes from, and under which data key. */
  function RequestFor(
      namespace: string, explicitRef: Option<(string, string)>, clusterName: string, get: SecretGet): Request
  {
    match explicitRef
    case Some((name, dataKey)) => Request(CacheKey(namespace, name), get, dataKey, true)
    case None => Request(CacheKey(namespace, clusterName + "-kubeconfig"), get, "value", false)
  }

  /** The entry that eviction may pick: none is older. */
  ghost predicate Oldest(entries: map<CacheKey, CachedEntry>, k: CacheKey) {
    k in entries && forall j :: j in entries ==> entries[k].lastUsed <= entries[j].lastUsed
  }

  ghost predicate MayEvict(cap: nat, entries: map<CacheKey, CachedEntry>, key: CacheKey, victim: Option<CacheKey>) {
    if key !in entries && |entries| >= cap && entries != map[]
    then victim.Some? && Oldest(entries, victim.value)
    else victim == None
  }

  function Touch(s: CacheState, key: CacheKey, now: nat): CacheState
    requires key in s.entries
  {
    s.(entries := s.entries[key := s.entries[key].(lastUsed := now)], clock := now)
  }

  function Insert(s: CacheState, r: Request, kubeconfig: string, now: nat, victim: Option<CacheKey>): CacheState
    requires r.get.Found?
  {
    var rv := VersionOf(r.get);
    var client := Client(s.builds, r.key, rv, r.dataKey, kubeconfig);
    var room := if victim.Some? then s.entries - {victim.value} else s.entries;
    var w0 := if victim.Some? then Cancelled(s.watch, victim.value) else s.watch;
    var w1 := if r.key in s.entries then Cancelled(w0, r.key) else w0;
    CacheState(room[r.key := CachedEntry(client, rv, now)], now, s.builds + 1, Started(w1, r.key, client))
  }

  /** Without a hook the same but for the callbacks. */
  function Inserted(hooked: bool, s: CacheState, r: Request, kubeconfig: string, now: nat,
                    victim: Option<CacheKey>): CacheState
    requires r.get.Found?
  {
    var v := Insert(s, r, kubeconfig, now, victim);
    if hooked then v else v.(watch := s.watch)
  }

  datatype Op = Get(request: Request) | Peek(key: CacheKey) | Evict(key: CacheKey)

  /** One call of a run: `elapsed` passes on the clock, and `victim` is what capacity evicted. */
  datatype Call = Call(op: Op, elapsed: nat, victim: Option<CacheKey>)

  function Touched(s: CacheState, op: Op): Option<CacheKey> {
    match op
    case Get(r) => if LookUp(s.entries, r).Fail? then None else Some(r.key)
    case Peek(k) => if k in s.entries then Some(k) else None
    case Evict(_) => None
  }

  function Next(s: CacheState, c: Call): CacheState {
    match c.op
    case Get(r) =>
      (match LookUp(s.entries, r)
       case Hit => Touch(s, r.key, s.clock + c.elapsed)
       case Build(text) => Insert(s, r, text, s.clock + c.elapsed, c.victim)
       case Fail => s)
    case Peek(k) => if k in s.entries then Touch(s, k, s.clock + c.elapsed) else s
    case Evict(k) =>
      if k in s.entries then s.(entries := s.entries - {k}, watch := Cancelled(s.watch, k)) else s
  }

  /** Without a hook a call does the same but for the callbacks. */
  function Step(hooked: bool, s: CacheState, c: Call): CacheState {
    if hooked then Next(s, c) else Next(s, c).(watch := s.watch)
  }

  ghost predicate ValidCall(cap: nat, s: CacheState, c: Call) {
    match c.op
    case Get(r) =>
      if LookUp(s.entries, r).Build? then MayEvict(cap, s.entries, r.key, c.victim) else c.victim == None
    case _ => c.victim == None
  }

  /** The entry for the key carries the version just read; a Secret without one reads as the empty version. */
  predicate IsCurrent(entries: map<CacheKey, CachedEntry>, r: Request) {
    && r.get.Found? && r.key in entries
    && match r.get.resourceVersion
       case Some(rv) => entries[r.key].resourceVersion == rv
       case None => entries[r.key].resourceVersion == ""
  }

  /** A new client from the very data and version just read. */
  predicate IsBuiltFor(resolved: Resolved, serial: nat, r: Request) {
    && resolved.Child? && r.get.Found? && r.dataKey in r.get.data
    && resolved.client.serial == serial && resolved.client.key == r.key && resolved.client.dataKey == r.dataKey
    && resolved.client.kubeconfig == r.get.data[r.dataKey].text
    && (r.get.resourceVersion.Some? ==> resolved.client.resourceVersion == r.get.resourceVersion.value)
  }

  /** What comes of a Secret that was read: the client cached for it if it is current, else a new one or an error. */
  predicate ServedFrom(before: map<CacheKey, CachedEntry>, r: Request, serial: nat,
                       result: Result<Resolved, ResolveError>)
    requires r.get.Found?
  {
    if IsCurrent(before, r) then result == Ok(Child(before[r.key].client))
    else if r.dataKey !in r.get.data then result == Err(KubeconfigSecretMissingKey(r.dataKey))
    else
      match r.get.data[r.dataKey].defect
      case Some(reason) => result == Err(KubeconfigInvalid(reason))
      case None => result.Ok? && IsBuiltFor(result.value, serial, r)
  }

  /** Whatever is served stands in the cache, with the version just read; a failure leaves the cache. */
  predicate Keeps(before: map<CacheKey, CachedEntry>, after: map<CacheKey, CachedEntry>, r: Request,
                  result: Result<Resolved, ResolveError>)
  {
    if result.Ok? then IsCurrent(after, r) && result == Ok(Child(after[r.key].client)) else after == before
  }

  /** The state after a request is that of one valid call, whichever oldest entry it evicted for capacity. */
  ghost predicate GetLeadsTo(hooked: bool, s: CacheState, r: Request, elapsed: nat, v: CacheState) {
    exists victim ::
      && ValidCall(256, s, Call(Get(r), elapsed, victim))
      && v == Step(hooked, s, Call(Get(r), elapsed, victim))
  }

  /** A call by what its look-up comes to. */
  lemma StepOfGet(hooked: bool, s: CacheState, r: Request, elapsed: nat, victim: Option<CacheKey>)
    ensures var v := Step(hooked, s, Call(Get(r), elapsed, victim));
            match LookUp(s.entries, r)
            case Hit => r.key in s.entries && v == Touch(s, r.key, s.clock + elapsed)
            case Build(text) => r.get.Found? && v == Inserted(hooked, s, r, text, s.clock + elapsed, victim)
            case Fail => v == s
  {
  }

  // ---------------------------------------------------------------------------------------------
  // The cache object
  // ---------------------------------------------------------------------------------------------

  class ChildClientCache {
    var inner: map<CacheKey, CachedEntry>
    var hook: ChildNodeWatchManager?
    var clock: nat
    var builds: nat

    constructor ()
      ensures inner == map[] && hook == null && clock == 0 && builds == 0
    {
      inner, hook, clock, builds := map[], null, 0, 0;
    }

    /** Until a hook is installed nobody watches. */
    ghost function State(): CacheState
      reads this, hook
    {
      CacheState(inner, clock, builds, if hook == null then WatchState(map[], [], {}) else hook.State())
    }

    /** The most recent hook wins; entries cached before are not announced to it. */
    method SetHook(h: ChildNodeWatchManager)
      modifies this`hook
      ensures hook == h
    {
      hook := h;
    }

    /** Read the clock; it never runs backwards. */
    method Now(elapsed: nat) returns (now: nat)
      modifies this`clock
      ensures now == clock == old(clock) + elapsed
    {
      clock := clock + elapsed;
      now := clock;
    }

    /** The first entry found that no other entry is older than. */
    method LeastRecentlyUsed() returns (lru: Option<CacheKey>)
      ensures if inner == map[] then lru == None else lru.Some? && Oldest(inner, lru.value)
    {
      lru := None;
      var rest := inner.Keys;
      while rest != {}
        invariant rest <= inner.Keys
        invariant lru.Some? ==> lru.value in inner
        invariant lru.None? ==> rest == inner.Keys
        invariant lru.Some? ==>
          forall j :: j in inner && j !in rest ==> inner[lru.value].lastUsed <= inner[j].lastUsed
        decreases |rest|
      {
        var k :| k in rest;
        rest := rest - {k};
        if lru.None? || inner[k].lastUsed < inner[lru.value].lastUsed {
          lru := Some(k);
        }
      }
    }

    /** Cached client by key; a successful peek counts as a use. */
    method PeekClient(key: CacheKey, elapsed: nat) returns (client: Option<Client>)
      modifies this`inner, this`clock
      ensures hook == old(hook)
      ensures State() == Step(hook != null, old(State()), Call(Peek(key), elapsed, None))
      ensures client == if key in old(inner) then Some(old(inner)[key].client) else None
    {
      if key in inner {
        var now := Now(elapsed);
        inner := inner[key := inner[key].(lastUsed := now)];
        return Some(inner[key].client);
      }
      return None;
    }

    method EvictKey(key: CacheKey, elapsed: nat)
      modifies this`inner, hook
      ensures hook == old(hook)
      ensures State() == Step(hook != null, old(State()), Call(Evict(key), elapsed, None))
    {
      if key in inner {
        inner := inner - {key};
        if hook != null {
          hook.OnChildEvicted(key);
        }
      }
    }

    /** GET the Secret, serve the cached client on an equal version, otherwise build and insert. */
    method BuildOrGetCached(r: Request, elapsed: nat) returns (result: Result<Resolved, ResolveError>)
      modifies this`inner, this`clock, this`builds, hook
      ensures hook == old(hook)
      ensures r.get.NoSecret? ==> result == Err(if r.explicit then ChildClusterUnreachable else NotFound)
      ensures r.get.GetError? ==> result == Err(if r.explicit then ChildClusterUnreachable else KubeError)
      ensures r.get.Found? ==>
                ServedFrom(old(inner), r, old(builds), result) && Keeps(old(inner), inner, r, result)
      ensures GetLeadsTo(hook != null, old(State()), r, elapsed, State())
    {
      hide Step;
      hide Insert;
      ghost var s := State();
      StepOfGet(hook != null, s, r, elapsed, None);
      var rv: string;
      match r.get {
        case NoSecret =>
          assert State() == Step(hook != null, s, Call(Get(r), elapsed, None));
          return Err(if r.explicit then ChildClusterUnreachable else NotFound);
        case GetError =>
          assert State() == Step(hook != null, s, Call(Get(r), elapsed, None));
          return Err(if r.explicit then ChildClusterUnreachable else KubeError);
        case Found(version, _) =>
          rv := match version case Some(v) => v case None => "";
      }
      if r.key in inner && inner[r.key].resourceVersion == rv {
        var now := Now(elapsed);
        inner := inner[r.key := inner[r.key].(lastUsed := now)];
        assert State() == Step(hook != null, s, Call(Get(r), elapsed, None));
        return Ok(Child(inner[r.key].client));
      }
      if r.dataKey !in r.get.data {
        assert State() == Step(hook != null, s, Call(Get(r), elapsed, None));
        return Err(KubeconfigSecretMissingKey(r.dataKey));
      }
      var raw := r.get.data[r.dataKey];
      if raw.defect.Some? {
        assert State() == Step(hook != null, s, Call(Get(r), elapsed, None));
        return Err(KubeconfigInvalid(raw.defect.value));
      }
      ghost var victim;
      var child;
      child, victim := BuildAndInsert(r, raw.text, elapsed);
      StepOfGet(hook != null, s, r, elapsed, victim);
      assert ValidCall(CHILD_CLIENT_CACHE_CAP, s, Call(Get(r), elapsed, victim));
      assert State() == Step(hook != null, s, Call(Get(r), elapsed, victim));
      return Ok(Child(child));
    }

    /** Build a client, make room for it at the cap, insert it, and tell the hook. */
    method BuildAndInsert(r: Request, kubeconfig: string, elapsed: nat)
      returns (child: Client, ghost victim: Option<CacheKey>)
      requires r.get.Found?
      modifies this`inner, this`clock, this`builds, hook
      ensures hook == old(hook)
      ensures MayEvict(CHILD_CLIENT_CACHE_CAP, old(inner), r.key, victim)
      ensures State() == Inserted(hook != null, old(State()), r, kubeconfig, old(clock) + elapsed, victim)
      ensures child == Client(old(builds), r.key, VersionOf(r.get), r.dataKey, kubeconfig)
      ensures r.key in inner && child == inner[r.key].client && inner[r.key].resourceVersion == VersionOf(r.get)
    {
      var rv := VersionOf(r.get);
      child := Client(builds, r.key, rv, r.dataKey, kubeconfig);
      builds := builds + 1;
      var evicted: Option<CacheKey> := None;
      if |inner| >= CHILD_CLIENT_CACHE_CAP && r.key !in inner {
        evicted := LeastRecentlyUsed();
      }
      victim := evicted;
      if evicted.Some? {
        inner := inner - {evicted.value};
      }
      var replaced := r.key in inner;
      var now := Now(elapsed);
      inner := inner[r.key := CachedEntry(child, rv, now)];
      if hook != null {
        if evicted.Some? {
          hook.OnChildEvicted(evicted.value);
        }
        if replaced {
          hook.OnChildEvicted(r.key);
        }
        hook.OnChildResolved(r.key, child);
      }
    }

    /**
     An explicit Secret fails closed; otherwise the `<clusterName>-kubeconfig` Secret is tried, and
     only its absence falls back to the management client.
     */
    method Resolve(namespace: Option<string>, explicitRef: Option<(string, string)>, clusterName: string,
                   get: SecretGet, elapsed: nat)
      returns (result: Result<Resolved, ResolveError>)
      modifies this`inner, this`clock, this`builds, hook
      ensures hook == old(hook)
      ensures namespace.None? ==> result == Err(NotNamespaced) && State() == old(State())
      ensures result.Ok? && result.value.Management? <==> namespace.Some? && explicitRef.None? && get.NoSecret?
      ensures namespace.Some? ==>
                var r := RequestFor(namespace.value, explicitRef, clusterName, get);
                GetLeadsTo(hook != null, old(State()), r, elapsed, State())
      ensures namespace.Some? && explicitRef.Some? && !get.Found? ==> result == Err(ChildClusterUnreachable)
      ensures namespace.Some? && explicitRef.None? && get.GetError? ==> result == Err(KubeError)
      ensures namespace.Some? && explicitRef.Some? && get.Found? ==>
                var r := Request(CacheKey(namespace.value, explicitRef.value.0), get, explicitRef.value.1, true);
                ServedFrom(old(inner), r, old(builds), result) && Keeps(old(inner), inner, r, result)
      ensures namespace.Some? && explicitRef.None? && get.Found? ==>
                var r := Request(CacheKey(namespace.value, clusterName + "-kubeconfig"), get, "value", false);
                ServedFrom(old(inner), r, old(builds), result) && Keeps(old(inner), inner, r, result)
    {
      if namespace.None? {
        return Err(NotNamespaced);
      }
      match explicitRef {
        case Some((name, dataKey)) =>
          result := BuildOrGetCached(Request(CacheKey(namespace.value, name), get, dataKey, true), elapsed);
          return;
        case None =>
      }
      var auto := CacheKey(namespace.value, clusterName + "-kubeconfig");
      result := BuildOrGetCached(Request(auto, get, "value", false), elapsed);
      if result == Err(NotFound) {
        return Ok(Management);
      }
    }
  }
}
