/**
 Sequential runs of the client cache with the watcher manager installed from the start: the cache
 is an ideal LRU cache, and it moves in lock-step with the watchers.
 */
module ChildClientRuns {
  import opened Wrappers
  import opened ChildWatch
  import opened ChildClient
  import opened RecencyLists
  import opened Text

  function Initial(clock: nat): CacheState {
    CacheState(map[], clock, 0, WatchState(map[], [], {}))
  }

  function Run(clock: nat, calls: seq<Call>): CacheState
    decreases |calls|
  {
    if |calls| == 0 then Initial(clock) else Next(Run(clock, calls[..|calls| - 1]), calls[|calls| - 1])
  }

  ghost predicate ValidRun(cap: nat, clock: nat, calls: seq<Call>)
    decreases |calls|
  {
    |calls| > 0 ==>
      && ValidRun(cap, clock, calls[..|calls| - 1])
      && ValidCall(cap, Run(clock, calls[..|calls| - 1]), calls[|calls| - 1])
  }

  // ---------------------------------------------------------------------------------------------
  // Lock-step with the watchers
  // ---------------------------------------------------------------------------------------------

  /** The watcher tracked for each cached key, and no other, runs with the very client cached for it. */
  ghost predicate Mirrors(entries: map<CacheKey, CachedEntry>, w: WatchState) {
    && Tracking(w)
    && w.tasks.Keys == entries.Keys
    && forall k :: k in entries ==> w.spawned[w.tasks[k]] == Watcher(k, entries[k].client)
  }

  /** Each cached client was built from the Secret version stored beside it. */
  ghost predicate Faithful(entries: map<CacheKey, CachedEntry>) {
    forall k :: k in entries ==>
      entries[k].client.key == k && entries[k].client.resourceVersion == entries[k].resourceVersion
  }

  /** Each build spawned one watcher, so the serial of a client tells any two builds apart. */
  ghost predicate Numbered(w: WatchState, builds: nat) {
    |w.spawned| == builds && forall i :: 0 <= i < builds ==> w.spawned[i].client.serial == i
  }

  /**
   The cached keys are the tracked keys; the watcher tracked for a key runs with the client cached
   for it; every other watcher ever spawned has been aborted; clients match their stored versions.
   */
  ghost predicate LockStep(s: CacheState) {
    Mirrors(s.entries, s.watch) && Faithful(s.entries) && Numbered(s.watch, s.builds)
  }

  lemma CancelMirrors(entries: map<CacheKey, CachedEntry>, w: WatchState, k: CacheKey)
    requires Mirrors(entries, w)
    ensures Mirrors(entries - {k}, Cancelled(w, k))
  {
    CancelledTracks(w, k);
  }

  lemma StartMirrors(entries: map<CacheKey, CachedEntry>, w: WatchState, k: CacheKey, e: CachedEntry)
    requires Mirrors(entries, w)
    ensures Mirrors(entries[k := e], Started(w, k, e.client))
  {
    CancelMirrors(entries, w, k);
    StartedTracks(w, k, e.client);
    assert entries[k := e].Keys == (entries - {k}).Keys + {k};
  }

  lemma TouchKeepsLockStep(s: CacheState, k: CacheKey, now: nat, v: CacheState)
    requires LockStep(s) && k in s.entries && v == Touch(s, k, now)
    ensures LockStep(v)
  {
    assert v.entries.Keys == s.entries.Keys;
  }

  /** Cancelling before starting is what starting does anyway. */
  lemma CancelThenStart(w: WatchState, k: CacheKey, client: Client)
    ensures Started(Cancelled(w, k), k, client) == Started(w, k, client)
  {
    assert Cancelled(Cancelled(w, k), k) == Cancelled(w, k);
  }

  function Room(entries: map<CacheKey, CachedEntry>, victim: Option<CacheKey>): map<CacheKey, CachedEntry> {
    if victim.Some? then entries - {victim.value} else entries
  }

  function RoomWatch(w: WatchState, victim: Option<CacheKey>): WatchState {
    if victim.Some? then Cancelled(w, victim.value) else w
  }

  /** The callback for a replaced entry cancels what starting the new watcher would cancel too. */
  lemma InsertParts(s: CacheState, r: Request, text: string, now: nat, victim: Option<CacheKey>)
    requires r.get.Found? && Mirrors(s.entries, s.watch)
    ensures var e := CachedEntry(Client(s.builds, r.key, VersionOf(r.get), r.dataKey, text), VersionOf(r.get), now);
            var v := Insert(s, r, text, now, victim);
            && v.entries == Room(s.entries, victim)[r.key := e]
            && v.watch == Started(RoomWatch(s.watch, victim), r.key, e.client)
            && v.builds == s.builds + 1
  {
    var client := Client(s.builds, r.key, VersionOf(r.get), r.dataKey, text);
    CancelThenStart(RoomWatch(s.watch, victim), r.key, client);
  }

  lemma StartNumbers(w: WatchState, builds: nat, k: CacheKey, client: Client)
    requires Numbered(w, builds) && client.serial == builds
    ensures Numbered(Started(w, k, client), builds + 1)
  {
  }

  lemma InsertKeepsLockStep(s: CacheState, r: Request, text: string, now: nat, victim: Option<CacheKey>, v: CacheState)
    requires LockStep(s) && r.get.Found? && v == Insert(s, r, text, now, victim)
    ensures LockStep(v)
  {
    var rv := VersionOf(r.get);
    var e := CachedEntry(Client(s.builds, r.key, rv, r.dataKey, text), rv, now);
    var room, w := Room(s.entries, victim), RoomWatch(s.watch, victim);
    if victim.Some? {
      CancelMirrors(s.entries, s.watch, victim.value);
    }
    StartMirrors(room, w, r.key, e);
    StartNumbers(w, s.builds, r.key, e.client);
    FaithfulInsert(s.entries, victim, r.key, e);
    InsertParts(s, r, text, now, victim);
  }

  lemma FaithfulInsert(entries: map<CacheKey, CachedEntry>, victim: Option<CacheKey>, k: CacheKey, e: CachedEntry)
    requires Faithful(entries) && e.client.key == k && e.client.resourceVersion == e.resourceVersion
    ensures Faithful(Room(entries, victim)[k := e])
  {
  }

  lemma GetKeepsLockStep(s: CacheState, r: Request, now: nat, victim: Option<CacheKey>, v: CacheState)
    requires LockStep(s)
    requires match LookUp(s.entries, r)
             case Hit => r.key in s.entries && v == Touch(s, r.key, now)
             case Build(text) => r.get.Found? && v == Insert(s, r, text, now, victim)
             case Fail => v == s
    ensures LockStep(v)
  {
    match LookUp(s.entries, r)
    case Hit => TouchKeepsLockStep(s, r.key, now, v);
    case Build(text) => InsertKeepsLockStep(s, r, text, now, victim, v);
    case Fail =>
  }

  lemma CallKeepsLockStep(s: CacheState, c: Call, v: CacheState)
    requires LockStep(s) && v == Next(s, c)
    ensures LockStep(v)
  {
    match c.op
    case Get(r) => GetKeepsLockStep(s, r, s.clock + c.elapsed, c.victim, v);
    case Peek(k) =>
      if k in s.entries {
        TouchKeepsLockStep(s, k, s.clock + c.elapsed, v);
      }
    case Evict(k) =>
      if k in s.entries {
        CancelMirrors(s.entries, s.watch, k);
      }
  }

  /** Only a build adds a key, and it does so after making room for it. */
  lemma CallKeepsSize(cap: nat, s: CacheState, c: Call)
    requires cap > 0 && |s.entries| <= cap && ValidCall(cap, s, c)
    ensures |Next(s, c).entries| <= cap
  {
    hide Next;
    hide LookUp;
    CallKeys(s, c);
    var v := Next(s, c);
    assert |v.entries| == |v.entries.Keys| && |s.entries| == |s.entries.Keys|;
    if c.op.Get? && LookUp(s.entries, c.op.request).Build? {
      RoomSize(cap, s.entries, c.op.request.key, c.victim, v.entries);
    } else {
      SubsetSize(v.entries.Keys, s.entries.Keys);
    }
  }

  /** The keys a call leaves. */
  lemma CallKeys(s: CacheState, c: Call)
    ensures var keys := Next(s, c).entries.Keys;
            if c.op.Get? && LookUp(s.entries, c.op.request).Build?
            then keys == Room(s.entries, c.victim).Keys + {c.op.request.key}
            else keys <= s.entries.Keys
  {
    hide Cancelled;
    hide Started;
  }

  lemma {:induction false} SubsetSize(small: set<CacheKey>, large: set<CacheKey>)
    requires small <= large
    ensures |small| <= |large|
  {
    assert large == small + (large - small);
  }

  lemma RoomSize(cap: nat, entries: map<CacheKey, CachedEntry>, k: CacheKey, victim: Option<CacheKey>,
                 after: map<CacheKey, CachedEntry>)
    requires cap > 0 && |entries| <= cap && MayEvict(cap, entries, k, victim)
    requires after.Keys == Room(entries, victim).Keys + {k}
    ensures |after| <= cap
  {
    assert |entries| == |entries.Keys| && |after| == |after.Keys|;
    if victim.Some? {
      assert Room(entries, victim).Keys == entries.Keys - {victim.value};
    } else if k in entries {
      assert after.Keys == entries.Keys;
    } else {
      assert entries == map[] ==> |entries| == 0;
    }
  }

  /**
   Cache and watchers agree after every call of every sequential run, evictions included, and the cache
   never outgrows its cap. No assumption about the clock.
   */
  lemma {:induction false} CacheAndWatchersInLockStep(cap: nat, clock: nat, calls: seq<Call>)
    requires ValidRun(cap, clock, calls)
    ensures LockStep(Run(clock, calls))
    ensures cap > 0 ==> |Run(clock, calls).entries| <= cap
    decreases |calls|
  {
    if |calls| > 0 {
      var init, c := calls[..|calls| - 1], calls[|calls| - 1];
      CacheAndWatchersInLockStep(cap, clock, init);
      CallKeepsLockStep(Run(clock, init), c, Run(clock, calls));
      if cap > 0 {
        CallKeepsSize(cap, Run(clock, init), c);
      }
    }
  }

  // ---------------------------------------------------------------------------------------------
  // The ideal LRU cache: a list of keys, most recently used first
  // ---------------------------------------------------------------------------------------------

  function IdealNext(cap: nat, keys: seq<CacheKey>, s: CacheState, op: Op): seq<CacheKey> {
    match op
    case Evict(k) => Without(keys, k)
    case _ =>
      match Touched(s, op)
      case Some(k) => MoveToFront(cap, keys, k)
      case None => keys
  }

  function IdealRun(cap: nat, clock: nat, calls: seq<Call>): seq<CacheKey>
    decreases |calls|
  {
    if |calls| == 0 then []
    else
      var init := calls[..|calls| - 1];
      IdealNext(cap, IdealRun(cap, clock, init), Run(clock, init), calls[|calls| - 1].op)
  }

  function Times(entries: map<CacheKey, CachedEntry>): map<CacheKey, nat> {
    map k | k in entries :: entries[k].lastUsed
  }

  /** The cache holds the keys of the list, and no key stands behind one that was used earlier. */
  ghost predicate Agrees(cap: nat, s: CacheState, keys: seq<CacheKey>) {
    && OrderedBy(cap, Times(s.entries), keys)
    && (forall k :: k in s.entries ==> s.entries[k].lastUsed <= s.clock)
  }

  /** Two entries share the oldest instant of last use, so eviction may pick either. */
  ghost predicate TiedOldest(entries: map<CacheKey, CachedEntry>) {
    exists j, k :: j != k && Oldest(entries, j) && Oldest(entries, k)
  }

  /** The call evicts for capacity and meets such a tie. */
  ghost predicate MeetsTie(cap: nat, s: CacheState, c: Call) {
    && c.op.Get? && LookUp(s.entries, c.op.request).Build?
    && c.op.request.key !in s.entries && |s.entries| >= cap
    && TiedOldest(s.entries)
  }

  lemma TouchAgrees(cap: nat, s: CacheState, keys: seq<CacheKey>, k: CacheKey, now: nat)
    requires cap > 0 && Agrees(cap, s, keys) && k in s.entries && now >= s.clock
    ensures Agrees(cap, Touch(s, k, now), MoveToFront(cap, keys, k))
  {
    MoveToFrontMembers(cap, keys, k);
    assert k in Times(s.entries);
    UseOrders(cap, Times(s.entries), keys, k, now, Times(Touch(s, k, now).entries));
  }

  lemma InsertAgrees(cap: nat, s: CacheState, keys: seq<CacheKey>, r: Request, text: string, now: nat,
                     victim: Option<CacheKey>)
    requires cap > 0 && r.get.Found?
    requires Agrees(cap, s, keys) && MayEvict(cap, s.entries, r.key, victim) && now >= s.clock
    requires victim.Some? ==> |keys| > 0 && victim.value == keys[|keys| - 1]
    ensures Agrees(cap, Insert(s, r, text, now, victim), MoveToFront(cap, keys, r.key))
  {
    hide Cancelled;
    hide Started;
    hide MoveToFront;
    var times := Times(s.entries);
    assert times.Keys == s.entries.Keys;
    DistinctSize(keys, times.Keys);
    MoveToFrontMembers(cap, keys, r.key);
    InsertedTimes(s, r, text, now, victim);
    UseOrders(cap, times, keys, r.key, now, Times(Insert(s, r, text, now, victim).entries));
  }

  lemma InsertedTimes(s: CacheState, r: Request, text: string, now: nat, victim: Option<CacheKey>)
    requires r.get.Found?
    ensures Times(Insert(s, r, text, now, victim).entries) ==
            (if victim.Some? then Times(s.entries) - {victim.value} else Times(s.entries))[r.key := now]
  {
  }

  /** A full list and the cache it describes are of one size. */
  lemma AgreesSize(cap: nat, s: CacheState, keys: seq<CacheKey>)
    requires Agrees(cap, s, keys)
    ensures |s.entries| == |keys| <= cap
  {
    assert Times(s.entries).Keys == s.entries.Keys;
    DistinctSize(keys, s.entries.Keys);
  }

  /** Without a tie the only permitted victim is the last key of the list. */
  lemma VictimIsLast(cap: nat, s: CacheState, keys: seq<CacheKey>, k: CacheKey, victim: CacheKey)
    requires cap > 0 && Agrees(cap, s, keys) && MayEvict(cap, s.entries, k, Some(victim)) && !TiedOldest(s.entries)
    ensures |keys| == cap && victim == keys[cap - 1]
  {
    var times := Times(s.entries);
    AgreesSize(cap, s, keys);
    forall j | j in times && times[j] <= times[victim] ensures j == victim {
      assert Oldest(s.entries, j) && Oldest(s.entries, victim);
    }
    OldestIsLast(cap, times, keys, victim);
  }

  lemma EvictAgrees(cap: nat, s: CacheState, keys: seq<CacheKey>, k: CacheKey, watch: WatchState)
    requires Agrees(cap, s, keys)
    ensures Agrees(cap, s.(entries := s.entries - {k}, watch := watch), Without(keys, k))
  {
    RemovalOrders(cap, Times(s.entries), keys, k);
    assert Times(s.entries - {k}) == Times(s.entries) - {k};
  }

  lemma GetAgrees(cap: nat, s: CacheState, keys: seq<CacheKey>, r: Request, now: nat, victim: Option<CacheKey>,
                  v: CacheState, moved: seq<CacheKey>)
    requires cap > 0 && Agrees(cap, s, keys) && now >= s.clock
    requires match LookUp(s.entries, r)
             case Hit => r.key in s.entries && v == Touch(s, r.key, now)
             case Build(text) =>
               && r.get.Found? && v == Insert(s, r, text, now, victim) && MayEvict(cap, s.entries, r.key, victim)
               && (victim.Some? ==> !TiedOldest(s.entries))
             case Fail => v == s
    requires moved == if LookUp(s.entries, r).Fail? then keys else MoveToFront(cap, keys, r.key)
    ensures Agrees(cap, v, moved)
  {
    match LookUp(s.entries, r)
    case Hit => TouchAgrees(cap, s, keys, r.key, now);
    case Build(text) =>
      if victim.Some? {
        VictimIsLast(cap, s, keys, r.key, victim.value);
      }
      InsertAgrees(cap, s, keys, r, text, now, victim);
    case Fail =>
  }

  lemma EvictCallAgrees(cap: nat, s: CacheState, keys: seq<CacheKey>, k: CacheKey, v: CacheState)
    requires Agrees(cap, s, keys) && v.clock == s.clock && v.entries == s.entries - {k}
    ensures Agrees(cap, v, Without(keys, k))
  {
    EvictAgrees(cap, s, keys, k, v.watch);
  }

  lemma CallAgrees(cap: nat, s: CacheState, keys: seq<CacheKey>, c: Call, v: CacheState)
    requires cap > 0 && Agrees(cap, s, keys) && ValidCall(cap, s, c) && !MeetsTie(cap, s, c) && v == Next(s, c)
    ensures Agrees(cap, v, IdealNext(cap, keys, s, c.op))
  {
    hide Insert;
    hide Touch;
    hide MoveToFront;
    hide Without;
    hide Cancelled;
    hide TiedOldest;
    match c.op
    case Get(r) => GetAgrees(cap, s, keys, r, s.clock + c.elapsed, c.victim, v, IdealNext(cap, keys, s, c.op));
    case Peek(k) =>
      if k in s.entries {
        TouchAgrees(cap, s, keys, k, s.clock + c.elapsed);
      }
    case Evict(k) =>
      EvictCallAgrees(cap, s, keys, k, v);
  }

  /** No capacity eviction of the run meets a tie for the oldest entry. */
  ghost predicate NoTies(cap: nat, clock: nat, calls: seq<Call>)
    decreases |calls|
  {
    |calls| > 0 ==>
      var init := calls[..|calls| - 1];
      NoTies(cap, clock, init) && !MeetsTie(cap, Run(clock, init), calls[|calls| - 1])
  }

  /** Without such ties the cache is the ideal LRU list after every run, explicit evictions included. */
  lemma {:induction false} CacheRefinesLru(cap: nat, clock: nat, calls: seq<Call>)
    requires cap > 0 && ValidRun(cap, clock, calls) && NoTies(cap, clock, calls)
    ensures Agrees(cap, Run(clock, calls), IdealRun(cap, clock, calls))
    decreases |calls|
  {
    if |calls| > 0 {
      var init, c := calls[..|calls| - 1], calls[|calls| - 1];
      CacheRefinesLru(cap, clock, init);
      CallAgrees(cap, Run(clock, init), IdealRun(cap, clock, init), c, Run(clock, calls));
    }
  }

  // ---------------------------------------------------------------------------------------------
  // Exactly when the cache is an LRU cache
  // ---------------------------------------------------------------------------------------------

  /** The calls of a run as far as `alt` goes, with ties possibly broken the other way. */
  ghost predicate Retells(alt: seq<Call>, calls: seq<Call>) {
    && |alt| <= |calls|
    && forall i :: 0 <= i < |alt| ==> alt[i].op == calls[i].op && alt[i].elapsed == calls[i].elapsed
  }

  ghost predicate HoldsIdeal(cap: nat, clock: nat, calls: seq<Call>) {
    forall k :: k in Run(clock, calls).entries <==> k in IdealRun(cap, clock, calls)
  }

  /** The victim of a call is settled unless the call meets a tie. */
  lemma VictimIsSettled(cap: nat, s: CacheState, c: Call, d: Call)
    requires ValidCall(cap, s, c) && ValidCall(cap, s, d) && c.op == d.op && c.elapsed == d.elapsed
    ensures c == d || MeetsTie(cap, s, c)
  {
    if c != d {
      assert Oldest(s.entries, c.victim.value) && Oldest(s.entries, d.victim.value);
    }
  }

  lemma {:induction false} RetellingIsPrefix(cap: nat, clock: nat, calls: seq<Call>, alt: seq<Call>)
    requires ValidRun(cap, clock, calls) && NoTies(cap, clock, calls)
    requires Retells(alt, calls) && ValidRun(cap, clock, alt)
    ensures alt == calls[..|alt|] && NoTies(cap, clock, alt)
    decreases |calls| + |alt|
  {
    hide Run;
    hide MeetsTie;
    hide ValidCall;
    if |alt| < |calls| {
      var init := calls[..|calls| - 1];
      RetellingIsPrefix(cap, clock, init, alt);
      assert init[..|alt|] == calls[..|alt|];
    } else if |alt| > 0 {
      var n := |calls| - 1;
      var init, altInit := calls[..n], alt[..n];
      RetellingIsPrefix(cap, clock, init, altInit);
      assert init[..n] == init;
      VictimIsSettled(cap, Run(clock, init), calls[n], alt[n]);
      assert alt == altInit + [alt[n]] && calls == init + [calls[n]];
    } else {
      assert alt == [];
    }
  }

  /** At a tie one of the permitted victims is not the last key of the list; evicting it departs from the list. */
  lemma TieDeparts(cap: nat, clock: nat, init: seq<Call>, c: Call) returns (alt: seq<Call>)
    requires cap > 0 && ValidRun(cap, clock, init) && NoTies(cap, clock, init) && MeetsTie(cap, Run(clock, init), c)
    ensures |alt| == |init| + 1 && alt[..|init|] == init
    ensures alt[|init|].op == c.op && alt[|init|].elapsed == c.elapsed
    ensures ValidRun(cap, clock, alt) && !HoldsIdeal(cap, clock, alt)
  {
    var s, keys := Run(clock, init), IdealRun(cap, clock, init);
    CacheRefinesLru(cap, clock, init);
    AgreesSize(cap, s, keys);
    var last := keys[cap - 1];
    var j, k :| j != k && Oldest(s.entries, j) && Oldest(s.entries, k);
    var victim := if j != last then j else k;
    alt := init + [c.(victim := Some(victim))];
    assert alt[..|init|] == init;
    var key := c.op.request.key;
    MoveToFrontMembers(cap, keys, key);
    assert last in Times(s.entries);
    assert last in Run(clock, alt).entries && last !in IdealRun(cap, clock, alt);
  }

  lemma {:induction false} SomeTieDeparts(cap: nat, clock: nat, calls: seq<Call>) returns (alt: seq<Call>)
    requires cap > 0 && ValidRun(cap, clock, calls) && !NoTies(cap, clock, calls)
    ensures Retells(alt, calls) && ValidRun(cap, clock, alt) && !HoldsIdeal(cap, clock, alt)
    decreases |calls|
  {
    var init := calls[..|calls| - 1];
    if NoTies(cap, clock, init) {
      alt := TieDeparts(cap, clock, init, calls[|calls| - 1]);
      forall i | 0 <= i < |init| ensures alt[i] == calls[i] {
        assert alt[..|init|][i] == init[i];
      }
    } else {
      alt := SomeTieDeparts(cap, clock, init);
    }
  }

  /**
   The cache holds the ideal LRU list at every point of a run, however its ties are broken, if and only
   if no capacity eviction of the run meets a tie for the oldest entry.
   */
  lemma LruIff(cap: nat, clock: nat, calls: seq<Call>)
    requires cap > 0 && ValidRun(cap, clock, calls)
    ensures NoTies(cap, clock, calls) <==>
            forall alt :: Retells(alt, calls) && ValidRun(cap, clock, alt) ==> HoldsIdeal(cap, clock, alt)
  {
    if NoTies(cap, clock, calls) {
      forall alt | Retells(alt, calls) && ValidRun(cap, clock, alt) ensures HoldsIdeal(cap, clock, alt) {
        RetellingIsPrefix(cap, clock, calls, alt);
        CacheRefinesLru(cap, clock, alt);
        assert Times(Run(clock, alt).entries).Keys == Run(clock, alt).entries.Keys;
      }
    } else {
      var alt := SomeTieDeparts(cap, clock, calls);
    }
  }

  // ---------------------------------------------------------------------------------------------
  // A clock that ticks
  // ---------------------------------------------------------------------------------------------

  /** Every call that reads the clock reads a later instant than the calls before it. */
  ghost predicate ClockTicks(calls: seq<Call>) {
    forall c :: c in calls ==> c.elapsed > 0
  }

  ghost predicate InstantsDiffer(s: CacheState) {
    && (forall k :: k in s.entries ==> s.entries[k].lastUsed <= s.clock)
    && forall j, k :: j in s.entries && k in s.entries && s.entries[j].lastUsed == s.entries[k].lastUsed ==> j == k
  }

  lemma TickKeepsDiffering(s: CacheState, c: Call)
    requires InstantsDiffer(s) && c.elapsed > 0
    ensures InstantsDiffer(Next(s, c))
  {
  }

  /** A clock that ticks at every call meets no ties. */
  lemma {:induction false} TickingClockHasNoTies(cap: nat, clock: nat, calls: seq<Call>)
    requires ClockTicks(calls)
    ensures InstantsDiffer(Run(clock, calls)) && NoTies(cap, clock, calls)
    decreases |calls|
  {
    if |calls| > 0 {
      var init, c := calls[..|calls| - 1], calls[|calls| - 1];
      assert c in calls;
      TickingClockHasNoTies(cap, clock, init);
      TickKeepsDiffering(Run(clock, init), c);
    }
  }

  // ---------------------------------------------------------------------------------------------
  // The ideal LRU content, read off the full history of uses
  // ---------------------------------------------------------------------------------------------

  /** The keys used in a run, in order: hits, builds, rebuilds and successful peeks. */
  function Uses(clock: nat, calls: seq<Call>): seq<CacheKey>
    decreases |calls|
  {
    if |calls| == 0 then []
    else
      var init := calls[..|calls| - 1];
      match Touched(Run(clock, init), calls[|calls| - 1].op)
      case Some(k) => Uses(clock, init) + [k]
      case None => Uses(clock, init)
  }

  ghost predicate NoExplicitEvict(calls: seq<Call>) {
    forall c :: c in calls ==> !c.op.Evict?
  }

  lemma {:induction false} IdealIsRecency(cap: nat, clock: nat, calls: seq<Call>)
    requires cap > 0 && NoExplicitEvict(calls)
    ensures IdealRun(cap, clock, calls) == Truncate(cap, Recency(Uses(clock, calls)))
    decreases |calls|
  {
    if |calls| > 0 {
      var init, c := calls[..|calls| - 1], calls[|calls| - 1];
      assert c in calls;
      IdealIsRecency(cap, clock, init);
      var uses := Uses(clock, init);
      RecencyDistinct(uses);
      match Touched(Run(clock, init), c.op)
      case Some(k) =>
        assert (uses + [k])[..|uses|] == uses;
        TruncateCommutes(cap, Recency(uses), k);
      case None =>
    }
  }

  /**
   After any sequential run without explicit evicts and without ties the cache holds exactly the keys
   among the `cap` most recently used ones, so never more than `cap`.
   */
  lemma CacheHoldsMostRecent(cap: nat, clock: nat, calls: seq<Call>)
    requires cap > 0 && ValidRun(cap, clock, calls) && NoTies(cap, clock, calls) && NoExplicitEvict(calls)
    ensures |Run(clock, calls).entries| <= cap && HoldsMostRecent(cap, clock, calls)
  {
    CacheRefinesLru(cap, clock, calls);
    AgreesSize(cap, Run(clock, calls), IdealRun(cap, clock, calls));
    assert Times(Run(clock, calls).entries).Keys == Run(clock, calls).entries.Keys;
    IdealIsMostRecent(cap, clock, calls);
  }

  ghost predicate HoldsMostRecent(cap: nat, clock: nat, calls: seq<Call>) {
    forall k :: k in Run(clock, calls).entries <==> AmongMostRecent(cap, Uses(clock, calls), k)
  }

  lemma IdealIsMostRecent(cap: nat, clock: nat, calls: seq<Call>)
    requires cap > 0 && NoExplicitEvict(calls)
    ensures HoldsIdeal(cap, clock, calls) <==> HoldsMostRecent(cap, clock, calls)
  {
    IdealIsRecency(cap, clock, calls);
    forall k ensures k in IdealRun(cap, clock, calls) <==> AmongMostRecent(cap, Uses(clock, calls), k) {
      AmongMostRecentIff(cap, Uses(clock, calls), k);
    }
  }

  /** The same read off the full history of uses: the most recent keys, however ties are broken, iff no ties. */
  lemma MostRecentIff(cap: nat, clock: nat, calls: seq<Call>)
    requires cap > 0 && ValidRun(cap, clock, calls) && NoExplicitEvict(calls)
    ensures NoTies(cap, clock, calls) <==>
            forall alt :: Retells(alt, calls) && ValidRun(cap, clock, alt) ==> HoldsMostRecent(cap, clock, alt)
  {
    LruIff(cap, clock, calls);
    forall alt | Retells(alt, calls)
      ensures HoldsIdeal(cap, clock, alt) <==> HoldsMostRecent(cap, clock, alt)
    {
      assert forall c :: c in alt ==> exists i :: 0 <= i < |alt| && alt[i] == c && calls[i] in calls;
      IdealIsMostRecent(cap, clock, alt);
    }
  }

  // ---------------------------------------------------------------------------------------------
  // Which data key a hit returns
  // ---------------------------------------------------------------------------------------------

  /** The data key that the last build for a Secret used. */
  function LastBuilt(clock: nat, calls: seq<Call>, k: CacheKey): Option<string>
    decreases |calls|
  {
    if |calls| == 0 then None
    else
      var init, op := calls[..|calls| - 1], calls[|calls| - 1].op;
      if op.Get? && op.request.key == k && LookUp(Run(clock, init).entries, op.request).Build?
      then Some(op.request.dataKey)
      else LastBuilt(clock, init, k)
  }

  lemma CallKeepsClient(s: CacheState, c: Call, k: CacheKey)
    requires k in Next(s, c).entries
    ensures var client := Next(s, c).entries[k].client;
            if c.op.Get? && c.op.request.key == k && LookUp(s.entries, c.op.request).Build?
            then client.dataKey == c.op.request.dataKey
            else k in s.entries && client == s.entries[k].client
  {
    hide Cancelled;
    hide Started;
  }

  lemma {:induction false} CachedIsLastBuilt(clock: nat, calls: seq<Call>, k: CacheKey)
    requires k in Run(clock, calls).entries
    ensures LastBuilt(clock, calls, k) == Some(Run(clock, calls).entries[k].client.dataKey)
    decreases |calls|
  {
    if |calls| > 0 {
      hide Next;
      hide LookUp;
      var init, c := calls[..|calls| - 1], calls[|calls| - 1];
      CallKeepsClient(Run(clock, init), c, k);
      if k in Run(clock, init).entries {
        CachedIsLastBuilt(clock, init, k);
      }
    }
  }

  /**
   In every run a hit returns a client built from the data key it asks for if and only if the last build
   for that Secret used that key: the cache does not tell data keys apart.
   */
  lemma HitHasRequestedKeyIff(clock: nat, calls: seq<Call>, r: Request)
    requires LookUp(Run(clock, calls).entries, r) == Hit
    ensures Run(clock, calls).entries[r.key].client.dataKey == r.dataKey <==>
            LastBuilt(clock, calls, r.key) == Some(r.dataKey)
  {
    CachedIsLastBuilt(clock, calls, r.key);
  }

  /** One build for one data key, and a hit for another that the Secret does not even hold. */
  lemma HitForAnotherKey(k: CacheKey)
    ensures var get := Found(Some("7"), map["admin" := RawKubeconfig("", None)]);
            var calls := [Call(Get(Request(k, get, "admin", true)), 1, None)];
            var r := Request(k, get, "viewer", true);
            && ValidRun(CHILD_CLIENT_CACHE_CAP, 0, calls)
            && LookUp(Run(0, calls).entries, r) == Hit
            && Run(0, calls).entries[k].client.dataKey == "admin" != r.dataKey
  {
    var get := Found(Some("7"), map["admin" := RawKubeconfig("", None)]);
    var c := Call(Get(Request(k, get, "admin", true)), 1, None);
    assert [c][..0] == [];
    assert Run(0, []) == Initial(0);
    assert LookUp(map[], c.op.request) == Build("");
    assert Run(0, [c]) == Next(Initial(0), c);
    assert "admin"[0] != "viewer"[0];
  }

  // ---------------------------------------------------------------------------------------------
  // Rotated credentials
  // ---------------------------------------------------------------------------------------------

  /** When the Secret's version is another one by now and its data is usable, a new client takes over. */
  lemma RotationRebuilds(s: CacheState, c: Call, rv: string)
    requires c.op.Get? && c.op.request.get.Found? && c.op.request.get.resourceVersion == Some(rv)
    requires var r := c.op.request; r.key in s.entries ==> s.entries[r.key].resourceVersion != rv
    requires var r := c.op.request; r.dataKey in r.get.data && r.get.data[r.dataKey].defect.None?
    ensures var r, v := c.op.request, Next(s, c);
            && v.builds == s.builds + 1 && r.key in v.entries
            && v.entries[r.key].resourceVersion == rv
            && v.entries[r.key].client == Client(s.builds, r.key, rv, r.dataKey, r.get.data[r.dataKey].text)
  {
    hide Cancelled;
    hide Started;
  }

  /** The call read the Secret that the entry was built from: same key, same version, same text. */
  ghost predicate ReadFor(c: Call, k: CacheKey, e: CachedEntry) {
    && c.op.Get? && c.op.request.key == k && c.op.request.get.Found?
    && c.op.request.get.resourceVersion == Some(e.resourceVersion)
    && e.client.dataKey in c.op.request.get.data
    && c.op.request.get.data[e.client.dataKey].text == e.client.kubeconfig
  }

  /** Every Secret read carries a version. */
  ghost predicate Versioned(calls: seq<Call>) {
    forall c :: c in calls && c.op.Get? && c.op.request.get.Found? ==> c.op.request.get.resourceVersion.Some?
  }

  /** Two reads of one Secret at one version give the same data. */
  ghost predicate VersionsNameContents(calls: seq<Call>) {
    forall c, d :: c in calls && d in calls && SameVersion(c.op, d.op) ==>
      c.op.request.get.data == d.op.request.get.data
  }

  predicate SameVersion(a: Op, b: Op) {
    && a.Get? && b.Get? && a.request.key == b.request.key
    && a.request.get.Found? && b.request.get.Found?
    && a.request.get.resourceVersion == b.request.get.resourceVersion
  }

  lemma EntryAfterCall(s: CacheState, c: Call, k: CacheKey)
    requires k in Next(s, c).entries
    requires c.op.Get? && c.op.request.get.Found? ==> c.op.request.get.resourceVersion.Some?
    ensures var e := Next(s, c).entries[k];
            || ReadFor(c, k, e)
            || (k in s.entries && e == s.entries[k].(lastUsed := e.lastUsed))
  {
    hide Cancelled;
    hide Started;
  }

  /** Every cached client was built from a Secret that some call of the run read. */
  lemma {:induction false} CachedWasRead(clock: nat, calls: seq<Call>, k: CacheKey) returns (c: Call)
    requires Versioned(calls) && k in Run(clock, calls).entries
    ensures c in calls && ReadFor(c, k, Run(clock, calls).entries[k])
    decreases |calls|
  {
    hide Next;
    var init, last := calls[..|calls| - 1], calls[|calls| - 1];
    var s, e := Run(clock, init), Run(clock, calls).entries[k];
    assert last in calls;
    EntryAfterCall(s, last, k);
    if ReadFor(last, k, e) {
      c := last;
    } else {
      c := CachedWasRead(clock, init, k);
    }
  }

  /**
   No stale credentials: as long as a version names its contents, whatever a request is served after any run,
   hit or new, was built from the very text that the Secret just read holds under the client's data key.
   */
  lemma ServesCurrentCredentials(clock: nat, calls: seq<Call>, c: Call)
    requires Versioned(calls + [c]) && VersionsNameContents(calls + [c])
    requires c.op.Get? && c.op.request.get.Found? && !LookUp(Run(clock, calls).entries, c.op.request).Fail?
    ensures var r, v := c.op.request, Next(Run(clock, calls), c);
            && r.key in v.entries
            && r.get.resourceVersion == Some(v.entries[r.key].resourceVersion)
            && v.entries[r.key].client.dataKey in r.get.data
            && r.get.data[v.entries[r.key].client.dataKey].text == v.entries[r.key].client.kubeconfig
  {
    var more := calls + [c];
    assert more[..|calls|] == calls && more[|calls|] == c && c in more;
    ServedEntry(Run(clock, calls), c);
    var k := c.op.request.key;
    hide Next;
    hide LookUp;
    var b := CachedWasRead(clock, more, k);
    assert SameVersion(b.op, c.op);
  }

  lemma ServedEntry(s: CacheState, c: Call)
    requires c.op.Get? && c.op.request.get.Found? && c.op.request.get.resourceVersion.Some?
    requires !LookUp(s.entries, c.op.request).Fail?
    ensures var r, v := c.op.request, Next(s, c);
            r.key in v.entries && r.get.resourceVersion == Some(v.entries[r.key].resourceVersion)
  {
    hide Cancelled;
    hide Started;
  }

  // ---------------------------------------------------------------------------------------------
  // A tie at the source's own cap
  // ---------------------------------------------------------------------------------------------

  function NthKey(i: nat): CacheKey {
    CacheKey("default", Print(i))
  }

  lemma NthKeysDiffer(i: nat, j: nat)
    ensures NthKey(i) == NthKey(j) ==> i == j
  {
    PrintValue(i);
    PrintValue(j);
  }

  function NthKeys(n: nat): set<CacheKey> {
    if n == 0 then {} else NthKeys(n - 1) + {NthKey(n - 1)}
  }

  lemma {:induction false} NthKeysHold(n: nat, j: nat)
    ensures NthKey(j) in NthKeys(n) <==> j < n
  {
    if n > 0 {
      NthKeysHold(n - 1, j);
      NthKeysDiffer(n - 1, j);
    }
  }

  lemma {:induction false} NthKeysSize(n: nat)
    ensures |NthKeys(n)| == n
  {
    if n > 0 {
      NthKeysSize(n - 1);
      NthKeysHold(n - 1, n - 1);
    }
  }

  function FirstKeys(n: nat): seq<CacheKey> {
    seq(n, i requires 0 <= i < n => NthKey(i))
  }

  lemma KeysSnoc(n: nat)
    ensures FirstKeys(n + 1) == FirstKeys(n) + [NthKey(n)]
  {
  }

  /** A run that has built one client after the other, all at one instant. */
  ghost predicate BuiltAtOnce(calls: seq<Call>, n: nat) {
    && ValidRun(CHILD_CLIENT_CACHE_CAP, 0, calls) && NoExplicitEvict(calls)
    && Uses(0, calls) == FirstKeys(n)
    && Run(0, calls).clock == 0 && Run(0, calls).entries.Keys == NthKeys(n)
    && AllUsedAt(Run(0, calls).entries, 0)
  }

  ghost predicate AllUsedAt(entries: map<CacheKey, CachedEntry>, at: nat) {
    forall k :: k in entries ==> entries[k].lastUsed == at
  }

  lemma BuildNth(calls: seq<Call>, n: nat) returns (more: seq<Call>)
    requires n < CHILD_CLIENT_CACHE_CAP && BuiltAtOnce(calls, n)
    ensures BuiltAtOnce(more, n + 1)
  {
    hide NthKey;
    hide Run;
    hide ValidRun;
    hide Uses;
    hide FirstKeys;
    var entries := Run(0, calls).entries;
    NthKeysSize(n);
    assert |entries| == |entries.Keys|;
    NthKeysHold(n, n);
    KeysSnoc(n);
    more := BuildAgain(CHILD_CLIENT_CACHE_CAP, 0, calls, NthKey(n), None);
  }

  lemma {:induction false} BuildMany(n: nat) returns (calls: seq<Call>)
    requires n <= CHILD_CLIENT_CACHE_CAP
    ensures BuiltAtOnce(calls, n)
  {
    if n == 0 {
      calls := [];
      assert Run(0, []).entries == map[];
    } else {
      calls := BuildMany(n - 1);
      calls := BuildNth(calls, n - 1);
    }
  }

  /**
   A tie may go to the newer entry: of 257 clients built in turn at one instant, the cache of 256 may
   keep the first and drop the last but one.
   */
  lemma TieMayDropTheNewer() returns (calls: seq<Call>)
    ensures ValidRun(256, 0, calls) && NoExplicitEvict(calls) && Uses(0, calls) == FirstKeys(257)
    ensures NthKey(0) in Run(0, calls).entries && NthKey(255) !in Run(0, calls).entries
  {
    hide NthKey;
    var n := CHILD_CLIENT_CACHE_CAP;
    calls := BuildMany(n);
    var entries := Run(0, calls).entries;
    NthKeysSize(n);
    assert |entries| == |entries.Keys|;
    NthKeysHold(n, 0);
    NthKeysHold(n, n - 1);
    NthKeysHold(n, n);
    NthKeysDiffer(0, n - 1);
    NthKeysDiffer(n - 1, n);
    KeysSnoc(n);
    assert Oldest(entries, NthKey(n - 1));
    calls := BuildAgain(n, 0, calls, NthKey(n), Some(NthKey(n - 1)));
  }

  /** One more build, at the instant of the call before. */
  lemma BuildAgain(cap: nat, clock: nat, calls: seq<Call>, k: CacheKey, victim: Option<CacheKey>)
    returns (more: seq<Call>)
    requires ValidRun(cap, clock, calls) && NoExplicitEvict(calls)
    requires k !in Run(clock, calls).entries && MayEvict(cap, Run(clock, calls).entries, k, victim)
    ensures |more| == |calls| + 1 && ValidRun(cap, clock, more) && NoExplicitEvict(more)
    ensures Uses(clock, more) == Uses(clock, calls) + [k]
    ensures Run(clock, more).clock == Run(clock, calls).clock
    ensures Run(clock, more).entries.Keys == Room(Run(clock, calls).entries, victim).Keys + {k}
    ensures k in Run(clock, more).entries && Run(clock, more).entries[k].lastUsed == Run(clock, calls).clock
    ensures forall j :: j in Room(Run(clock, calls).entries, victim) ==>
                        Run(clock, more).entries[j] == Run(clock, calls).entries[j]
  {
    hide Next;
    hide MayEvict;
    var c := BuildCall(k, victim);
    more := calls + [c];
    assert more[..|calls|] == calls;
    BuildStep(Run(clock, calls), k, victim);
    hide LookUp;
    hide Insert;
  }

  function BuildCall(k: CacheKey, victim: Option<CacheKey>): Call {
    Call(Get(Request(k, Found(None, map["value" := RawKubeconfig("", None)]), "value", true)), 0, victim)
  }

  lemma BuildStep(s: CacheState, k: CacheKey, victim: Option<CacheKey>)
    requires k !in s.entries
    ensures LookUp(s.entries, BuildCall(k, victim).op.request) == Build("")
    ensures var v := Next(s, BuildCall(k, victim));
            && v.clock == s.clock && v.entries.Keys == Room(s.entries, victim).Keys + {k}
            && k in v.entries && v.entries[k].lastUsed == s.clock
            && forall j :: j in Room(s.entries, victim) ==> v.entries[j] == Room(s.entries, victim)[j]
  {
  }
}
