# Verified model of the 5-Spot controller and node agents

This project models the parts of 5-Spot where state is merged, cached, delivered or scheduled, and
proves what they promise over whole runs. `dafny verify dfyconfig.toml` checks all of it.

| files | what they model |
|---|---|
| `node_taints`, `taint_merge`, `taint_runs`, `taint_validation` | the three-way merge of a Node's taints, the spec's taints and the recorded taints; admin edits, spec edits and crashes around it; the rules for the spec's list |
| `child_watch`, `child_client`, `recency_lists`, `child_client_runs` | the bounded client cache with its resourceVersion check and the watcher per cached client |
| `kata_delivery`, `kata_agent`, `kata_runs` | the delivery of the Kata drop-in: controller stamp, agent tick, crash or failure between any two actions |
| `range_specs`, `transitions`, `providers`, `provider_runs` | the day and hour range syntax, both schedule providers, the scan for the next flip, and the requeue loop |
| `loop_protection` | the reclaim-loop deque |
| `api_calls`, `capi_objects`, `emergency` | CAPI object creation and removal, and the emergency flow, with a failure or crash at any API call |
| `durations`, `netlink_proc` | duration strings and the proc-connector wire format |
| `wrappers`, `seqs`, `text` | shared types, sequence filtering, string splitting, trimming and decimals |

Code that updates things in place is a class or an array here (`NodeObject`, `ChildNodeWatchManager`,
`ChildClientCache`, the Kata `Node`, `ScheduleObject`, `ReclaimTracker`, `Controller`, the control frame
and the receive buffer), each method proved against a function of the old state; the theorems are about
those functions, over sequences of steps of any length.

## Where the code does not do what it says

- **A crash can strand a taint.** The Node is patched before the status record. If the record is lost
  and the spec changes before the retry, a taint the controller put there is never removed, or is reported
  as somebody else's. `CrashThenSpecEdit` gives the exact condition, `OrphanedTaint` the smallest run.
- **The ownership annotation can miss the spec's taints.** A plan with nothing to change is not sent, so a
  taint that somebody else put on the Node first is adopted and reported as applied without being listed.
  `AnnotationIsCurrentIff` is the exact condition, `AdoptedTaintIsNotListed` the input.
- **The list is rebuilt from a second GET** (`src/reconcilers/helpers.rs:3426`), so the plan can be stale.
  `RaceDuplicatesIff` and `RaceOverwritesIff` say exactly when that matters, `DuplicatingRace` and
  `OverwritingRace` give the inputs.
- **Uniqueness of the spec's taints is not checked at run time**: `validate_node_taints` has no caller in
  `src/`, so it rests on the admission policy. For any spec the rebuilt list names an identity twice if and
  only if the spec names twice one that the Node does not carry (`TargetUnique`; `RepeatedTaintIsAddedTwice`
  is an input), and the reconcile settles if and only if the spec gives no identity two values
  (`ReconcileReachesFixpoint`); otherwise it can go on to conflict with its own write
  (`RepeatConflictsWithItself`).
- **Equal instants can evict the newer entry.** The cache orders by `Instant`. It is an LRU cache at every
  point of a run, however ties are broken, if and only if no capacity eviction meets two entries that share
  the oldest instant (`LruIff`, `MostRecentIff`). `TieMayDropTheNewer` is a run at the cap of 256.
- **A restart is tried at most once.** `src/kata_config_agent.rs:407-409` says an error is retried on the
  next tick, but the hash is recorded first (`src/bin/kata_config_agent.rs:247-256`). After a restart that
  never happened the next delivery restarts if and only if the content is another one by then
  (`LostRestartIsNotRetried`).
- **A stamp can be lost.** In every run a stamp is lost if and only if the tick under way when it is put on
  is a tear-down that lives to take the label off (`StampSurvivesIff`, `StampSurvivesTickIff`). The reference
  then sits on a Node without a label until the controller's next reconcile (`StampLostToTearDown`).
- **The agent's poll loop does not look at the label.** An agent that outlives its descheduling in that state
  leaves a drop-in on an unlabelled Node whenever the source has content (`UnlabelledDeliveryOrphans`).
- **A cache hit can return a client for another data key** of the same Secret, since the cache key leaves it
  out: in every run a hit returns one for the key it asks for if and only if the last build for that Secret
  used that key (`HitHasRequestedKeyIff`; `HitForAnotherKey` is an input).
- **An unreadable session blocks publishing** although the market's verdict is known now, because the scan
  ahead runs into it (`NextFlipFailsIff`, `UnreadableSessionBlocksPublishing`; `UnreadableSecondSession` is a
  market of two sessions).
- **The published next transition goes stale** once there is none (`NextTransitionIsCurrentIff`;
  `FlipOutlivesDisabling` is a schedule that is switched off).
- **A clock that steps back makes the reclaim verdict err in both directions.** The deque is the newest ten
  in-window events of the history if and only if it has no stale entry and, unless it is full, no popped event
  is back in the window (`DequeIsWindowIff`). `VerdictErrsIff` says, from the deque before the call, exactly when
  the verdict overcounts and when it undercounts; `SteppedBackClockOvercounts` and `SteppedBackClockUndercounts` are inputs. The source
  assumes that timestamps only grow, and then neither happens (`OrderedHistoryNeverErrs`).
- **Emergency replay relies on the Node outliving its Machine.** `src/reconcilers/helpers.rs:2548-2550`
  promises a replay after a crash between the Machine delete and the schedule patch. If the Node is gone by
  then, the recovery path of `src/reconcilers/scheduled_machine.rs` finds no annotation and finishes the phase
  with the schedule still enabled (`RecoveryIsCompleteIff`, `VanishedNodeLeavesScheduleOn`).

## Model

| member | source | states |
|---|---|---|
| NodeTaints.DiffNodeTaints | src/reconcilers/helpers.rs:3298-3374 | the two loops fill the five buckets exactly as judging each spec entry and each record entry on its own does |
| NodeTaints.EffectTranslation | src/reconcilers/helpers.rs:3306-3313 | the two translations of effects agree, on the three names of the Kubernetes API |
| NodeTaints.BuildTarget | src/reconcilers/helpers.rs:3449-3477 | the rebuilt list drops what the plan removes, rewrites in place what it updates and appends what it adds |
| NodeTaints.NodeObject.ApplyPlan | src/reconcilers/helpers.rs:3411-3508 | list and ownership annotation change together or not at all, whatever becomes of the patch; a plan with nothing to change sends none |
| NodeTaints.NodeObject.Reconcile | src/reconcilers/helpers.rs:3569-3621 | the result for every reply: a failed GET or patch is an error, an absent or unready Node is deferred, conflicts win over later replies, an empty plan is applied; an applied outcome means the rebuilt list is on the Node, and every other one leaves the Node as it was, unless a patch landed and only its reply was lost |
| NodeTaints.NoopTarget | src/reconcilers/helpers.rs:3420-3423 | skipping the patch for a plan with nothing to change loses nothing |
| TaintMerge.PlanAt | src/reconcilers/helpers.rs:3337-3373 | which bucket names an identity, read off what the three lists say about that identity |
| TaintMerge.MergeMatchesReference | src/reconcilers/helpers.rs:3298-3497 | the list algorithm is a per-identity three-way merge: it conflicts exactly when some identity clashes, otherwise every identity ends in its merged slot |
| TaintMerge.TargetUnique | src/reconcilers/helpers.rs:3298-3477 | for any spec and record, the rebuilt list names an identity twice if and only if the spec names twice one that the Node does not carry |
| TaintMerge.DroppedIsGone | src/reconcilers/helpers.rs:3358-3373 | a recorded taint that the spec no longer names is gone, whatever repeats in either list |
| TaintMerge.MergeKeepsForeign | src/reconcilers/helpers.rs:3449-3477 | taints of all other identities, unknown effects included, stay the same in the same order |
| TaintMerge.SettledEntriesStay | src/reconcilers/helpers.rs:3343-3345 | a taint that already has the wanted value is left as it is, its timestamp included |
| TaintMerge.NewEntriesAreTheSpecs | src/reconcilers/helpers.rs:3449-3477 | every other entry of the rebuilt list is one of the spec's, key, value and effect, without a timestamp |
| TaintMerge.OwnedIsPermutation | src/reconcilers/helpers.rs:3479-3486 | the annotation a patch writes lists exactly the identities of the spec |
| TaintMerge.MergeCorrect | src/reconcilers/helpers.rs:3298-3497 | after a conflict-free apply of any spec: no duplicates exactly when every repeated identity was on the Node before, every desired taint there with its value exactly when no identity has two values, every dropped owned taint gone, everything else untouched; the annotation a patch writes lists the spec's identities |
| TaintMerge.RepeatedTaintIsAddedTwice | src/reconcilers/helpers.rs:3337-3343 | a spec with two values for a new identity gives no conflict and a list that names it twice |
| TaintRuns.TouchedWasRecorded | src/reconcilers/helpers.rs:3337-3373 | in every run, a taint the controller removes or overwrites is recorded as applied with the same key, effect and value at that moment |
| TaintRuns.ForeignTaintsNeverTouched | src/reconcilers/helpers.rs:3606-3620 | an identity in no spec of the run and not in the first record is never touched |
| TaintRuns.SettledMeansNoop | src/reconcilers/helpers.rs:3298-3374 | a Node that shows the spec and nothing else that was recorded gets an empty plan |
| TaintRuns.ReconcileReachesFixpoint | src/reconcilers/helpers.rs:3569-3652 | after a conflict-free apply of any spec the next plan is empty if and only if no identity has two values in the spec, with the new record and with the one a crash left; the replay restores the record |
| TaintRuns.RepeatConflictsWithItself | src/reconcilers/helpers.rs:3337-3356 | two values for a recorded identity: the reconcile writes the second and then conflicts with it for good |
| TaintRuns.CrashesThenSuccess | src/reconcilers/helpers.rs:3569-3652 | any number of crashed reconciles followed by one that lands equals one that lands |
| TaintRuns.CrashThenSpecEdit | src/reconcilers/helpers.rs:3606-3652 | after a lost record and a spec edit the next plan is the right one if and only if nothing is stranded |
| TaintRuns.AnnotationIsCurrentIff | src/reconcilers/helpers.rs:3420-3497 | after an applied reconcile the Node's annotation lists the spec's identities if and only if there was something to change or it listed them already |
| TaintRuns.AdoptedTaintIsNotListed | src/reconcilers/helpers.rs:3420-3423 | a taint that was there first is recorded as applied and never listed as owned |
| TaintRuns.OrphanedTaint | src/reconcilers/helpers.rs:3606-3652 | a concrete run that leaves a taint on the Node for good |
| TaintMerge.RaceDuplicatesIff | src/reconcilers/helpers.rs:3411-3477 | built from a second GET, the list names an identity twice if and only if an added identity appeared in between or the spec repeats one the first list lacks |
| TaintRuns.RaceOverwritesIff | src/reconcilers/helpers.rs:3411-3477 | it overwrites an unrecorded value if and only if an identity due for update or removal changed in between |
| TaintRuns.DuplicatingRace | src/reconcilers/helpers.rs:3411-3477 | two lists for which the patch names an identity twice |
| TaintRuns.OverwritingRace | src/reconcilers/helpers.rs:3411-3477 | two lists for which it overwrites an unrecorded value |
| TaintValidation.ValidateNodeTaints | src/crd.rs:1296-1371 | a list passes exactly when every taint passes and no key and effect pair repeats; the error names the first taint that offends and its first fault |
| TaintValidation.KeyAllowedIff | src/crd.rs:1313-1354 | an allowed key is a name, or a DNS subdomain, one slash and a name, under no reserved prefix, within the two length caps |
| TaintValidation.NameAllowedIff | src/crd.rs:1374-1391 | a name, character by character |
| TaintValidation.SubdomainIff | src/crd.rs:1393-1411 | a prefix, character by character: at most 253, each dot between two digits or letters, no 64 characters without a dot |
| TaintValidation.ReservedFault | src/crd.rs:1317-1329 | a key is reported as reserved exactly when it starts with one of the four prefixes |
| TaintValidation.KeyFaults | src/crd.rs:1313-1354 | which fault any other key is reported with, prefix before name |
| TaintValidation.ValueFaults | src/crd.rs:1356-1371 | a value is empty or a name, and which fault any other is reported with |
| ChildWatch.ChildNodeWatchManager.OnChildResolved | src/reconcilers/child_watch.rs:121-150 | aborts the watcher of the key, if any, and starts one with the given client |
| ChildWatch.ChildNodeWatchManager.OnChildEvicted | src/reconcilers/child_watch.rs:152-164 | aborts and forgets the watcher of the key |
| ChildWatch.StartedTracks | src/reconcilers/child_watch.rs:121-150 | the task map keeps tracking exactly the watchers not aborted |
| ChildClient.ChildClientCache.LeastRecentlyUsed | src/reconcilers/child_client.rs:471-484 | picks an entry no other entry is older than, so eviction never removes an entry younger than one that stays |
| ChildClient.ChildClientCache.PeekClient | src/reconcilers/child_client.rs:326-332 | returns the cached client and counts as a use |
| ChildClient.ChildClientCache.EvictKey | src/reconcilers/child_client.rs:338-346 | removes the entry and cancels its watcher, or does nothing |
| ChildClient.ChildClientCache.BuildOrGetCached | src/reconcilers/child_client.rs:354-519 | a cached client is served exactly when its version is the one just read; otherwise the result is a new client from the text and version just read, or the first error; with the whole new state, capacity eviction and callbacks, with and without a hook |
| ChildClient.ChildClientCache.Resolve | src/reconcilers/child_client.rs:261-318 | an explicit Secret fails closed; only an absent auto-discovered `<cluster>-kubeconfig` Secret falls back to the management client; a Secret that was read is served as above |
| ChildClientRuns.CacheAndWatchersInLockStep | src/reconcilers/child_client.rs:471-512 | after every sequential run the cached keys are the watched keys, each watcher runs with the cached client, all others are aborted, each client was built from the version stored beside it, and the cache is within its cap, whatever the clock does |
| ChildClientRuns.CacheRefinesLru | src/reconcilers/child_client.rs:394-501 | without a tie at a capacity eviction the cache is the ideal LRU list after every run, explicit evictions included |
| ChildClientRuns.IdealIsRecency | src/reconcilers/child_client.rs:394-501 | without explicit evictions that list is the front of the keys ordered by last use |
| ChildClientRuns.CacheHoldsMostRecent | src/reconcilers/child_client.rs:394-501 | so, without such a tie, the cache holds exactly the at most 256 most recently used keys of the full history |
| ChildClientRuns.LruIff | src/reconcilers/child_client.rs:394-501 | the cache holds the ideal LRU list at every point of a run, however ties are broken, if and only if no capacity eviction meets a tie for the oldest entry |
| ChildClientRuns.MostRecentIff | src/reconcilers/child_client.rs:394-501 | the same against the at most 256 most recently used keys of the full history |
| ChildClientRuns.TickingClockHasNoTies | src/reconcilers/child_client.rs:394-501 | a clock that ticks at every call meets no ties |
| ChildClientRuns.RotationRebuilds | src/reconcilers/child_client.rs:395-495 | when the version just read is another one and the data is usable, a new client with that version and text takes over |
| ChildClientRuns.ServesCurrentCredentials | src/reconcilers/child_client.rs:354-519 | in every run, as long as a version names its contents, hit or new, the client served was built from the very text that the Secret just read holds under its data key |
| ChildClientRuns.HitHasRequestedKeyIff | src/reconcilers/child_client.rs:394-404 | in every run a hit returns a client for the requested data key if and only if the last build for that Secret used it |
| ChildClientRuns.HitForAnotherKey | src/reconcilers/child_client.rs:394-404 | a hit for a data key that the Secret does not hold |
| ChildClientRuns.TieMayDropTheNewer | src/reconcilers/child_client.rs:471-491 | of 257 clients built in turn at one instant the cache of 256 may keep the first and drop the last but one |
| KataAgent.Node.AtomicWrite | src/kata_config_agent.rs:178-200 | four atomic actions, cut off anywhere |
| KataAgent.Node.RemoveIfPresent | src/kata_config_agent.rs:208-214 | one atomic action that leaves no file |
| KataAgent.Node.SyncContent | src/kata_config_agent.rs:238-253 | write, unlink or leave, as the machine of atomic actions does, cut off anywhere |
| KataAgent.Node.ClearOptin | src/bin/kata_config_agent.rs:141-153 | annotation and label go in one patch |
| KataAgent.Node.RecordApplied | src/bin/kata_config_agent.rs:110-117 | sets the applied hash and nothing else |
| KataAgent.Node.RestartIfNeeded | src/kata_config_agent.rs:457-468 | restarts exactly when the hash is not the applied one, and reports a restart that fails |
| KataAgent.Node.RecordAndRestart | src/bin/kata_config_agent.rs:246-260 | records before restarting, cut off anywhere |
| KataAgent.Node.ReconcileOnce | src/bin/kata_config_agent.rs:192-262 | one tick with any cut-off is that stretch of the machine of atomic actions |
| KataAgent.Node.ReconcileKataConfigDelivery | src/reconcilers/helpers.rs:3120-3242 | the result, the label and the reference for every spec, cluster and reply: only a source that is there opts the Node in; no Kata block or an absent source clears the reference and keeps the label; a failed read or a refused patch changes nothing |
| KataRuns.NoOrphanDropIn | src/bin/kata_config_agent.rs:141-209 | in every run of patches, agent actions and crashes in which no delivery starts on an unlabelled Node, a host file implies the opt-in label |
| KataRuns.UnlabelledDeliveryOrphans | src/bin/kata_config_agent.rs:293-306 | a delivery on an unlabelled Node leaves an orphan exactly when the source has content |
| KataRuns.RestartsFollowRecords | src/bin/kata_config_agent.rs:243-260 | every restart directly follows, in its tick, a record that changed the applied hash |
| KataRuns.RestartsAreChanges | src/kata_config_agent.rs:446-448 | a log of records, restarts and tear-downs in that order holds no more restarts than changes of the annotation, and fewer while a record awaits its restart |
| KataRuns.RestartsAreBounded | src/bin/kata_config_agent.rs:243-260 | restarts never outnumber the agent's changes of the annotation, and the same hash is not restarted twice without another value or a tear-down between |
| KataRuns.DeliveryTick | src/bin/kata_config_agent.rs:211-262 | an undisturbed delivery tick makes the host file the source, absent if absent, with the matching hash applied |
| KataRuns.SteadyTick | src/bin/kata_config_agent.rs:211-262 | the next tick with nothing changed writes, patches and restarts nothing |
| KataRuns.DriftTick | src/kata_config_agent.rs:434-448 | a tick after an out-of-band edit rewrites the file, does not restart, and counts as a drift correction exactly when there is content and the file had strayed |
| KataRuns.TearDownTick | src/bin/kata_config_agent.rs:196-209 | an undisturbed tear-down leaves no file, no hash and no label |
| KataRuns.StampDelivers | src/reconcilers/helpers.rs:3189-3205 | once the controller has seen the referenced object, one undisturbed tick puts the text under its key on the host, or no file if it has no such key |
| KataRuns.ClearTearsDown | src/reconcilers/helpers.rs:3153-3242 | once the spec has no Kata block or its object is gone, one undisturbed tick leaves no file, no hash and no label |
| KataRuns.SyncIntends | src/kata_config_agent.rs:140-156 | a sync writes, unlinks or leaves exactly as the file differs from the source, and intends the matching hash |
| KataRuns.UnknownKindIsIgnored | src/bin/kata_config_agent.rs:155-190 | a reference of an unknown kind changes nothing |
| KataRuns.CutOffLeavesOldOrNew | src/kata_config_agent.rs:178-200 | a tick cut off anywhere leaves the old or the whole new content |
| KataRuns.LostRestartIsNotRetried | src/bin/kata_config_agent.rs:243-260 | after a recorded restart that did not happen the next delivery restarts if and only if the content is another one |
| KataRuns.StampSurvivesTickIff | src/bin/kata_config_agent.rs:196-209 | a stamp put on during a tick outlives it if and only if the tick is no tear-down |
| KataRuns.StampSurvivesIff | src/bin/kata_config_agent.rs:141-209 | in every run a stamp is lost if and only if the tick under way at the stamp is a tear-down and that very tick lives to take the label off |
| KataRuns.StampLostToTearDown | src/bin/kata_config_agent.rs:196-209 | such a run |
| RangeSpecs.ParseDayPart | src/crd.rs:1146-1194 | one part parses exactly when it is an interval, and adds that cyclic interval; otherwise the error of the first check that fails |
| RangeSpecs.ParseHourPart | src/crd.rs:1210-1257 | the same for hours; the special case for a leading hyphen changes nothing |
| RangeSpecs.ParseDayRanges | src/crd.rs:1132-1196 | succeeds exactly when every part is well formed and returns the union of the parts' intervals; otherwise the first ill-formed part gives the error |
| RangeSpecs.ParseHourRanges | src/crd.rs:1205-1261 | the same for hours |
| RangeSpecs.InsertRange | src/crd.rs:1171-1184 | the two loops insert exactly the cycle from start to end |
| RangeSpecs.PartIntervalIff | src/crd.rs:1146-1194 | a part parses to an interval exactly when it reads as one number, or two around one hyphen, padded anyhow |
| RangeSpecs.CyclicSize | src/crd.rs:1171-1184 | an interval has ((b - a) mod n) + 1 members, all within the cycle |
| RangeSpecs.CyclicWalk | src/crd.rs:1171-1184 | from the first end the interval goes forward one by one, around the cycle, and stops at the second |
| RangeSpecs.DayNumberIff | src/crd.rs:1133-1141 | the seven names and no others, Monday first |
| RangeSpecs.HourNumberIff | src/crd.rs:1206-1256 | a decimal from 0 to 23, of any width, with an optional plus sign |
| RangeSpecs.PartOfIff | src/crd.rs:1145-1146 | the parts of a list are the parts between the commas of its strings |
| RangeSpecs.FirstErrorIff | src/crd.rs:1145-1194 | the error of a list is that of its first ill-formed part |
| RangeSpecs.DayFaults | src/crd.rs:1149-1191 | which error an ill-formed day part gives: one name, a range with one hyphen, more hyphens |
| RangeSpecs.HourFaults | src/crd.rs:1213-1254 | the same for hours: a leading hyphen makes a bad number, ends are reported untrimmed, a byte above 23 is out of range |
| RangeSpecs.ParsedSet | src/crd.rs:1132-1261 | a value is in the result exactly when some part denotes an interval holding it; results are in range |
| RangeSpecs.OrderIrrelevant | src/crd.rs:1132-1261 | only which parts occur matters, for success and for the result |
| RangeSpecs.SplittingIrrelevant | src/crd.rs:1145-1146 | splitting one comma-separated string into two list entries changes nothing |
| Text.SpaceCodes | src/crd.rs:1147-1147 | the twenty-five code points that trimming takes off |
| Text.TrimMeaning | src/crd.rs:1147-1147 | trimming yields the one string without outer whitespace that pads out to the input |
| Transitions.NextFlipMeaning | src/providers/time_based.rs:112-133 | the scan returns the first instant with the other verdict within its horizon, and nothing exactly when the verdict is constant up to it |
| Transitions.NextFlipFailsIff | src/providers/time_based.rs:112-133 | it fails exactly when the verdict fails now, or at an hour within the horizon before which nothing flips |
| Transitions.WeeklyScanIsExact | src/providers/time_based.rs:112-133 | for a schedule that repeats weekly, 192 hours hide nothing |
| Providers.IsTimeBasedActiveAt | src/providers/time_based.rs:80-106 | off in seconds of local time: active exactly when some day part denotes the local weekday and some hour part the local hour; errors in the source's order |
| Providers.IsMarketActiveAt | src/providers/capital_markets.rs:88-132 | off in seconds of local time: a holiday closes the market, even with unreadable sessions; otherwise it is open exactly when some session opens it and the first early close of the date, if any, is not before the hour; it fails exactly when an unreadable session decides |
| Providers.LocalClock | src/providers/time_based.rs:88-105 | the local date, weekday and hour that the code computes are those of the instant plus the offset, by one inequality in seconds |
| Providers.LocallyInExists | src/providers/time_based.rs:88-105 | every instant has such a weekday and hour |
| Providers.AnySession | src/providers/capital_markets.rs:109-117 | the session loop with its break is decided by the first session that is unreadable or covers the hour |
| Providers.FindEarlyClose | src/providers/capital_markets.rs:125-129 | the first early close of the date |
| Providers.CoversIff | src/crd.rs:323-333 | a window covers an hour exactly when some day part names its weekday and some hour part its hour |
| Providers.OpenIff | src/providers/capital_markets.rs:109-117 | the first session that is unreadable or covers the hour decides; without one the market is closed |
| Providers.ReadableSessionsDecide | src/providers/capital_markets.rs:109-117 | readable sessions always give a verdict, and only they can give a closed one |
| Providers.FirstEarlyCloseIff | src/providers/capital_markets.rs:125-129 | of several early closes on one date the first counts |
| Providers.NextTransition | src/providers/time_based.rs:112-133 | the loop from the next whole hour computes the scan |
| Providers.ScheduleObject.Reconcile | src/providers/time_based.rs:141-216 | status and requeue of one reconcile, for every failure; absent keys of the merge patch keep their values |
| Providers.TimeBasedIsWeekly | src/providers/time_based.rs:80-106 | with a constant offset the verdict has period 168 hours |
| ProviderRuns.RequeueBounds | src/providers/time_based.rs:207-215 | every requeue is positive and at most 192 hours: 30 seconds after a failure, 6 hours when no flip is found |
| ProviderRuns.PublishedIsCurrent | src/providers/time_based.rs:141-216 | in every timely run the published verdict equals the schedule's at every instant after a reconcile that publishes, up to the next flip if the patch landed unseen |
| ProviderRuns.LastTransitionIsLastChange | src/providers/time_based.rs:152-161 | lastTransitionTime is when the published verdict last changed |
| ProviderRuns.FailedReconcile | src/providers/time_based.rs:218-232 | a reconcile that does not publish changes nothing; any failure comes back in 30 seconds |
| ProviderRuns.TimeBasedTransitionIsExact | src/providers/time_based.rs:105-133 | with a constant offset the next transition is the first flip, and none is found exactly when the verdict never changes again |
| ProviderRuns.TimeBasedFailsAlwaysOrNever | src/providers/time_based.rs:80-133 | a time-based schedule fails at every instant or at none |
| ProviderRuns.ReadableMarketNeverFails | src/providers/capital_markets.rs:88-163 | a known zone and readable sessions are enough for every reconcile to have a verdict and a scan |
| ProviderRuns.UnreadableSessionBlocksPublishing | src/providers/capital_markets.rs:142-180 | an unreadable session within the horizon blocks publishing while the market is open |
| ProviderRuns.UnreadableSecondSession | src/providers/capital_markets.rs:109-180 | a market of two sessions that is open and publishes nothing |
| ProviderRuns.FlipIsPublished | src/providers/time_based.rs:182-215 | a next transition that is found is published as the first flip, and the requeue lands on it |
| ProviderRuns.NextTransitionIsCurrentIff | src/providers/time_based.rs:182-191 | the published next transition is the one just computed if and only if there is one or none was published before |
| ProviderRuns.FlipOutlivesDisabling | src/providers/time_based.rs:182-191 | a schedule switched off after a flip was published goes on announcing it |
| LoopProtection.ReclaimTracker.PruneOldReclaimEvents | src/loop_protection.rs:46-51 | pops the stale front of the deque |
| LoopProtection.ReclaimTracker.RecordEmergencyReclaimEvent | src/loop_protection.rs:58-68 | prune, push, cap at ten, and compare with the threshold |
| LoopProtection.ReclaimTracker.ShouldWarnRapidReReclaim | src/loop_protection.rs:74-77 | counts the entries in the window |
| LoopProtection.DequeIsWindow | src/loop_protection.rs:46-68 | for timestamps that never step back the deque is the newest ten in-window events of the full history |
| LoopProtection.VerdictCountsHistory | src/loop_protection.rs:58-77 | the verdict, and a read-only check at any later instant, count the full history |
| LoopProtection.ThirdLastDecides | src/loop_protection.rs:46-77 | for timestamps that never step back: there is a loop exactly when the third last of all reclaims lies no more than 600 seconds back |
| LoopProtection.VerdictMatchesCheck | src/loop_protection.rs:58-77 | right after recording the read-only check repeats the verdict |
| LoopProtection.DequeIsWindowIff | src/loop_protection.rs:46-68 | for every clock: the deque is the newest ten in-window events of the full history if and only if no entry is stale and, unless it is full, no popped event is back in the window |
| LoopProtection.VerdictErrsIff | src/loop_protection.rs:58-68 | for every clock, from the deque before the call: exactly when the verdict overcounts the full history, and exactly when it undercounts it |
| LoopProtection.OrderedHistoryNeverErrs | src/loop_protection.rs:58-68 | neither happens while the clock never steps back |
| LoopProtection.VerdictAgainstDeque | src/loop_protection.rs:46-77 | for every clock: when recording reports a loop that a read-only check of the same entries does not |
| LoopProtection.SteppedBackClockOvercounts | src/loop_protection.rs:46-68 | a concrete history that is overcounted |
| LoopProtection.SteppedBackClockUndercounts | src/loop_protection.rs:46-68 | a concrete history that is undercounted |
| ApiCalls.Controller.CreateDynamicResource | src/reconcilers/helpers.rs:1546-1584 | an object that exists already counts as created; any other reply than success is an API error |
| ApiCalls.Controller.DeleteDynamicResource | src/reconcilers/helpers.rs:1612-1642 | an object that is gone already counts as deleted; any other reply than success is an API error |
| ApiCalls.Controller.EnsureCanCreate | src/reconcilers/helpers.rs:1484-1537 | a refused access review stops the caller with a denial, a failed one with an API error, and neither changes anything |
| ApiCalls.ExecFailsWith | src/reconcilers/helpers.rs:2562-2723 | of a sequence of calls the first that is not got past decides the error; a failed drain or clear is got past |
| ApiCalls.ExecSucceedsIff | src/reconcilers/helpers.rs:2562-2723 | a sequence succeeds exactly when every call is answered and got past |
| CapiObjects.AddMachineToCluster | src/reconcilers/helpers.rs:1163-1442 | field checks, three access reviews, metadata checks, three creates, with the store and result of every failure |
| CapiObjects.FieldFaults | src/reconcilers/helpers.rs:1163-1265 | on the fields of the spec: which error the checks before the reviews give |
| CapiObjects.MetadataFaults | src/reconcilers/helpers.rs:1285-1310 | which error the checks after them give |
| CapiObjects.AddSucceedsIff | src/reconcilers/helpers.rs:1163-1442 | an add succeeds exactly when every field passes and all six calls are answered with success |
| CapiObjects.ReviewDenies | src/reconcilers/helpers.rs:1484-1537 | the first access review that says no is a denial, one that fails an API error |
| CapiObjects.AddIsOrdered | src/reconcilers/helpers.rs:1312-1442 | at every crash point what is new is bootstrap first, then infrastructure, then the Machine |
| CapiObjects.GroupOfIff | src/reconcilers/helpers.rs:1067-1084 | the group is what stands before the last slash |
| CapiObjects.PluralIs | src/reconcilers/helpers.rs:1458-1460 | the plural is the kind in lower case with an s |
| CapiObjects.NamesObject | src/reconcilers/helpers.rs:1546-1642 | an embedded resource names an object of its own group and plural |
| CapiObjects.RemoveMachineFromCluster | src/reconcilers/helpers.rs:1656-1715 | Machine first, then the bootstrap and infrastructure objects the spec names |
| CapiObjects.RemoveSucceedsIff | src/reconcilers/helpers.rs:1656-1715 | a remove succeeds exactly when each of its one to three deletes does |
| CapiObjects.RemoveIsOrdered | src/reconcilers/helpers.rs:1656-1715 | at every crash point what is gone is the Machine first, then bootstrap, then infrastructure |
| CapiObjects.MachineIsAlwaysLinked | src/reconcilers/helpers.rs:1228-1715 | at every crash point of every sequence of adds and removes a live Machine has its bootstrap and infrastructure objects |
| CapiObjects.AllowedIsNotMachine | src/reconcilers/helpers.rs:1238-1248 | the allowed API groups keep the embedded objects apart from the Machine |
| CapiObjects.FailedChecksCreateNothing | src/reconcilers/helpers.rs:1228-1305 | a failed validation or access review creates nothing |
| CapiObjects.AddCompletes | src/reconcilers/helpers.rs:1163-1442 | an undisturbed add succeeds exactly when the checks pass, and then all three objects live |
| CapiObjects.AddSuccessIsComplete | src/reconcilers/helpers.rs:1163-1442 | an add that reports success is complete, also when it resumes a half-done one |
| CapiObjects.RemoveSuccessIsComplete | src/reconcilers/helpers.rs:1656-1715 | a remove that reports success removed everything the spec names and nothing else |
| CapiObjects.RetriesConverge | src/reconcilers/helpers.rs:1163-1715 | after any history a retried add ends with all three objects, a retried remove with none |
| Emergency.HandleEmergencyRemove | src/reconcilers/helpers.rs:2562-2723 | the flow's calls in order, with the store and result of every failure |
| Emergency.DrainComesFirst | src/reconcilers/helpers.rs:2606-2692 | at every crash point where an object is gone, the phase was set, the child client resolved, and the node drained unless the drain was refused |
| Emergency.FlowSucceedsIff | src/reconcilers/helpers.rs:2562-2723 | the flow succeeds exactly when every call but the drain and the clear is answered with success |
| Emergency.FlowFailsWith | src/reconcilers/helpers.rs:2562-2723 | the first other call that fails ends it with an error |
| Emergency.FlowIsOrdered | src/reconcilers/helpers.rs:2531-2561 | at every crash point the annotations are cleared and Disabled is reached only after the Machine delete and the schedule patch |
| Emergency.FlowSuccess | src/reconcilers/helpers.rs:2562-2723 | success means reclaimed, disabled and finished, whatever the drain and the clear did |
| Emergency.UninterruptedFlow | src/reconcilers/helpers.rs:2562-2723 | the store an undisturbed flow leaves, the node drained |
| Emergency.AttemptsStayPartWay | src/reconcilers/helpers.rs:2547-2553 | the ordering holds through any number of failed flows |
| Emergency.ReplayConverges | src/reconcilers/helpers.rs:2547-2553 | a replay after any number of cut-off flows ends in the store of an undisturbed first flow |
| Emergency.RecoveryAfterClear | src/reconcilers/helpers.rs:2547-2553 | once the annotations are cleared only the phase is left to finish, whatever the drain did |
| Emergency.RecoveryIsCompleteIff | src/reconcilers/helpers.rs:2547-2553 | if the annotations vanish by themselves, that recovery is complete if and only if the schedule was already off |
| Emergency.VanishedNodeLeavesScheduleOn | src/reconcilers/helpers.rs:2547-2553 | if the Node disappears with its Machine before the schedule patch, that recovery leaves the schedule enabled |
| Durations.AcceptsExactly | src/reconcilers/helpers.rs:580-627 | accepted are exactly a decimal and a unit worth at most a day; the ASCII, width and overflow checks turn nothing else away |
| Durations.ShapeDecides | src/reconcilers/helpers.rs:591-624 | for a text of that shape, which result or error it gives |
| Durations.UnitsAreWorth | src/reconcilers/helpers.rs:603-624 | 1, 60 and 3600 seconds, no other unit, and a day as the limit in each |
| Durations.DurationFaults | src/reconcilers/helpers.rs:583-596 | blank texts are empty, and otherwise non-ASCII texts are reported first |
| Durations.ParseInvertsPrintedDuration | src/reconcilers/helpers.rs:580-627 | parsing inverts printing in every unit and padding |
| Text.ParseInvertsPrint | src/reconcilers/helpers.rs:598-601 | decimals of the type's range round-trip, larger ones are refused |
| Text.ParseUnsignedIff | src/reconcilers/helpers.rs:598-601 | a number parses exactly when it is an optional plus sign and digits, worth at most the limit |
| NetlinkProc.Le32RoundTrip | src/netlink_proc.rs:335-336 | every 32-bit word survives the wire, both ways |
| NetlinkProc.FramedPayloadParsesBack | src/netlink_proc.rs:328-349 | any payload up to 65535 bytes parses back, whatever trails it |
| NetlinkProc.ParsedFrameIsFramed | src/netlink_proc.rs:328-349 | whatever parses is such a frame |
| NetlinkProc.CnMsgErrors | src/netlink_proc.rs:328-349 | every rejection is truthful |
| NetlinkProc.ExecParsesBack | src/netlink_proc.rs:362-395 | any 32-bit pid and tgid survive |
| NetlinkProc.OtherParsesBack | src/netlink_proc.rs:373-375 | any other kind is reported with its raw value |
| NetlinkProc.ProcEventErrors | src/netlink_proc.rs:362-395 | an event is rejected exactly when it is too short for its kind |
| NetlinkProc.ExecSurvivesTheWire | src/netlink_proc.rs:328-395 | pid and tgid survive all layers with any trailing bytes |
| NetlinkProc.EventIff | src/netlink_proc.rs:328-395 | off the raw bytes of a datagram: exactly when the subscriber reports an exec event, with which ids, when another kind, and when nothing |
| NetlinkProc.BuildControlFrame | src/netlink_proc.rs:578-592 | filling the frame in place gives the netlink header and connector message that the layout prescribes |
| NetlinkProc.ControlFrameParses | src/netlink_proc.rs:578-592 | the control frame states its own length and parses to the listen word |
| NetlinkProc.ControlFrameBytes | src/netlink_proc.rs:578-592 | the forty bytes that go out |
| NetlinkProc.Subscriber.ReceiveEvent | src/netlink_proc.rs:641-666 | the event is that of the datagram just received, cut to 4096 bytes, never of older bytes in the buffer |

## Left out

- ChildClient.ChildClientCache.BuildOrGetCached: one call at a time; the callbacks run after the lock is released, so lockstep is not claimed for concurrent resolves, nor for runs in which the hook is installed late.
- NodeTaints.NodeObject.Reconcile: takes both GETs from one snapshot; what an edit between them does is stated separately in `TaintRuns`.
- Emergency.HandleEmergencyRemove: leaves out the published events, whose failures are only logged, the reclaim tracker, which `LoopProtection` models, and the error for an object without a namespace.
- Emergency.FlowIsOrdered: no user re-enables the schedule while the flow runs.
- Providers.ScheduleObject.Reconcile: takes the object it was handed as current, and leaves out the error for an object without a namespace.
- KataRuns.NoOrphanDropIn: assumes that no delivery starts on an unlabelled Node, since descheduling is what stops the agent and its poll loop does not check; a patch that is still in flight when the agent dies is taken as not sent; two agents on one Node are not modelled.
- Taint values: the API server may drop an empty value, which the model keeps apart from none.
- Time is integer seconds and zones have whole-hour offsets that are constant over each UTC hour, so half-hour zones are outside the exactness claims; dates are local day numbers instead of text.
- Hashes are abstract: injective, and never equal to the marker for an absent file.
- The checks of cluster name, kill commands, label prefixes and embedded metadata appear as their results only.
- Deletes take effect at once; finalizers and garbage collection through owner references are not modelled.
- Kinds are lower-cased as ASCII text; string lengths are in characters, which is the same for every accepted string.
- Kubernetes clients, TLS, kubeconfig, YAML, TOML and JSON parsing, SHA-256, time zone tables, sockets and the async runtime.
- Destination path containment, host-identity checks, metrics, health server, events, leader election, drain, grace period, back-off, instance hashing and the VEX tools: easy next to the rest, or pure input and output.
- The dispatcher in `src/reconcilers/scheduled_machine.rs` beyond its recovery step, and provider resolution in `spot_schedule.rs`.
