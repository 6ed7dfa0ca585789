/** Whole runs of a provider over one object: requeues, spec edits, and failed patches. */
module ProviderRuns {
  import opened Wrappers
  import opened Text
  import opened RangeSpecs
  import opened Transitions
  import opened Providers

  /** One reconcile: when, under which spec, and what becomes of the status patch. */
  datatype Event = Event(at: int, verdicts: Verdicts, patch: Reply)

  function RunStatus(events: seq<Event>): Option<Status>
    decreases |events|
  {
    if |events| == 0 then None
    else
      var last := events[|events| - 1];
      StatusAfter(last.verdicts, RunStatus(events[..|events| - 1]), last.at, last.patch)
  }

  function RequeueOf(e: Event): int {
    RequeueAfter(e.verdicts, e.at, e.patch)
  }

  /** The reconcile publishes: its verdict and its scan succeed and its patch lands, seen or unseen. */
  predicate Publishes(e: Event) {
    !e.patch.Refused? && NextFlip(e.verdicts, e.at).Ok?
  }

  /** When the reconcile would be due again had its patch been seen to land. */
  function FirstDue(e: Event): int
    requires Publishes(e)
  {
    e.at + DueIn(e.at, NextFlip(e.verdicts, e.at).value)
  }

  /** Each reconcile comes no later than the requeue of the one before it; spec edits come earlier. */
  ghost predicate Timely(events: seq<Event>) {
    forall i :: 0 <= i < |events| - 1 ==> events[i].at <= events[i + 1].at <= events[i].at + RequeueOf(events[i])
  }

  /** The instants from reconcile `i` up to the next one, or up to its requeue if it is the last. */
  ghost predicate InForce(events: seq<Event>, i: nat, t: int)
    requires i < |events|
  {
    events[i].at <= t < if i + 1 < |events| then events[i + 1].at else events[i].at + RequeueOf(events[i])
  }

  /** Every requeue lies strictly ahead and at most 192 hours away: 30 seconds on failure, 6 hours without a flip. */
  lemma RequeueBounds(v: Verdicts, now: int, patch: Reply)
    ensures 0 < RequeueAfter(v, now, patch) <= 192 * 3600
    ensures NextFlip(v, now).Err? || !patch.Done? ==> RequeueAfter(v, now, patch) == 30
    ensures NextFlip(v, now) == Ok(None) && patch.Done? ==> RequeueAfter(v, now, patch) == 6 * 3600
  {
    if NextFlip(v, now).Ok? && NextFlip(v, now).value.Some? {
      var c := NextFlip(v, now).value.value;
      NextFlipMeaning(v, now);
      assert FirstFlipAt(v, now, c) && c < Horizon(now);
      FlipIsOnTheHour(v, now, c);
      LastCandidate(now, c);
    }
  }

  lemma FlipIsOnTheHour(v: Verdicts, from: int, c: int)
    requires FirstFlipAt(v, from, c)
    ensures c % HOUR == 0
  {
    var current :| from < c && Constant(v, current, from, c) && VerdictAt(v, c) == Ok(!current);
    assert VerdictAt(v, c - 1) == Ok(current);
    FlipsOnTheHour(v, c);
  }

  lemma LastCandidate(from: int, c: int)
    requires c % HOUR == 0 && c < Horizon(from)
    ensures c - from <= PROVIDER_TRANSITION_HORIZON_HOURS * HOUR
  {
    assert from == from / HOUR * HOUR + from % HOUR;
  }

  /** Until the next flip, or for the fallback interval, a reconcile that published stays right. */
  lemma PublishedHolds(v: Verdicts, now: int, t: int)
    requires NextFlip(v, now).Ok? && now <= t < now + DueIn(now, NextFlip(v, now).value)
    ensures VerdictAt(v, t).Ok? && VerdictAt(v, t) == VerdictAt(v, now)
  {
    NextFlipMeaning(v, now);
    match NextFlip(v, now).value
    case Some(c) =>
      var current :| now < c && Constant(v, current, now, c) && VerdictAt(v, c) == Ok(!current);
      assert VerdictAt(v, now) == Ok(current);
    case None =>
      var current :| Constant(v, current, now, Horizon(now));
      FallbackIsNear(now);
      assert VerdictAt(v, now) == Ok(current);
  }

  lemma FallbackIsNear(now: int)
    ensures now < now + PROVIDER_FALLBACK_REQUEUE_SECS < Horizon(now)
  {
    assert now == now / HOUR * HOUR + now % HOUR;
  }

  /**
   The published `active` equals the schedule's verdict at every instant, from each reconcile that
   publishes to the next reconcile, in every timely run. A patch that landed unseen is retried in 30
   seconds, and what it published is right up to then unless a flip comes first.
   */
  lemma PublishedIsCurrent(events: seq<Event>, i: nat, t: int)
    requires Timely(events) && i < |events| && Publishes(events[i]) && InForce(events, i, t)
    requires events[i].patch.Lost? ==> t < FirstDue(events[i])
    ensures RunStatus(events[..i + 1]).Some?
    ensures VerdictAt(events[i].verdicts, t) == Ok(RunStatus(events[..i + 1]).value.active)
  {
    var e := events[i];
    assert events[..i + 1][..i] == events[..i];
    PublishedHolds(e.verdicts, e.at, t);
  }

  /** The prefix of a run before reconcile `k`. */
  function Before(events: seq<Event>, k: nat): Option<Status>
    requires k <= |events|
  {
    RunStatus(events[..k])
  }

  /** `lastTransitionTime` is when the published verdict last changed. */
  lemma {:induction false} LastTransitionIsLastChange(events: seq<Event>) returns (k: nat)
    requires RunStatus(events).Some?
    ensures k < |events| && Publishes(events[k]) && RunStatus(events).value.lastTransition == Some(events[k].at)
    ensures Before(events, k) == None || Before(events, k).value.active != RunStatus(events).value.active
    ensures forall j :: k < j <= |events| ==>
              Before(events, j).Some? && Before(events, j).value.active == RunStatus(events).value.active
    decreases |events|
  {
    var n := |events| - 1;
    var init := events[..n];
    var e := events[n];
    assert events[..|events|] == events;
    if Publishes(e) && (RunStatus(init).None? || RunStatus(init).value.active != RunStatus(events).value.active) {
      k := n;
    } else {
      k := LastTransitionIsLastChange(init);
      assert Before(events, k) == Before(init, k) by {
        assert init[..k] == events[..k];
      }
      forall j | k < j <= |events|
        ensures Before(events, j).Some? && Before(events, j).value.active == RunStatus(events).value.active
      {
        if j <= n {
          assert init[..j] == events[..j];
          assert Before(init, j).Some?;
        }
      }
    }
  }

  /** A reconcile that does not publish leaves the status alone; any that fails tries again in 30 seconds. */
  lemma FailedReconcile(events: seq<Event>, e: Event)
    ensures !Publishes(e) ==> RunStatus(events + [e]) == RunStatus(events)
    ensures !Publishes(e) || !e.patch.Done? ==> RequeueOf(e) == 30
  {
    assert (events + [e])[..|events|] == events;
  }

  // ---------------------------------------------------------------------------------------------
  // The two providers
  // ---------------------------------------------------------------------------------------------

  /** A time-based schedule either fails at every instant or at none. */
  lemma TimeBasedFailsAlwaysOrNever(spec: TimeBasedSpec, from: int)
    ensures NextFlip(VerdictsOf(TimeBased(spec)), from).Err? <==>
            spec.enabled && (spec.zone.UnknownZone? || !Readable(spec.days, spec.hours))
  {
    var v := VerdictsOf(TimeBased(spec));
    var bad := spec.enabled && (spec.zone.UnknownZone? || !Readable(spec.days, spec.hours));
    forall h ensures v(h).Err? <==> bad {
      assert v(h) == TimeBasedVerdict(spec, h);
    }
    NextFlipFailsIff(v, from);
  }

  /**
   With a constant whole-hour offset, a readable time-based schedule's next transition is the first
   instant with the other verdict, and absent exactly when the verdict never changes again.
   */
  lemma TimeBasedTransitionIsExact(spec: TimeBasedSpec, offset: int, from: int)
    requires spec.zone.Zone? ==> forall h :: spec.zone.offsetAt(h) == offset
    ensures var v := VerdictsOf(TimeBased(spec));
            && (NextFlip(v, from) == Ok(None) <==>
                exists current :: forall t :: from <= t ==> VerdictAt(v, t) == Ok(current))
            && (forall c :: NextFlip(v, from) == Ok(Some(c)) <==> FirstFlipAt(v, from, c))
  {
    TimeBasedIsWeekly(spec, offset);
    WeeklyScanIsExact(VerdictsOf(TimeBased(spec)), from);
  }

  /** A market in a known zone with only readable sessions publishes whenever its patch goes through. */
  lemma ReadableMarketNeverFails(spec: MarketsSpec, from: int)
    requires spec.zone.Zone? && AllReadable(spec.sessions)
    ensures NextFlip(VerdictsOf(CapitalMarkets(spec)), from).Ok?
  {
    var v := VerdictsOf(CapitalMarkets(spec));
    forall h ensures v(h).Ok? {
      ReadableSessionsDecide(spec.sessions, LocalHour(spec.zone, h));
      assert v(h) == MarketsVerdict(spec, h);
    }
    NextFlipFailsIff(v, from);
  }

  /**
   An unreadable session blocks publishing even while the market's verdict is known: the scan fails
   at the first later hour that no session before it covers, unless the verdict flips sooner.
   */
  lemma UnreadableSessionBlocksPublishing(spec: MarketsSpec, now: int, status: Option<Status>, c: int)
    requires spec.zone.Zone?
    requires var v := VerdictsOf(CapitalMarkets(spec));
             && VerdictAt(v, now) == Ok(true) && now < c * HOUR < Horizon(now)
             && Constant(v, true, now, c * HOUR)
    requires DateOf(LocalHour(spec.zone, c)) !in spec.holidays
    requires SessionsVerdict(spec.sessions, LocalHour(spec.zone, c)).Err?
    ensures StatusAfter(VerdictsOf(CapitalMarkets(spec)), status, now, Done) == status
    ensures RequeueAfter(VerdictsOf(CapitalMarkets(spec)), now, Done) == PROVIDER_ERROR_REQUEUE_SECS
  {
    var v := VerdictsOf(CapitalMarkets(spec));
    NextFlipFailsIff(v, now);
    assert v(c) == MarketsVerdict(spec, c);
  }

  /** A next transition that is found is published as the first flip, and the requeue lands on it. */
  lemma FlipIsPublished(v: Verdicts, status: Option<Status>, now: int, c: int)
    requires c < Horizon(now) && FirstFlipAt(v, now, c)
    ensures StatusAfter(v, status, now, Done).Some?
    ensures StatusAfter(v, status, now, Done).value.nextTransition == Some(c)
    ensures now + RequeueAfter(v, now, Done) == c
  {
    NextFlipMeaning(v, now);
  }

  /**
   After a reconcile that publishes, the published next transition is the one just computed if and only
   if there is one or none was published before: the merge patch cannot clear it.
   */
  lemma NextTransitionIsCurrentIff(v: Verdicts, status: Option<Status>, now: int)
    requires NextFlip(v, now).Ok?
    ensures StatusAfter(v, status, now, Done).Some?
    ensures StatusAfter(v, status, now, Done).value.nextTransition == NextFlip(v, now).value <==>
            (NextFlip(v, now).value.Some? || status.None? || status.value.nextTransition.None?)
  {
  }

  // ---------------------------------------------------------------------------------------------
  // Two concrete schedules
  // ---------------------------------------------------------------------------------------------

  const UTC := Zone((h: int) => 0)

  /** Ten past nine in the morning of the first Monday of the epoch. */
  const MONDAY_MORNING: int := 105 * HOUR + 600

  const MONDAY_AT_NINE := Session(["mon"], ["9"])

  lemma PlainList(f: Field, s: string)
    requires ',' !in s && '-' !in s && Bare(s)
    ensures WellFormed(f, Parts([s])) <==> Number(f, s).Some?
    ensures Number(f, s).Some? ==> Union(f, Parts([s])) == {Number(f, s).value}
  {
    PartsOfOne(s);
    SplitNone(s, ',');
    PlainPart(f, s);
    hide Bare;
    hide Parts;
    hide Split;
    hide PartInterval;
    hide Number;
    if Number(f, s).Some? {
      NumberInCycle(f, s);
      CyclicOne(Modulus(f), Number(f, s).value);
      assert [s][1..] == [];
    }
  }

  lemma PlainPart(f: Field, s: string)
    requires '-' !in s && Bare(s)
    ensures PartInterval(f, s) == match Number(f, s) case Some(a) => Some((a, a)) case None => None
  {
    assert s == "" + s + "";
    PaddedBy(s, "", s, "");
    TrimMeaning(s, s);
    hide Bare;
    hide Trim;
    hide Number;
  }

  lemma NumberInCycle(f: Field, s: string)
    requires Number(f, s).Some?
    ensures Number(f, s).value < Modulus(f)
  {
  }

  lemma PlainNumbers()
    ensures Number(Days, "mon") == Some(0) && Number(Hours, "9") == Some(9) && Number(Hours, "x") == None
  {
    assert DAY_NAMES[0] == "mon";
    assert DigitsValue("9") == 9 by {
      assert "9"[..0] == "";
    }
    assert !IsDigit("x"[0]);
  }

  const TEN_UNREADABLE := Session(["mon"], ["x"])

  lemma PlainLists()
    ensures WellFormed(Days, Parts(["mon"])) && Union(Days, Parts(["mon"])) == {0}
    ensures WellFormed(Hours, Parts(["9"])) && Union(Hours, Parts(["9"])) == {9}
    ensures !WellFormed(Hours, Parts(["x"]))
  {
    hide Union;
    hide Parts;
    hide WellFormed;
    PlainNumbers();
    hide Number;
    PlainList(Days, "mon");
    PlainList(Hours, "9");
    PlainList(Hours, "x");
  }

  lemma MondayAtNine(localHour: int)
    ensures WindowVerdict(MONDAY_AT_NINE.days, MONDAY_AT_NINE.hours, localHour)
         == Ok(Weekday(localHour) == 0 && HourOfDay(localHour) == 9)
    ensures WindowVerdict(TEN_UNREADABLE.days, TEN_UNREADABLE.hours, localHour) == Err(Window)
  {
    PlainLists();
    hide Union;
    hide Parts;
    hide WellFormed;
  }

  lemma FirstMonday()
    ensures Weekday(105) == Weekday(106) == 0 && HourOfDay(105) == 9 && HourOfDay(106) == 10
    ensures MONDAY_MORNING / HOUR == 105 && (MONDAY_MORNING + 60) / HOUR == 105
  {
  }

  lemma SecondSessionDecides(first: Session, second: Session, localHour: int)
    ensures SessionsVerdict([first, second], localHour) ==
            match WindowVerdict(first.days, first.hours, localHour)
            case Ok(false) => WindowVerdict(second.days, second.hours, localHour)
            case decided => decided
  {
    hide WindowVerdict;
    assert [first, second][1..] == [second] && [second][1..] == [];
    assert SessionsVerdict([second], localHour) == WindowVerdict(second.days, second.hours, localHour);
  }

  /** The market is open, yet nothing is published: the scan runs into the unreadable second session at ten. */
  lemma UnreadableSecondSession(status: Option<Status>)
    ensures var v := VerdictsOf(CapitalMarkets(MarketsSpec(UTC, [], [MONDAY_AT_NINE, TEN_UNREADABLE], [])));
            && VerdictAt(v, MONDAY_MORNING) == Ok(true)
            && StatusAfter(v, status, MONDAY_MORNING, Done) == status
            && RequeueAfter(v, MONDAY_MORNING, Done) == PROVIDER_ERROR_REQUEUE_SECS
  {
    var spec := MarketsSpec(UTC, [], [MONDAY_AT_NINE, TEN_UNREADABLE], []);
    var v := VerdictsOf(CapitalMarkets(spec));
    FirstMonday();
    hide SessionsVerdict;
    hide WindowVerdict;
    MondayAtNine(105);
    MondayAtNine(106);
    SecondSessionDecides(MONDAY_AT_NINE, TEN_UNREADABLE, 105);
    SecondSessionDecides(MONDAY_AT_NINE, TEN_UNREADABLE, 106);
    assert MarketsVerdict(spec, 105) == Ok(true) && MarketsVerdict(spec, 106) == Err(Window);
    assert v(105) == Ok(true) && v(106) == Err(Window);
    NextHourFails(v, MONDAY_MORNING);
  }

  lemma NextHourFails(v: Verdicts, now: int)
    requires VerdictAt(v, now).Ok? && v(now / HOUR + 1).Err?
    ensures NextFlip(v, now).Err?
  {
  }

  /** A flip is published, then an edit disables the schedule: inactive for good, with the flip still announced. */
  lemma FlipOutlivesDisabling()
    ensures var spec := TimeBasedSpec(true, UTC, MONDAY_AT_NINE.days, MONDAY_AT_NINE.hours);
            var off := VerdictsOf(TimeBased(spec.(enabled := false)));
            var first := StatusAfter(VerdictsOf(TimeBased(spec)), None, MONDAY_MORNING, Done);
            && first == Some(Status(true, Some(MONDAY_MORNING), Some(106 * HOUR)))
            && NextFlip(off, MONDAY_MORNING + 60) == Ok(None)
            && StatusAfter(off, first, MONDAY_MORNING + 60, Done)
               == Some(Status(false, Some(MONDAY_MORNING + 60), Some(106 * HOUR)))
  {
    var spec := TimeBasedSpec(true, UTC, MONDAY_AT_NINE.days, MONDAY_AT_NINE.hours);
    var v, off := VerdictsOf(TimeBased(spec)), VerdictsOf(TimeBased(spec.(enabled := false)));
    FirstMonday();
    hide WindowVerdict;
    MondayAtNine(105);
    MondayAtNine(106);
    assert v(105) == Ok(true) && v(106) == Ok(false);
    NextHourFlips(v, MONDAY_MORNING, true);
    NeverActive(off, MONDAY_MORNING + 60);
  }

  lemma NextHourFlips(v: Verdicts, now: int, active: bool)
    requires VerdictAt(v, now) == Ok(active) && v(now / HOUR + 1) == Ok(!active)
    ensures NextFlip(v, now) == Ok(Some((now / HOUR + 1) * HOUR))
  {
  }

  lemma NeverActive(v: Verdicts, now: int)
    requires forall h :: v(h) == Ok(false)
    ensures NextFlip(v, now) == Ok(None)
  {
    assert Constant(v, false, now, Horizon(now));
    NextFlipMeaning(v, now);
  }
}
