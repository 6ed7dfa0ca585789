/** The two schedule providers: when each is active, and what one reconcile publishes. */
module Providers {
  import opened Wrappers
  import opened Text
  import opened RangeSpecs
  import opened Transitions

  /** A looked-up zone: its offset in whole hours, constant over each UTC hour. */
  datatype Zone = UnknownZone | Zone(offsetAt: int -> int)

  datatype TimeBasedSpec = TimeBasedSpec(enabled: bool, zone: Zone, days: seq<string>, hours: seq<string>)

  datatype Session = Session(days: seq<string>, hours: seq<string>)

  /** Dates are local day numbers since the epoch. */
  datatype EarlyClose = EarlyClose(date: int, closeHour: nat)

  datatype MarketsSpec = MarketsSpec(
    zone: Zone, holidays: seq<int>, sessions: seq<Session>, earlyCloses: seq<EarlyClose>)

  datatype Spec = TimeBased(schedule: TimeBasedSpec) | CapitalMarkets(market: MarketsSpec)

  /** The local hour number that a UTC hour falls in. */
  function LocalHour(zone: Zone, h: int): int
    requires zone.Zone?
  {
    h + zone.offsetAt(h)
  }

  function HourOfDay(localHour: int): int {
    localHour % 24
  }

  function DateOf(localHour: int): int {
    localHour / 24
  }

  /** Days from Monday; the epoch was a Thursday. */
  function Weekday(localHour: int): int {
    (DateOf(localHour) + 3) % 7
  }

  // ---------------------------------------------------------------------------------------------
  // The local clock, in seconds
  // ---------------------------------------------------------------------------------------------

  /**
   The local time of the instant is in hour `x` of day `d` of week `w`, day 0 being Monday and week 0 the
   week of the epoch, which was a Thursday.
   */
  ghost predicate LocallyIn(zone: Zone, instant: int, w: int, d: int, x: int) {
    && zone.Zone? && 0 <= d < 7 && 0 <= x < 24
    && 0 <= instant + 3600 * zone.offsetAt(instant / 3600) - (86400 * LocalDay(w, d) + 3600 * x) < 3600
  }

  /** Day `d` of week `w`, counted from the epoch. */
  function LocalDay(w: int, d: int): int {
    7 * w + d - 3
  }

  lemma LocalClock(zone: Zone, instant: int, w: int, d: int, x: int)
    requires LocallyIn(zone, instant, w, d, x)
    ensures var localHour := LocalHour(zone, instant / HOUR);
            DateOf(localHour) == LocalDay(w, d) && Weekday(localHour) == d && HourOfDay(localHour) == x
  {
    var h := instant / 3600;
    var localHour := LocalHour(zone, h);
    assert instant == 3600 * h + instant % 3600;
    assert localHour == 24 * LocalDay(w, d) + x;
    assert localHour / 24 == LocalDay(w, d) && localHour % 24 == x;
    assert (LocalDay(w, d) + 3) % 7 == d;
  }

  /** Every instant is in one such hour. */
  lemma LocallyInExists(zone: Zone, instant: int) returns (w: int, d: int, x: int)
    requires zone.Zone?
    ensures LocallyIn(zone, instant, w, d, x)
  {
    var localHour := instant / 3600 + zone.offsetAt(instant / 3600);
    var n := localHour / 24;
    w, d, x := (n + 3) / 7, (n + 3) % 7, localHour % 24;
    assert LocalDay(w, d) == n;
  }

  // ---------------------------------------------------------------------------------------------
  // Verdicts
  // ---------------------------------------------------------------------------------------------

  /** The day and hour lists both parse. */
  ghost predicate Readable(days: seq<string>, hours: seq<string>) {
    WellFormed(Days, Parts(days)) && WellFormed(Hours, Parts(hours))
  }

  ghost predicate Covers(days: seq<string>, hours: seq<string>, localHour: int) {
    Weekday(localHour) in Union(Days, Parts(days)) && HourOfDay(localHour) in Union(Hours, Parts(hours))
  }

  ghost function WindowVerdict(days: seq<string>, hours: seq<string>, localHour: int): Result<bool, ProviderError> {
    if Readable(days, hours) then Ok(Covers(days, hours, localHour)) else Err(Window)
  }

  ghost function TimeBasedVerdict(spec: TimeBasedSpec, h: int): Result<bool, ProviderError> {
    if !spec.enabled then Ok(false)
    else if spec.zone.UnknownZone? then Err(InvalidTimezone)
    else WindowVerdict(spec.days, spec.hours, LocalHour(spec.zone, h))
  }

  /** The first session that is unreadable or covers the hour decides. */
  ghost function SessionsVerdict(sessions: seq<Session>, localHour: int): Result<bool, ProviderError> {
    if |sessions| == 0 then Ok(false)
    else
      match WindowVerdict(sessions[0].days, sessions[0].hours, localHour)
      case Ok(false) => SessionsVerdict(sessions[1..], localHour)
      case decided => decided
  }

  function FirstEarlyClose(earlyCloses: seq<EarlyClose>, date: int): Option<nat> {
    if |earlyCloses| == 0 then None
    else if earlyCloses[0].date == date then Some(earlyCloses[0].closeHour)
    else FirstEarlyClose(earlyCloses[1..], date)
  }

  predicate ClosedEarly(earlyCloses: seq<EarlyClose>, localHour: int) {
    var close := FirstEarlyClose(earlyCloses, DateOf(localHour));
    close.Some? && HourOfDay(localHour) > close.value
  }

  ghost function MarketsVerdict(spec: MarketsSpec, h: int): Result<bool, ProviderError> {
    if spec.zone.UnknownZone? then Err(InvalidTimezone)
    else
      var localHour := LocalHour(spec.zone, h);
      if DateOf(localHour) in spec.holidays then Ok(false)
      else
        match SessionsVerdict(spec.sessions, localHour)
        case Ok(true) => Ok(!ClosedEarly(spec.earlyCloses, localHour))
        case other => other
  }

  ghost function HourVerdict(spec: Spec, h: int): Result<bool, ProviderError> {
    match spec
    case TimeBased(schedule) => TimeBasedVerdict(schedule, h)
    case CapitalMarkets(market) => MarketsVerdict(market, h)
  }

  ghost function VerdictsOf(spec: Spec): Verdicts {
    h => HourVerdict(spec, h)
  }

  // ---------------------------------------------------------------------------------------------
  // The same on the text of the lists
  // ---------------------------------------------------------------------------------------------

  /** Some part of a list names the value. */
  ghost predicate Names(f: Field, specs: seq<string>, value: int) {
    exists p, a, b :: p in Parts(specs) && Denotes(f, p, a, b) && value in Cyclic(Modulus(f), a, b)
  }

  /** The window covers hour `x` of weekday `d`. */
  ghost predicate Shows(days: seq<string>, hours: seq<string>, d: int, x: int) {
    Names(Days, days, d) && Names(Hours, hours, x)
  }

  /** Session `k` is the first that is unreadable or covers the hour. */
  ghost predicate FirstToDecide(sessions: seq<Session>, d: int, x: int, k: int) {
    && 0 <= k < |sessions|
    && forall j :: 0 <= j < k ==>
         Readable(sessions[j].days, sessions[j].hours) && !Shows(sessions[j].days, sessions[j].hours, d, x)
  }

  ghost predicate OpensIn(sessions: seq<Session>, d: int, x: int, k: int) {
    && FirstToDecide(sessions, d, x, k)
    && Readable(sessions[k].days, sessions[k].hours) && Shows(sessions[k].days, sessions[k].hours, d, x)
  }

  ghost predicate FailsIn(sessions: seq<Session>, d: int, x: int, k: int) {
    FirstToDecide(sessions, d, x, k) && !Readable(sessions[k].days, sessions[k].hours)
  }

  /** Entry `k` is the first early close of the date. */
  ghost predicate FirstFor(earlyCloses: seq<EarlyClose>, date: int, k: int) {
    && 0 <= k < |earlyCloses| && earlyCloses[k].date == date
    && forall j :: 0 <= j < k ==> earlyCloses[j].date != date
  }

  /** The first early close of the date, if any, comes before hour `x`. */
  ghost predicate ClosedBy(earlyCloses: seq<EarlyClose>, date: int, x: int) {
    exists k :: FirstFor(earlyCloses, date, k) && earlyCloses[k].closeHour < x
  }

  /**
   The rules for date `date`, a weekday `d`, at hour `x`: a holiday closes the market, even with unreadable
   sessions; otherwise it is open exactly when some session opens it and no early close comes before, and
   fails exactly when an unreadable session decides.
   */
  ghost predicate DecidedBy(spec: MarketsSpec, date: int, d: int, x: int, r: Result<bool, ProviderError>) {
    if date in spec.holidays then r == Ok(false)
    else
      && (r == Ok(true) <==> (exists k :: OpensIn(spec.sessions, d, x, k)) && !ClosedBy(spec.earlyCloses, date, x))
      && (r == Err(Window) <==> exists k :: FailsIn(spec.sessions, d, x, k))
      && (r.Err? ==> r == Err(Window))
  }

  // ---------------------------------------------------------------------------------------------
  // Evaluating an instant
  // ---------------------------------------------------------------------------------------------

  /** Parse one pair of lists and look the local hour up in them. */
  method EvaluateWindow(days: seq<string>, hours: seq<string>, localHour: int)
    returns (r: Result<bool, ProviderError>)
    ensures r == WindowVerdict(days, hours, localHour)
  {
    var d := ParseDayRanges(days);
    if d.Err? {
      return Err(Window);
    }
    var h := ParseHourRanges(hours);
    if h.Err? {
      return Err(Window);
    }
    return Ok(Weekday(localHour) in d.value && HourOfDay(localHour) in h.value);
  }

  method IsTimeBasedActiveAt(spec: TimeBasedSpec, instant: int) returns (r: Result<bool, ProviderError>)
    ensures r == VerdictAt(VerdictsOf(TimeBased(spec)), instant)
    ensures !spec.enabled ==> r == Ok(false)
    ensures spec.enabled && spec.zone.UnknownZone? ==> r == Err(InvalidTimezone)
    ensures spec.enabled && spec.zone.Zone? && !Readable(spec.days, spec.hours) ==> r == Err(Window)
    ensures spec.enabled && Readable(spec.days, spec.hours) ==>
              forall w, d, x :: LocallyIn(spec.zone, instant, w, d, x) ==> r == Ok(Shows(spec.days, spec.hours, d, x))
  {
    forall w, d, x | LocallyIn(spec.zone, instant, w, d, x)
      ensures Covers(spec.days, spec.hours, LocalHour(spec.zone, instant / HOUR)) <==>
              Shows(spec.days, spec.hours, d, x)
    {
      LocalClock(spec.zone, instant, w, d, x);
      CoversIff(spec.days, spec.hours, LocalHour(spec.zone, instant / HOUR));
    }
    if !spec.enabled {
      return Ok(false);
    }
    match spec.zone
    case UnknownZone =>
      return Err(InvalidTimezone);
    case Zone(_) =>
      r := EvaluateWindow(spec.days, spec.hours, LocalHour(spec.zone, instant / HOUR));
  }

  method FindEarlyClose(earlyCloses: seq<EarlyClose>, date: int) returns (close: Option<nat>)
    ensures close == FirstEarlyClose(earlyCloses, date)
  {
    for i := 0 to |earlyCloses|
      invariant FirstEarlyClose(earlyCloses, date) == FirstEarlyClose(earlyCloses[i..], date)
    {
      assert earlyCloses[i..][1..] == earlyCloses[i + 1..];
      if earlyCloses[i].date == date {
        return Some(earlyCloses[i].closeHour);
      }
    }
    return None;
  }

  method IsMarketActiveAt(spec: MarketsSpec, instant: int) returns (r: Result<bool, ProviderError>)
    ensures r == VerdictAt(VerdictsOf(CapitalMarkets(spec)), instant)
    ensures spec.zone.UnknownZone? ==> r == Err(InvalidTimezone)
    ensures forall w, d, x :: LocallyIn(spec.zone, instant, w, d, x) ==> DecidedBy(spec, LocalDay(w, d), d, x, r)
  {
    forall w, d, x | LocallyIn(spec.zone, instant, w, d, x)
      ensures DecidedBy(spec, LocalDay(w, d), d, x, MarketsVerdict(spec, instant / HOUR))
    {
      MarketRules(spec, instant, w, d, x);
    }
    if spec.zone.UnknownZone? {
      return Err(InvalidTimezone);
    }
    var localHour := LocalHour(spec.zone, instant / HOUR);
    if DateOf(localHour) in spec.holidays {
      return Ok(false);
    }
    var inSession := AnySession(spec.sessions, localHour);
    if inSession.Err? || !inSession.value {
      return inSession;
    }
    var close := FindEarlyClose(spec.earlyCloses, DateOf(localHour));
    if close.Some? && HourOfDay(localHour) > close.value {
      return Ok(false);
    }
    return Ok(true);
  }

  method AnySession(sessions: seq<Session>, localHour: int) returns (r: Result<bool, ProviderError>)
    ensures r == SessionsVerdict(sessions, localHour)
  {
    var inSession := false;
    for i := 0 to |sessions|
      invariant !inSession
      invariant SessionsVerdict(sessions, localHour) == SessionsVerdict(sessions[i..], localHour)
    {
      assert sessions[i..][0] == sessions[i] && sessions[i..][1..] == sessions[i + 1..];
      var covered := EvaluateWindow(sessions[i].days, sessions[i].hours, localHour);
      if covered.Err? {
        return covered;
      }
      if covered.value {
        inSession := true;
        break;
      }
    }
    return Ok(inSession);
  }

  method IsActiveAt(spec: Spec, instant: int) returns (r: Result<bool, ProviderError>)
    ensures r == VerdictAt(VerdictsOf(spec), instant)
  {
    match spec
    case TimeBased(schedule) => r := IsTimeBasedActiveAt(schedule, instant);
    case CapitalMarkets(market) => r := IsMarketActiveAt(market, instant);
  }

  /** Scan hour by hour from the next whole hour for the next flip. */
  method NextTransition(spec: Spec, from: int) returns (r: Result<Option<int>, ProviderError>)
    ensures r == NextFlip(VerdictsOf(spec), from)
  {
    hide HourVerdict;
    var current := IsActiveAt(spec, from);
    if current.Err? {
      return Err(current.error);
    }
    var candidate := from / HOUR * HOUR + HOUR;
    ghost var v := VerdictsOf(spec);
    for k := 0 to PROVIDER_TRANSITION_HORIZON_HOURS
      invariant candidate == (from / HOUR + 1 + k) * HOUR
      invariant ScanStandsAt(v, from, current.value, k)
    {
      var active := IsActiveAt(spec, candidate);
      if active.Err? {
        ScanFails(v, from, current.value, k, candidate);
        return Err(active.error);
      }
      if active.value != current.value {
        ScanFinds(v, from, current.value, k, candidate);
        return Ok(Some(candidate));
      }
      ScanGoesOn(v, from, current.value, k, candidate);
      candidate := candidate + HOUR;
    }
    ScanFindsNothing(v, from, current.value);
    return Ok(None);
  }

  // ---------------------------------------------------------------------------------------------
  // Reconciling
  // ---------------------------------------------------------------------------------------------

  datatype Status = Status(active: bool, lastTransition: Option<int>, nextTransition: Option<int>)

  /** The status after a successful merge patch; absent keys of the patch keep their old values. */
  function Published(status: Option<Status>, now: int, active: bool, next: Option<int>): Status {
    var changed := status.None? || status.value.active != active;
    var oldNext := if status.Some? then status.value.nextTransition else None;
    Status(
      active,
      if changed then Some(now) else status.value.lastTransition,
      if next.Some? then next else oldNext)
  }

  /** When the next reconcile is due after one that succeeded. */
  function DueIn(now: int, next: Option<int>): int {
    if next.Some? then next.value - now else PROVIDER_FALLBACK_REQUEUE_SECS
  }

  function StatusAfter(v: Verdicts, status: Option<Status>, now: int, patch: Reply): Option<Status> {
    match (VerdictAt(v, now), NextFlip(v, now))
    case (Ok(active), Ok(next)) => if patch.Refused? then status else Some(Published(status, now, active, next))
    case _ => status
  }

  function RequeueAfter(v: Verdicts, now: int, patch: Reply): int {
    match NextFlip(v, now)
    case Ok(next) => if patch.Done? then DueIn(now, next) else PROVIDER_ERROR_REQUEUE_SECS
    case Err(_) => PROVIDER_ERROR_REQUEUE_SECS
  }

  class ScheduleObject {
    const spec: Spec
    var status: Option<Status>

    constructor (spec: Spec)
      ensures this.spec == spec && status == None
    {
      this.spec := spec;
      status := None;
    }

    /** One reconcile; `patch` is what becomes of the status patch. */
    method Reconcile(now: int, patch: Reply) returns (requeue: int)
      modifies this`status
      ensures status == StatusAfter(VerdictsOf(spec), old(status), now, patch)
      ensures requeue == RequeueAfter(VerdictsOf(spec), now, patch)
    {
      var active := IsActiveAt(spec, now);
      if active.Err? {
        return PROVIDER_ERROR_REQUEUE_SECS;
      }
      var next := NextTransition(spec, now);
      if next.Err? {
        return PROVIDER_ERROR_REQUEUE_SECS;
      }
      var previous := if status.Some? then Some(status.value.active) else None;
      var lastTransition := if status.Some? then status.value.lastTransition else None;
      if previous != Some(active.value) {
        lastTransition := Some(now);
      }
      if patch.Refused? {
        return PROVIDER_ERROR_REQUEUE_SECS;
      }
      var nextTransition := if status.Some? then status.value.nextTransition else None;
      if next.value.Some? {
        nextTransition := next.value;
      }
      status := Some(Status(active.value, lastTransition, nextTransition));
      if !patch.Done? {
        return PROVIDER_ERROR_REQUEUE_SECS;
      }
      requeue := match next.value case Some(at) => at - now case None => PROVIDER_FALLBACK_REQUEUE_SECS;
    }
  }

  // ---------------------------------------------------------------------------------------------
  // What the verdicts mean
  // ---------------------------------------------------------------------------------------------

  lemma CoversIff(days: seq<string>, hours: seq<string>, localHour: int)
    ensures Covers(days, hours, localHour) <==>
            Names(Days, days, Weekday(localHour)) && Names(Hours, hours, HourOfDay(localHour))
  {
    ParsedSet(Days, days, Weekday(localHour));
    ParsedSet(Hours, hours, HourOfDay(localHour));
  }

  ghost predicate AllReadable(sessions: seq<Session>) {
    forall s :: s in sessions ==> Readable(s.days, s.hours)
  }

  lemma FirstToDecideTail(sessions: seq<Session>, d: int, x: int, k: int)
    requires 0 < k
    ensures FirstToDecide(sessions, d, x, k) <==>
            && |sessions| > 0 && Readable(sessions[0].days, sessions[0].hours)
            && !Shows(sessions[0].days, sessions[0].hours, d, x) && FirstToDecide(sessions[1..], d, x, k - 1)
  {
    if |sessions| > 0 {
      var rest := sessions[1..];
      assert forall j :: 0 < j < |sessions| ==> sessions[j] == rest[j - 1];
      assert forall j :: 0 <= j < |rest| ==> rest[j] == sessions[j + 1];
    }
  }

  /** The first session that is unreadable or covers the hour decides, and without one the market is closed. */
  lemma {:induction false} OpenIff(sessions: seq<Session>, localHour: int, d: int, x: int)
    requires d == Weekday(localHour) && x == HourOfDay(localHour)
    ensures SessionsVerdict(sessions, localHour) == Ok(true) <==> exists k :: OpensIn(sessions, d, x, k)
    ensures SessionsVerdict(sessions, localHour) == Err(Window) <==> exists k :: FailsIn(sessions, d, x, k)
    ensures SessionsVerdict(sessions, localHour).Err? ==> SessionsVerdict(sessions, localHour) == Err(Window)
  {
    hide Readable;
    hide Covers;
    hide Shows;
    if |sessions| > 0 {
      var first, rest := sessions[0], sessions[1..];
      CoversIs(first.days, first.hours, localHour, d, x);
      OpenIff(rest, localHour, d, x);
      forall k: int | k > 0
        ensures OpensIn(sessions, d, x, k) ==> OpensIn(rest, d, x, k - 1)
        ensures FailsIn(sessions, d, x, k) ==> FailsIn(rest, d, x, k - 1)
      {
        FirstToDecideTail(sessions, d, x, k);
      }
      if Readable(first.days, first.hours) && !Shows(first.days, first.hours, d, x) {
        forall k: int
          ensures OpensIn(rest, d, x, k) ==> OpensIn(sessions, d, x, k + 1)
          ensures FailsIn(rest, d, x, k) ==> FailsIn(sessions, d, x, k + 1)
        {
          if FirstToDecide(rest, d, x, k) {
            FirstToDecideTail(sessions, d, x, k + 1);
          }
        }
      } else {
        assert OpensIn(sessions, d, x, 0) || FailsIn(sessions, d, x, 0);
      }
    }
  }

  lemma CoversIs(days: seq<string>, hours: seq<string>, localHour: int, d: int, x: int)
    requires d == Weekday(localHour) && x == HourOfDay(localHour)
    ensures Covers(days, hours, localHour) <==> Shows(days, hours, d, x)
  {
    CoversIff(days, hours, localHour);
  }

  /** Readable sessions always give a verdict, and only they can give a closed one. */
  lemma {:induction false} ReadableSessionsDecide(sessions: seq<Session>, localHour: int)
    ensures AllReadable(sessions) ==> SessionsVerdict(sessions, localHour).Ok?
    ensures SessionsVerdict(sessions, localHour) == Ok(false) ==> AllReadable(sessions)
  {
    if |sessions| > 0 {
      ReadableSessionsDecide(sessions[1..], localHour);
      assert sessions == [sessions[0]] + sessions[1..];
    }
  }

  /** Of several early closes on one date the first counts. */
  lemma {:induction false} FirstEarlyCloseIff(earlyCloses: seq<EarlyClose>, date: int, hour: nat)
    ensures FirstEarlyClose(earlyCloses, date) == Some(hour) <==>
            exists k :: FirstFor(earlyCloses, date, k) && earlyCloses[k].closeHour == hour
  {
    if |earlyCloses| > 0 {
      var rest := earlyCloses[1..];
      FirstEarlyCloseIff(rest, date, hour);
      forall k | 0 < k
        ensures FirstFor(earlyCloses, date, k) <==> earlyCloses[0].date != date && FirstFor(rest, date, k - 1)
      {
        assert forall j :: 0 < j < |earlyCloses| ==> earlyCloses[j] == rest[j - 1];
        assert forall j :: 0 <= j < |rest| ==> rest[j] == earlyCloses[j + 1];
      }
      assert FirstFor(earlyCloses, date, 0) <==> earlyCloses[0].date == date;
      if k :| FirstFor(rest, date, k) && rest[k].closeHour == hour {
        assert FirstFor(rest, date, k + 1 - 1) && earlyCloses[k + 1] == rest[k];
      }
    }
  }

  lemma ClosedEarlyIff(earlyCloses: seq<EarlyClose>, localHour: int, date: int, x: int)
    requires date == DateOf(localHour) && x == HourOfDay(localHour)
    ensures ClosedEarly(earlyCloses, localHour) <==> ClosedBy(earlyCloses, date, x)
  {
    var close := FirstEarlyClose(earlyCloses, date);
    if close.Some? {
      FirstEarlyCloseIff(earlyCloses, date, close.value);
    }
    if k :| FirstFor(earlyCloses, date, k) && earlyCloses[k].closeHour < x {
      FirstEarlyCloseIff(earlyCloses, date, earlyCloses[k].closeHour);
    }
  }

  lemma MarketRules(spec: MarketsSpec, instant: int, w: int, d: int, x: int)
    requires LocallyIn(spec.zone, instant, w, d, x)
    ensures DecidedBy(spec, LocalDay(w, d), d, x, MarketsVerdict(spec, instant / HOUR))
  {
    var localHour := LocalHour(spec.zone, instant / HOUR);
    LocalClock(spec.zone, instant, w, d, x);
    OpenIff(spec.sessions, localHour, d, x);
    ClosedEarlyIff(spec.earlyCloses, localHour, LocalDay(w, d), x);
    hide SessionsVerdict;
    hide ClosedEarly;
    hide OpensIn;
    hide FailsIn;
  }

  lemma WeekLater(localHour: int)
    ensures Weekday(localHour + HOURS_PER_WEEK) == Weekday(localHour)
    ensures HourOfDay(localHour + HOURS_PER_WEEK) == HourOfDay(localHour)
  {
    assert (localHour + 168) / 24 == localHour / 24 + 7;
  }

  lemma WindowIsWeekly(days: seq<string>, hours: seq<string>, localHour: int, later: int)
    requires later == localHour + HOURS_PER_WEEK
    ensures WindowVerdict(days, hours, later) == WindowVerdict(days, hours, localHour)
  {
    WeekLater(localHour);
  }

  /** With a constant offset the time-based verdict repeats every week. */
  lemma TimeBasedIsWeekly(spec: TimeBasedSpec, offset: int)
    requires spec.zone.Zone? ==> forall h :: spec.zone.offsetAt(h) == offset
    ensures Weekly(VerdictsOf(TimeBased(spec)))
  {
    var v := VerdictsOf(TimeBased(spec));
    forall h ensures v(h + HOURS_PER_WEEK) == v(h) {
      TimeBasedWeekLater(spec, offset, h, h + HOURS_PER_WEEK);
    }
  }

  lemma TimeBasedWeekLater(spec: TimeBasedSpec, offset: int, h: int, later: int)
    requires spec.zone.Zone? ==> forall h :: spec.zone.offsetAt(h) == offset
    requires later == h + HOURS_PER_WEEK
    ensures TimeBasedVerdict(spec, later) == TimeBasedVerdict(spec, h)
  {
    if spec.zone.Zone? {
      WindowIsWeekly(spec.days, spec.hours, LocalHour(spec.zone, h), LocalHour(spec.zone, later));
    }
  }
}
