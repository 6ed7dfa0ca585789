/**
 When a schedule's verdict next flips. A verdict depends on the instant only through its UTC hour, so
 it is given here as a function of the hour number; instants are integer seconds since the epoch.
 */
module Transitions {
  import opened Wrappers

  datatype ProviderError = InvalidTimezone | Window

  /** Active or not, by UTC hour number. */
  type Verdicts = int -> Result<bool, ProviderError>

  const HOUR: int := 3600
  const PROVIDER_TRANSITION_HORIZON_HOURS: nat := 8 * 24
  const PROVIDER_FALLBACK_REQUEUE_SECS: int := 6 * 3600
  const PROVIDER_ERROR_REQUEUE_SECS: int := 30
  const HOURS_PER_WEEK: int := 168

  function VerdictAt(v: Verdicts, t: int): Result<bool, ProviderError> {
    v(t / HOUR)
  }

  /** The first of the `n` hours from `h` whose verdict is not `current`; an error on the way ends the scan. */
  function Scan(v: Verdicts, current: bool, h: int, n: nat): Result<Option<int>, ProviderError>
    decreases n
  {
    if n == 0 then Ok(None)
    else
      match v(h)
      case Err(e) => Err(e)
      case Ok(active) => if active != current then Ok(Some(h)) else Scan(v, current, h + 1, n - 1)
  }

  /** The next flip after an instant, as the providers compute it. */
  function NextFlip(v: Verdicts, from: int): Result<Option<int>, ProviderError> {
    match VerdictAt(v, from)
    case Err(e) => Err(e)
    case Ok(current) =>
      match Scan(v, current, from / HOUR + 1, PROVIDER_TRANSITION_HORIZON_HOURS)
      case Ok(Some(h)) => Ok(Some(h * HOUR))
      case other => other
  }

  /** The scan from `from` has got past `k` hours without deciding anything. */
  ghost predicate ScanStandsAt(v: Verdicts, from: int, current: bool, k: nat) {
    && k <= PROVIDER_TRANSITION_HORIZON_HOURS
    && VerdictAt(v, from) == Ok(current)
    && Scan(v, current, from / HOUR + 1, PROVIDER_TRANSITION_HORIZON_HOURS)
       == Scan(v, current, from / HOUR + 1 + k, PROVIDER_TRANSITION_HORIZON_HOURS - k)
  }

  lemma ScanFails(v: Verdicts, from: int, current: bool, k: nat, candidate: int)
    requires ScanStandsAt(v, from, current, k) && k < PROVIDER_TRANSITION_HORIZON_HOURS
    requires candidate == (from / HOUR + 1 + k) * HOUR && VerdictAt(v, candidate).Err?
    ensures NextFlip(v, from) == Err(VerdictAt(v, candidate).error)
  {
    assert candidate / HOUR == from / HOUR + 1 + k;
  }

  lemma ScanFinds(v: Verdicts, from: int, current: bool, k: nat, candidate: int)
    requires ScanStandsAt(v, from, current, k) && k < PROVIDER_TRANSITION_HORIZON_HOURS
    requires candidate == (from / HOUR + 1 + k) * HOUR && VerdictAt(v, candidate) == Ok(!current)
    ensures NextFlip(v, from) == Ok(Some(candidate))
  {
    assert candidate / HOUR == from / HOUR + 1 + k;
  }

  lemma ScanGoesOn(v: Verdicts, from: int, current: bool, k: nat, candidate: int)
    requires ScanStandsAt(v, from, current, k) && k < PROVIDER_TRANSITION_HORIZON_HOURS
    requires candidate == (from / HOUR + 1 + k) * HOUR && VerdictAt(v, candidate) == Ok(current)
    ensures ScanStandsAt(v, from, current, k + 1)
  {
    assert candidate / HOUR == from / HOUR + 1 + k;
  }

  lemma ScanFindsNothing(v: Verdicts, from: int, current: bool)
    requires ScanStandsAt(v, from, current, PROVIDER_TRANSITION_HORIZON_HOURS)
    ensures NextFlip(v, from) == Ok(None)
  {
  }

  /** The verdict is `current` on every one of the hours from `lo` up to but not including `hi`. */
  ghost predicate Steady(v: Verdicts, current: bool, lo: int, hi: int) {
    forall h :: lo <= h < hi ==> v(h) == Ok(current)
  }

  lemma {:induction false} ScanMeaning(v: Verdicts, current: bool, h: int, n: nat)
    ensures Scan(v, current, h, n) == Ok(None) <==> Steady(v, current, h, h + n)
    ensures forall c :: Scan(v, current, h, n) == Ok(Some(c)) <==>
              h <= c < h + n && Steady(v, current, h, c) && v(c) == Ok(!current)
    ensures Scan(v, current, h, n).Err? <==>
              exists c :: h <= c < h + n && Steady(v, current, h, c) && v(c).Err?
    decreases n
  {
    if n > 0 {
      ScanMeaning(v, current, h + 1, n - 1);
      if v(h) == Ok(current) {
        forall c | h < c ensures Steady(v, current, h, c) <==> Steady(v, current, h + 1, c) {
        }
      } else {
        assert forall c :: h < c ==> !Steady(v, current, h, c) by {
          assert forall c :: Steady(v, current, h, c) && h < c ==> v(h) == Ok(current);
        }
        assert Steady(v, current, h, h);
      }
    }
  }

  /** The verdict is Ok(`current`) throughout `[from, to)`. */
  ghost predicate Constant(v: Verdicts, current: bool, from: int, to: int) {
    forall t :: from <= t < to ==> VerdictAt(v, t) == Ok(current)
  }

  lemma SteadyIsConstant(v: Verdicts, current: bool, from: int, hi: int)
    requires from / HOUR < hi && VerdictAt(v, from) == Ok(current)
    ensures Steady(v, current, from / HOUR + 1, hi) <==> Constant(v, current, from, hi * HOUR)
  {
    if Steady(v, current, from / HOUR + 1, hi) {
      forall t | from <= t < hi * HOUR ensures VerdictAt(v, t) == Ok(current) {
        assert from / HOUR <= t / HOUR < hi;
      }
    }
    if Constant(v, current, from, hi * HOUR) {
      forall h | from / HOUR + 1 <= h < hi ensures v(h) == Ok(current) {
        assert VerdictAt(v, h * HOUR) == Ok(current);
      }
    }
  }

  /** The end of what a scan from `from` looks at: 192 whole hours after the current one. */
  function Horizon(from: int): int {
    (from / 3600 + 1 + 192) * 3600
  }

  /** `c` is the first instant after `from` with the opposite verdict, and nothing fails before it. */
  ghost predicate FirstFlipAt(v: Verdicts, from: int, c: int) {
    exists current :: from < c && Constant(v, current, from, c) && VerdictAt(v, c) == Ok(!current)
  }

  lemma HourBefore(c: int)
    ensures (c - 1) / HOUR == if c % HOUR == 0 then c / HOUR - 1 else c / HOUR
  {
  }

  /** The verdict can only change on the hour. */
  lemma FlipsOnTheHour(v: Verdicts, c: int)
    requires VerdictAt(v, c - 1) != VerdictAt(v, c)
    ensures c % HOUR == 0
  {
    HourBefore(c);
  }

  /** The scan finds exactly the first flip within its horizon, and nothing when there is none. */
  lemma NextFlipMeaning(v: Verdicts, from: int)
    ensures forall c :: NextFlip(v, from) == Ok(Some(c)) <==> c < Horizon(from) && FirstFlipAt(v, from, c)
    ensures NextFlip(v, from) == Ok(None) <==> exists current :: Constant(v, current, from, Horizon(from))
  {
    if VerdictAt(v, from).Err? {
      assert forall current, to :: from < to && Constant(v, current, from, to) ==> VerdictAt(v, from) == Ok(current);
    } else {
      var current := VerdictAt(v, from).value;
      var h, n := from / HOUR + 1, PROVIDER_TRANSITION_HORIZON_HOURS;
      ScanMeaning(v, current, h, n);
      SteadyIsConstant(v, current, from, h + n);
      assert forall x, to :: from < to && Constant(v, x, from, to) ==> VerdictAt(v, from) == Ok(x);
      forall c ensures NextFlip(v, from) == Ok(Some(c)) <==> c < Horizon(from) && FirstFlipAt(v, from, c) {
        if NextFlip(v, from) == Ok(Some(c)) {
          FoundIsFirst(v, from, c, current);
        }
        if c < Horizon(from) && FirstFlipAt(v, from, c) {
          FirstIsFound(v, from, c, current);
        }
      }
    }
  }

  lemma FoundIsFirst(v: Verdicts, from: int, c: int, current: bool)
    requires VerdictAt(v, from) == Ok(current) && NextFlip(v, from) == Ok(Some(c))
    ensures c < Horizon(from) && FirstFlipAt(v, from, c)
  {
    var h := from / HOUR + 1;
    var k := Scan(v, current, h, PROVIDER_TRANSITION_HORIZON_HOURS).value.value;
    ScanMeaning(v, current, h, PROVIDER_TRANSITION_HORIZON_HOURS);
    assert c == k * HOUR && h <= k < h + PROVIDER_TRANSITION_HORIZON_HOURS;
    assert v(k) == Ok(!current) && Steady(v, current, h, k);
    assert c / HOUR == k;
    SteadyIsConstant(v, current, from, k);
  }

  lemma FirstIsFound(v: Verdicts, from: int, c: int, current: bool)
    requires VerdictAt(v, from) == Ok(current) && c < Horizon(from) && FirstFlipAt(v, from, c)
    ensures NextFlip(v, from) == Ok(Some(c))
  {
    hide Scan;
    hide Steady;
    var x :| from < c && Constant(v, x, from, c) && VerdictAt(v, c) == Ok(!x);
    assert VerdictAt(v, from) == Ok(x) && VerdictAt(v, c - 1) == Ok(x);
    FlipsOnTheHour(v, c);
    var k := c / HOUR;
    assert c == k * HOUR;
    SteadyIsConstant(v, current, from, k);
    ScanMeaning(v, current, from / HOUR + 1, PROVIDER_TRANSITION_HORIZON_HOURS);
    assert Scan(v, current, from / HOUR + 1, PROVIDER_TRANSITION_HORIZON_HOURS) == Ok(Some(k));
  }

  /** When the scan fails: at `from`, or at an hour within the horizon before which nothing flips. */
  lemma NextFlipFailsIff(v: Verdicts, from: int)
    ensures NextFlip(v, from).Err? <==>
              (|| VerdictAt(v, from).Err?
               || exists current, c :: && from < c * HOUR < Horizon(from)
                                       && Constant(v, current, from, c * HOUR) && v(c).Err?)
  {
    if VerdictAt(v, from).Ok? {
      var current := VerdictAt(v, from).value;
      var h, n := from / HOUR + 1, PROVIDER_TRANSITION_HORIZON_HOURS;
      ScanMeaning(v, current, h, n);
      forall c | h <= c < h + n
        ensures Steady(v, current, h, c) <==> Constant(v, current, from, c * HOUR)
      {
        SteadyIsConstant(v, current, from, c);
      }
      assert forall x, to :: from < to && Constant(v, x, from, to) ==> VerdictAt(v, from) == Ok(x);
    }
  }

  /** The verdicts repeat every week. */
  ghost predicate Weekly(v: Verdicts) {
    forall h :: v(h + HOURS_PER_WEEK) == v(h)
  }

  lemma {:induction false} WeeklyForever(v: Verdicts, current: bool, lo: int, h: int)
    requires Weekly(v) && Steady(v, current, lo, lo + HOURS_PER_WEEK) && lo <= h
    ensures v(h) == Ok(current)
    decreases h - lo
  {
    if h >= lo + HOURS_PER_WEEK {
      WeeklyForever(v, current, lo, h - HOURS_PER_WEEK);
      assert v((h - HOURS_PER_WEEK) + HOURS_PER_WEEK) == v(h - HOURS_PER_WEEK);
    }
  }

  /** For a weekly schedule the horizon hides nothing: no flip found means the verdict never changes again. */
  lemma WeeklyScanIsExact(v: Verdicts, from: int)
    requires Weekly(v)
    ensures NextFlip(v, from) == Ok(None) <==>
            exists current :: forall t :: from <= t ==> VerdictAt(v, t) == Ok(current)
    ensures forall c :: NextFlip(v, from) == Ok(Some(c)) <==> FirstFlipAt(v, from, c)
  {
    NextFlipMeaning(v, from);
    var lo := from / HOUR;
    if current :| Constant(v, current, from, Horizon(from)) {
      SteadyIsConstant(v, current, from, lo + 1 + PROVIDER_TRANSITION_HORIZON_HOURS);
      assert Steady(v, current, lo, lo + HOURS_PER_WEEK);
      forall t | from <= t ensures VerdictAt(v, t) == Ok(current) {
        WeeklyForever(v, current, lo, t / HOUR);
      }
    }
    if current :| forall t :: from <= t ==> VerdictAt(v, t) == Ok(current) {
      assert Constant(v, current, from, Horizon(from));
    }
    forall c | FirstFlipAt(v, from, c) ensures c < Horizon(from) {
      WeeklyFlipIsNear(v, from, c);
    }
  }

  lemma WeeklyFlipIsNear(v: Verdicts, from: int, c: int)
    requires Weekly(v) && FirstFlipAt(v, from, c)
    ensures c < Horizon(from)
  {
    var current :| from < c && Constant(v, current, from, c) && VerdictAt(v, c) == Ok(!current);
    var lo := from / HOUR;
    if c >= Horizon(from) {
      assert Constant(v, current, from, Horizon(from));
      assert VerdictAt(v, from) == Ok(current);
      SteadyIsConstant(v, current, from, lo + 1 + PROVIDER_TRANSITION_HORIZON_HOURS);
      assert Steady(v, current, lo, lo + HOURS_PER_WEEK);
      WeeklyForever(v, current, lo, c / HOUR);
      assert false;
    }
  }
}
