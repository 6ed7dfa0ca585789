/** The deque of recent emergency reclaims of one machine, and when it signals a reclaim loop. */
module LoopProtection {
  import opened Seqs

  const RAPID_RE_RECLAIM_THRESHOLD: nat := 3
  const RAPID_RE_RECLAIM_WINDOW_SECS: int := 600
  const RAPID_RE_RECLAIM_MAX_TRACKED: nat := 10

  function Cutoff(now: int): int {
    now - RAPID_RE_RECLAIM_WINDOW_SECS
  }

  function NotOlder(cutoff: int): int -> bool {
    t => t >= cutoff
  }

  /** The events of a history that lie in the window ending at `now`. */
  function InWindow(history: seq<int>, now: int): seq<int> {
    Filter(history, NotOlder(Cutoff(now)))
  }

  function Newest(events: seq<int>, n: nat): seq<int> {
    if |events| > n then events[|events| - n..] else events
  }

  /** The deque once entries older than the cutoff are popped off its front. */
  function PrunedFront(events: seq<int>, cutoff: int): seq<int> {
    if |events| > 0 && events[0] < cutoff then PrunedFront(events[1..], cutoff) else events
  }

  function Recorded(events: seq<int>, now: int): seq<int> {
    Newest(PrunedFront(events, Cutoff(now)) + [now], RAPID_RE_RECLAIM_MAX_TRACKED)
  }

  /** The deque after a whole history of recorded reclaims. */
  function DequeAfter(history: seq<int>): seq<int>
    decreases |history|
  {
    if |history| == 0 then [] else Recorded(DequeAfter(history[..|history| - 1]), history[|history| - 1])
  }

  class ReclaimTracker {
    var events: seq<int>

    constructor ()
      ensures events == DequeAfter([])
    {
      events := [];
    }

    method PruneOldReclaimEvents(now: int)
      modifies this`events
      ensures events == PrunedFront(old(events), Cutoff(now))
    {
      var cutoff := Cutoff(now);
      while |events| > 0 && events[0] < cutoff
        invariant PrunedFront(events, cutoff) == PrunedFront(old(events), cutoff)
        decreases |events|
      {
        events := events[1..];
      }
    }

    method RecordEmergencyReclaimEvent(now: int) returns (rapid: bool)
      modifies this`events
      ensures events == Recorded(old(events), now)
      ensures rapid <==> |events| >= 3
      ensures 0 < |events| <= 10 && events[|events| - 1] == now
    {
      PruneOldReclaimEvents(now);
      events := events + [now];
      ghost var pushed := events;
      while |events| > RAPID_RE_RECLAIM_MAX_TRACKED
        invariant |events| >= RAPID_RE_RECLAIM_MAX_TRACKED || events == pushed
        invariant |events| <= |pushed| && events == pushed[|pushed| - |events|..]
      {
        events := events[1..];
      }
      rapid := |events| >= RAPID_RE_RECLAIM_THRESHOLD;
    }

    method ShouldWarnRapidReReclaim(now: int) returns (rapid: bool)
      ensures rapid <==> |InWindow(events, now)| >= 3
    {
      var count := 0;
      for i := 0 to |events|
        invariant count == |InWindow(events[..i], now)|
      {
        assert events[..i + 1] == events[..i] + [events[i]];
        FilterSnoc(events[..i], events[i], NotOlder(Cutoff(now)));
        if events[i] >= Cutoff(now) {
          count := count + 1;
        }
      }
      assert events[..|events|] == events;
      rapid := count >= RAPID_RE_RECLAIM_THRESHOLD;
    }
  }

  // ---------------------------------------------------------------------------------------------
  // The deque against the full history
  // ---------------------------------------------------------------------------------------------

  /** Timestamps never step back. */
  ghost predicate NonDecreasing(history: seq<int>) {
    forall i, j :: 0 <= i <= j < |history| ==> history[i] <= history[j]
  }

  /** `k` is where the window opens in an ordered history. */
  ghost predicate OpensAt(history: seq<int>, cutoff: int, k: nat) {
    && k <= |history|
    && (forall i :: 0 <= i < k ==> history[i] < cutoff)
    && (forall i :: k <= i < |history| ==> history[i] >= cutoff)
  }

  lemma {:induction false} WindowIsSuffix(history: seq<int>, now: int) returns (k: nat)
    requires NonDecreasing(history)
    ensures OpensAt(history, Cutoff(now), k) && InWindow(history, now) == history[k..]
    decreases |history|
  {
    if |history| == 0 {
      k := 0;
    } else {
      var n := |history| - 1;
      var init := history[..n];
      k := WindowIsSuffix(init, now);
      if history[n] < Cutoff(now) {
        k := n + 1;
        FilterNone(init, NotOlder(Cutoff(now)));
      } else {
        assert history[k..] == init[k..] + [history[n]];
      }
    }
  }

  lemma {:induction false} PruneOpens(events: seq<int>, cutoff: int, k: nat)
    requires OpensAt(events, cutoff, k)
    ensures PrunedFront(events, cutoff) == events[k..]
  {
    if k > 0 {
      assert OpensAt(events[1..], cutoff, k - 1);
      PruneOpens(events[1..], cutoff, k - 1);
      assert events[1..][k - 1..] == events[k..];
    }
  }

  lemma OpensInSuffix(history: seq<int>, cutoff: int, k: nat, from: nat)
    requires OpensAt(history, cutoff, k) && from <= |history|
    ensures OpensAt(history[from..], cutoff, if k < from then 0 else k - from)
  {
  }

  /** Recording onto a deque that holds a suffix of an ordered history. */
  lemma RecordedSuffix(history: seq<int>, now: int, from: nat, k: nat)
    requires from <= |history| && OpensAt(history, Cutoff(now), k)
    ensures Recorded(history[from..], now)
         == Newest((history + [now])[if k < from then from else k..], RAPID_RE_RECLAIM_MAX_TRACKED)
  {
    var start := if k < from then 0 else k - from;
    OpensInSuffix(history, Cutoff(now), k, from);
    PruneOpens(history[from..], Cutoff(now), start);
    assert history[from..][start..] == history[from + start..];
    assert (history + [now])[from + start..] == history[from + start..] + [now];
  }

  lemma OpensLater(history: seq<int>, cutoff: int, later: int, k: nat, m: nat)
    requires cutoff <= later && OpensAt(history, cutoff, k) && OpensAt(history, later, m)
    ensures k <= m
  {
    assert k > 0 ==> history[k - 1] < cutoff;
  }

  lemma NewestSuffix(history: seq<int>, k: nat, newest: seq<int>)
    requires k <= |history| && newest == Newest(history[k..], RAPID_RE_RECLAIM_MAX_TRACKED)
    ensures var n := |history|;
            newest == history[if n - k > RAPID_RE_RECLAIM_MAX_TRACKED then n - RAPID_RE_RECLAIM_MAX_TRACKED else k..]
  {
  }

  /** Dropping down to ten before a push changes nothing that a drop to ten after it keeps. */
  lemma NewestTwice(history: seq<int>, k: nat, from: nat)
    requires k <= |history| && from <= |history|
    requires from <= k || from <= |history| - RAPID_RE_RECLAIM_MAX_TRACKED
    ensures Newest(history[if k < from then from else k..], RAPID_RE_RECLAIM_MAX_TRACKED)
         == Newest(history[k..], RAPID_RE_RECLAIM_MAX_TRACKED)
  {
    NewestSuffix(history, k, Newest(history[k..], RAPID_RE_RECLAIM_MAX_TRACKED));
    if k < from {
      NewestSuffix(history, from, Newest(history[from..], RAPID_RE_RECLAIM_MAX_TRACKED));
    }
  }

  /** Where the window of a longer history opens, and the list it leaves. */
  lemma WindowGrows(init: seq<int>, now: int, history: seq<int>) returns (k: nat)
    requires NonDecreasing(history) && history == init + [now]
    ensures OpensAt(init, Cutoff(now), k) && InWindow(history, now) == history[k..]
  {
    assert forall i :: 0 <= i < |init| ==> init[i] == history[i];
    k := WindowIsSuffix(init, now);
    FilterSnoc(init, now, NotOlder(Cutoff(now)));
    assert history[k..] == init[k..] + [now];
  }

  /** One more recording: a deque that holds the newest of an older window becomes that of the new one. */
  lemma WindowMoves(init: seq<int>, deque: seq<int>, before: int, now: int, history: seq<int>)
    requires NonDecreasing(init) && NonDecreasing(history) && history == init + [now] && before <= now
    requires deque == Newest(InWindow(init, before), RAPID_RE_RECLAIM_MAX_TRACKED)
    ensures Recorded(deque, now) == Newest(InWindow(history, now), RAPID_RE_RECLAIM_MAX_TRACKED)
  {
    hide InWindow;
    hide Recorded;
    hide NonDecreasing;
    var k0 := WindowIsSuffix(init, before);
    var k := WindowGrows(init, now, history);
    OpensLater(init, Cutoff(before), Cutoff(now), k0, k);
    var n := |init|;
    var from := if n - k0 > RAPID_RE_RECLAIM_MAX_TRACKED then n - RAPID_RE_RECLAIM_MAX_TRACKED else k0;
    NewestSuffix(init, k0, deque);
    RecordedSuffix(init, now, from, k);
    NewestTwice(history, k, from);
  }

  /** For timestamps that never step back, the deque holds the newest ten in-window events of the history. */
  lemma {:induction false} DequeIsWindow(history: seq<int>)
    requires NonDecreasing(history) && |history| > 0
    ensures DequeAfter(history)
         == Newest(InWindow(history, history[|history| - 1]), 10)
    decreases |history|
  {
    var n := |history| - 1;
    var init, now := history[..n], history[n];
    assert history == init + [now];
    if n == 0 {
      assert InWindow([], now) == [];
      WindowMoves([], [], now, now, history);
    } else {
      DequeIsWindow(init);
      WindowMoves(init, DequeAfter(init), init[n - 1], now, history);
    }
  }

  /**
   The verdict of recording counts the full history: at least three reclaims in the window, however
   many the deque has dropped. A read-only check of the deque at any later instant agrees with the
   full history too.
   */
  lemma VerdictCountsHistory(history: seq<int>, now: int)
    requires NonDecreasing(history) && |history| > 0 && history[|history| - 1] <= now
    ensures |DequeAfter(history)| >= RAPID_RE_RECLAIM_THRESHOLD <==>
            |InWindow(history, history[|history| - 1])| >= RAPID_RE_RECLAIM_THRESHOLD
    ensures |InWindow(DequeAfter(history), now)| >= RAPID_RE_RECLAIM_THRESHOLD <==>
            |InWindow(history, now)| >= RAPID_RE_RECLAIM_THRESHOLD
  {
    var last := history[|history| - 1];
    DequeIsWindow(history);
    var k0 := WindowIsSuffix(history, last);
    var k := WindowIsSuffix(history, now);
    var from := |history| - |DequeAfter(history)|;
    assert DequeAfter(history) == history[from..];
    OpensLater(history, Cutoff(last), Cutoff(now), k0, k);
    assert NonDecreasing(history[from..]);
    var m := WindowIsSuffix(history[from..], now);
    OpensInSuffix(history, Cutoff(now), k, from);
    var start := if k < from then 0 else k - from;
    OpensLater(history[from..], Cutoff(now), Cutoff(now), m, start);
    OpensLater(history[from..], Cutoff(now), Cutoff(now), start, m);
  }

  /** So the third last of all reclaims decides, now and later: whether it lies no more than 600 seconds back. */
  lemma ThirdLastDecides(history: seq<int>, now: int)
    requires NonDecreasing(history) && |history| > 0 && history[|history| - 1] <= now
    ensures |DequeAfter(history)| >= 3 <==>
            |history| >= 3 && history[|history| - 3] >= history[|history| - 1] - 600
    ensures |InWindow(DequeAfter(history), now)| >= 3 <==> |history| >= 3 && history[|history| - 3] >= now - 600
  {
    VerdictCountsHistory(history, now);
    var k := WindowIsSuffix(history, history[|history| - 1]);
    var m := WindowIsSuffix(history, now);
  }

  /** Right after recording, the read-only check repeats the verdict. */
  lemma VerdictMatchesCheck(history: seq<int>)
    requires NonDecreasing(history) && |history| > 0
    ensures var now := history[|history| - 1];
            |DequeAfter(history)| >= RAPID_RE_RECLAIM_THRESHOLD <==>
            |InWindow(DequeAfter(history), now)| >= RAPID_RE_RECLAIM_THRESHOLD
  {
    VerdictCountsHistory(history, history[|history| - 1]);
  }

  // ---------------------------------------------------------------------------------------------
  // Any clock
  // ---------------------------------------------------------------------------------------------

  function Last(history: seq<int>): int
    requires |history| > 0
  {
    history[|history| - 1]
  }

  /** What one recording pops off the front, by age and then by the cap. */
  lemma RecordedSplits(events: seq<int>, now: int) returns (popped: seq<int>)
    ensures events + [now] == popped + Recorded(events, now)
  {
    hide PrunedFront;
    var aged := PruneSplits(events, Cutoff(now));
    var left := PrunedFront(events, Cutoff(now));
    var over := if |left| + 1 > RAPID_RE_RECLAIM_MAX_TRACKED then |left| + 1 - RAPID_RE_RECLAIM_MAX_TRACKED else 0;
    var kept := left + [now];
    popped := aged + kept[..over];
    PoppedTogether(events, aged, left, now, kept[..over], kept[over..]);
  }

  lemma {:induction false} PruneSplits(events: seq<int>, cutoff: int) returns (popped: seq<int>)
    ensures events == popped + PrunedFront(events, cutoff)
    ensures |PrunedFront(events, cutoff)| > 0 ==> PrunedFront(events, cutoff)[0] >= cutoff
  {
    if |events| > 0 && events[0] < cutoff {
      popped := PruneSplits(events[1..], cutoff);
      popped := [events[0]] + popped;
    } else {
      popped := [];
    }
  }

  lemma PoppedTogether(init: seq<int>, p: seq<int>, deque: seq<int>, now: int, q: seq<int>, next: seq<int>)
    requires init == p + deque && deque + [now] == q + next
    ensures init + [now] == (p + q) + next
  {
    assert init + [now] == p + (deque + [now]);
  }

  /** The deque is always the end of the history. */
  lemma {:induction false} DequeIsSuffix(history: seq<int>) returns (popped: seq<int>)
    ensures history == popped + DequeAfter(history)
    decreases |history|
  {
    if |history| == 0 {
      popped := [];
    } else {
      hide Recorded;
      var init, now := history[..|history| - 1], Last(history);
      var p := DequeIsSuffix(init);
      var q := RecordedSplits(DequeAfter(init), now);
      popped := p + q;
      PoppedTogether(init, p, DequeAfter(init), now, q, DequeAfter(history));
      assert history == init + [now];
    }
  }

  /** What earlier recordings popped off, whether by age or by the cap. */
  function Popped(history: seq<int>): seq<int> {
    var kept := |DequeAfter(history)|;
    if kept <= |history| then history[..|history| - kept] else []
  }

  /** How many popped events lie in the present window after all. */
  function Lost(history: seq<int>): nat
    requires |history| > 0
  {
    |InWindow(Popped(history), Last(history))|
  }

  /** How many entries of the deque lie outside the present window. */
  function Stale(history: seq<int>): int
    requires |history| > 0
  {
    |DequeAfter(history)| - |InWindow(DequeAfter(history), Last(history))|
  }

  /** The window of the history, split between the popped events and the deque. */
  lemma WindowSplits(history: seq<int>)
    requires |history| > 0
    ensures InWindow(history, Last(history))
         == InWindow(Popped(history), Last(history)) + InWindow(DequeAfter(history), Last(history))
    ensures |InWindow(history, Last(history))| == |DequeAfter(history)| - Stale(history) + Lost(history)
    ensures 0 <= Stale(history)
  {
    var popped := DequeIsSuffix(history);
    assert popped == Popped(history);
    FilterConcat(Popped(history), DequeAfter(history), NotOlder(Cutoff(Last(history))));
    FilterLength(DequeAfter(history), NotOlder(Cutoff(Last(history))));
  }

  /**
   For every clock: the deque is the newest ten in-window events of the full history if and only if no
   entry is stale and no popped event is back in the window, unless the deque is full.
   */
  lemma DequeIsWindowIff(history: seq<int>)
    requires |history| > 0
    ensures DequeAfter(history) == Newest(InWindow(history, Last(history)), RAPID_RE_RECLAIM_MAX_TRACKED) <==>
            Stale(history) == 0 && (Lost(history) == 0 || |DequeAfter(history)| == RAPID_RE_RECLAIM_MAX_TRACKED)
  {
    var deque, now := DequeAfter(history), Last(history);
    var window := InWindow(history, now);
    WindowSplits(history);
    FilterWhole(deque, NotOlder(Cutoff(now)));
    NewestMembers(window, RAPID_RE_RECLAIM_MAX_TRACKED);
    if deque == Newest(window, RAPID_RE_RECLAIM_MAX_TRACKED) {
      FilterMembers(history, NotOlder(Cutoff(now)));
    }
  }

  lemma NewestMembers(events: seq<int>, n: nat)
    ensures forall e :: e in Newest(events, n) ==> e in events
  {
  }

  lemma {:induction false} FilterWhole(events: seq<int>, p: int -> bool)
    ensures (forall e :: e in events ==> p(e)) <==> |Filter(events, p)| == |events|
    ensures |Filter(events, p)| == |events| ==> Filter(events, p) == events
    decreases |events|
  {
    if |events| > 0 {
      var init, last := events[..|events| - 1], events[|events| - 1];
      FilterWhole(init, p);
      FilterLength(init, p);
      assert events == init + [last];
    }
  }

  /** Recording reports a loop of which the full history knows nothing. */
  predicate Overcounts(history: seq<int>)
    requires |history| > 0
  {
    && |DequeAfter(history)| >= RAPID_RE_RECLAIM_THRESHOLD
    && |InWindow(history, Last(history))| < RAPID_RE_RECLAIM_THRESHOLD
  }

  /** Recording misses a loop that the full history shows. */
  predicate Undercounts(history: seq<int>)
    requires |history| > 0
  {
    && |DequeAfter(history)| < RAPID_RE_RECLAIM_THRESHOLD
    && |InWindow(history, Last(history))| >= RAPID_RE_RECLAIM_THRESHOLD
  }

  /** What is left of the deque before a call once its stale front is gone: it starts with a fresh entry. */
  function FromFirstFresh(init: seq<int>, now: int): seq<int> {
    PrunedFront(DequeAfter(init), Cutoff(now))
  }

  /** The popped events that lie in the window ending at `now` after all. */
  function BackInWindow(init: seq<int>, now: int): nat {
    |InWindow(Popped(init), now)|
  }

  ghost predicate AllStale(events: seq<int>, now: int) {
    forall e :: e in events ==> e < Cutoff(now)
  }

  lemma {:induction false} NoneInWindowIff(events: seq<int>, now: int)
    ensures |InWindow(events, now)| == 0 <==> AllStale(events, now)
    decreases |events|
  {
    if |events| > 0 {
      var init, last := events[..|events| - 1], events[|events| - 1];
      NoneInWindowIff(init, now);
      assert events == init + [last] && last in events;
      assert forall e :: e in init ==> e in events;
    }
  }

  /** The window of a history with one more event, counted from the deque before it was recorded. */
  lemma WindowBeforeCall(init: seq<int>, now: int)
    ensures var kept := FromFirstFresh(init, now);
            && |InWindow(init + [now], now)| == BackInWindow(init, now) + |InWindow(kept, now)| + 1
            && (kept == [] || |InWindow(kept, now)| == 1 + |InWindow(kept[1..], now)|)
  {
    var p := NotOlder(Cutoff(now));
    var popped := DequeIsSuffix(init);
    assert popped == Popped(init);
    FilterSnoc(init, now, p);
    FilterConcat(popped, DequeAfter(init), p);
    PruneKeepsWindow(DequeAfter(init), now);
    var _ := PruneSplits(DequeAfter(init), Cutoff(now));
    var kept := FromFirstFresh(init, now);
    if kept != [] {
      assert kept == [kept[0]] + kept[1..];
      FilterConcat([kept[0]], kept[1..], p);
      FilterOne(kept[0], p);
    }
  }

  /**
   For every clock, exactly when the verdict departs from the full history, read off the deque before the
   call. It overcounts when behind the deque's first fresh entry there are only stale ones, at least one,
   and no popped event is back in the window. It undercounts when at most one entry counts and popped
   events that are back make up for the others.
   */
  lemma VerdictErrsIff(init: seq<int>, now: int)
    ensures var kept, back := FromFirstFresh(init, now), BackInWindow(init, now);
            && (Overcounts(init + [now]) <==> |kept| >= 2 && back == 0 && AllStale(kept[1..], now))
            && (Undercounts(init + [now]) <==> |kept| < 2 <= |kept| + back)
  {
    var history := init + [now];
    var kept := FromFirstFresh(init, now);
    DequeGrows(init, now, history, DequeAfter(init), Recorded(DequeAfter(init), now));
    assert |DequeAfter(history)| == if |kept| < RAPID_RE_RECLAIM_MAX_TRACKED then |kept| + 1
                                    else RAPID_RE_RECLAIM_MAX_TRACKED;
    assert Last(history) == now;
    WindowBeforeCall(init, now);
    if kept != [] {
      NoneInWindowIff(kept[1..], now);
      FilterLength(kept[1..], NotOlder(Cutoff(now)));
    } else {
      assert InWindow(kept, now) == [];
    }
  }

  /** Neither can happen while the clock never steps back. */
  lemma OrderedHistoryNeverErrs(history: seq<int>)
    requires NonDecreasing(history) && |history| > 0
    ensures !Overcounts(history) && !Undercounts(history)
  {
    VerdictCountsHistory(history, Last(history));
  }

  lemma DequeGrows(history: seq<int>, now: int, longer: seq<int>, deque: seq<int>, next: seq<int>)
    requires longer == history + [now] && DequeAfter(history) == deque && next == Recorded(deque, now)
    ensures DequeAfter(longer) == next
  {
    assert longer[..|history|] == history;
  }

  lemma NothingPruned(events: seq<int>, now: int)
    requires |events| < RAPID_RE_RECLAIM_MAX_TRACKED && (|events| > 0 ==> events[0] >= Cutoff(now))
    ensures Recorded(events, now) == events + [now]
  {
  }

  /** A clock that steps back leaves stale entries behind a fresh one, and the verdict counts them. */
  lemma SteppedBackClockOvercounts()
    ensures Overcounts([1000, 100, 200, 1500])
  {
    hide Recorded;
    var a, b, c, d := [1000], [1000, 100], [1000, 100, 200], [1000, 100, 200, 1500];
    NothingPruned([], 1000);
    NothingPruned(a, 100);
    NothingPruned(b, 200);
    NothingPruned(c, 1500);
    DequeGrows([], 1000, a, [], a);
    DequeGrows(a, 100, b, a, b);
    DequeGrows(b, 200, c, b, c);
    DequeGrows(c, 1500, d, c, d);
    var p := NotOlder(Cutoff(1500));
    FilterSnoc([], 1000, p);
    FilterSnoc(a, 100, p);
    FilterSnoc(b, 200, p);
    FilterSnoc(c, 1500, p);
    assert [] + [1000] == a && a + [100] == b && b + [200] == c && c + [1500] == d;
  }

  /** It can also bring events back into the window that a later instant has popped: the verdict misses them. */
  lemma SteppedBackClockUndercounts()
    ensures Undercounts([1000, 1100, 1150, 5000, 1200])
  {
    hide Recorded;
    var a, b, c := [1000], [1000, 1100], [1000, 1100, 1150];
    var d, e := [1000, 1100, 1150, 5000], [1000, 1100, 1150, 5000, 1200];
    NothingPruned([], 1000);
    NothingPruned(a, 1100);
    NothingPruned(b, 1150);
    PruneAll();
    NothingPruned([5000], 1200);
    DequeGrows([], 1000, a, [], a);
    DequeGrows(a, 1100, b, a, b);
    DequeGrows(b, 1150, c, b, c);
    DequeGrows(c, 5000, d, c, [5000]);
    DequeGrows(d, 1200, e, [5000], [5000, 1200]);
    FilterWhole(e, NotOlder(Cutoff(1200)));
  }

  lemma PruneAll()
    ensures Recorded([1000, 1100, 1150], 5000) == [5000]
  {
    assert [1000, 1100, 1150][1..] == [1100, 1150] && [1100, 1150][1..] == [1150] && [1150][1..] == [];
    assert PrunedFront([1150], 4400) == [];
    assert PrunedFront([1100, 1150], 4400) == [];
  }

  /**
   Against the deque alone, for every clock: recording reports a loop that a read-only check of the same
   entries does not, exactly when two or more survive the pruning of which fewer than two are in the
   window; and it never reports less than such a check.
   */
  lemma VerdictAgainstDeque(events: seq<int>, now: int)
    ensures var kept := PrunedFront(events, Cutoff(now));
            && (|InWindow(events + [now], now)| >= RAPID_RE_RECLAIM_THRESHOLD ==>
                |Recorded(events, now)| >= RAPID_RE_RECLAIM_THRESHOLD)
            && (|Recorded(events, now)| >= RAPID_RE_RECLAIM_THRESHOLD
                && |InWindow(events + [now], now)| < RAPID_RE_RECLAIM_THRESHOLD <==>
                |kept| >= 2 > |InWindow(kept, now)|)
  {
    PruneKeepsWindow(events, now);
    FilterSnoc(events, now, NotOlder(Cutoff(now)));
    FilterLength(PrunedFront(events, Cutoff(now)), NotOlder(Cutoff(now)));
  }

  lemma {:induction false} PruneKeepsWindow(events: seq<int>, now: int)
    ensures InWindow(PrunedFront(events, Cutoff(now)), now) == InWindow(events, now)
  {
    if |events| > 0 && events[0] < Cutoff(now) {
      PruneKeepsWindow(events[1..], now);
      assert events == [events[0]] + events[1..];
      FilterConcat([events[0]], events[1..], NotOlder(Cutoff(now)));
    }
  }

  lemma {:induction false} FilterLength(events: seq<int>, p: int -> bool)
    ensures |Filter(events, p)| <= |events|
    decreases |events|
  {
    if |events| > 0 {
      FilterLength(events[..|events| - 1], p);
    }
  }
}
