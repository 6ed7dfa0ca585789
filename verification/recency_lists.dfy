/** Lists of distinct keys kept in order of last use: the ideal least-recently-used cache. */
module RecencyLists {
  ghost predicate Distinct<T>(keys: seq<T>) {
    |keys| > 0 ==> keys[0] !in keys[1..] && Distinct(keys[1..])
  }

  function Without<T(==)>(keys: seq<T>, k: T): seq<T> {
    if |keys| == 0 then []
    else if keys[0] == k then keys[1..]
    else [keys[0]] + Without(keys[1..], k)
  }

  function Truncate<T>(cap: nat, keys: seq<T>): seq<T> {
    if cap == 0 || |keys| == 0 then [] else [keys[0]] + Truncate(cap - 1, keys[1..])
  }

  /** Use `k`: it comes to the front, and the list keeps at most `cap` keys. */
  function MoveToFront<T(==)>(cap: nat, keys: seq<T>, k: T): seq<T> {
    Truncate(cap, [k] + Without(keys, k))
  }

  lemma HeadAndTail<T>(keys: seq<T>)
    requires |keys| > 0
    ensures forall x :: x in keys <==> x == keys[0] || x in keys[1..]
  {
    assert keys == [keys[0]] + keys[1..];
  }

  lemma {:induction false} WithoutMembers<T>(keys: seq<T>, k: T)
    requires Distinct(keys)
    ensures Distinct(Without(keys, k))
    ensures forall x :: x in Without(keys, k) <==> x in keys && x != k
    ensures |Without(keys, k)| == if k in keys then |keys| - 1 else |keys|
  {
    if |keys| > 0 {
      WithoutMembers(keys[1..], k);
      HeadAndTail(keys);
      if keys[0] != k {
        assert Without(keys, k)[1..] == Without(keys[1..], k);
      }
    }
  }

  lemma {:induction false} TruncateMembers<T>(cap: nat, keys: seq<T>)
    requires Distinct(keys)
    ensures Distinct(Truncate(cap, keys)) && |Truncate(cap, keys)| <= cap
    ensures forall x :: x in Truncate(cap, keys) ==> x in keys
    ensures |keys| <= cap ==> Truncate(cap, keys) == keys
    ensures |keys| == cap + 1 ==> forall x :: x in Truncate(cap, keys) <==> x in keys && x != keys[cap]
  {
    if |keys| > 0 {
      HeadAndTail(keys);
      if cap > 0 {
        TruncateMembers(cap - 1, keys[1..]);
        assert Truncate(cap, keys)[1..] == Truncate(cap - 1, keys[1..]);
        HeadAndTail(Truncate(cap, keys));
        if |keys| == cap + 1 {
          assert keys[1..][cap - 1] == keys[cap];
        }
      }
    }
  }

  lemma {:induction false} DistinctSize<T>(keys: seq<T>, ks: set<T>)
    requires Distinct(keys) && forall k :: k in ks <==> k in keys
    ensures |ks| == |keys|
  {
    if |keys| == 0 {
      assert ks == {};
    } else {
      HeadAndTail(keys);
      DistinctSize(keys[1..], ks - {keys[0]});
      assert ks == (ks - {keys[0]}) + {keys[0]};
    }
  }

  // ---------------------------------------------------------------------------------------------
  // Order of last use
  // ---------------------------------------------------------------------------------------------

  /** No key was used earlier than a key behind it. */
  ghost predicate Descending<T>(times: map<T, nat>, keys: seq<T>) {
    |keys| > 0 ==>
      && keys[0] in times
      && (forall x :: x in keys[1..] ==> x in times && times[x] <= times[keys[0]])
      && Descending(times, keys[1..])
  }

  lemma {:induction false} DescendingWithout<T>(times: map<T, nat>, keys: seq<T>, k: T)
    requires Distinct(keys) && Descending(times, keys)
    ensures Descending(times, Without(keys, k))
  {
    if |keys| > 0 {
      WithoutMembers(keys[1..], k);
      DescendingWithout(times, keys[1..], k);
      if keys[0] != k {
        assert Without(keys, k)[1..] == Without(keys[1..], k);
      }
    }
  }

  lemma {:induction false} DescendingTruncate<T>(times: map<T, nat>, cap: nat, keys: seq<T>)
    requires Distinct(keys) && Descending(times, keys)
    ensures Descending(times, Truncate(cap, keys))
  {
    if |keys| > 0 && cap > 0 {
      TruncateMembers(cap - 1, keys[1..]);
      DescendingTruncate(times, cap - 1, keys[1..]);
      assert Truncate(cap, keys)[1..] == Truncate(cap - 1, keys[1..]);
    }
  }

  lemma {:induction false} DescendingCongruence<T>(times: map<T, nat>, times': map<T, nat>, keys: seq<T>)
    requires Descending(times, keys)
    requires forall x :: x in keys && x in times ==> x in times' && times'[x] == times[x]
    ensures Descending(times', keys)
  {
    if |keys| > 0 {
      HeadAndTail(keys);
      DescendingCongruence(times, times', keys[1..]);
    }
  }

  lemma {:induction false} LastIsOldest<T>(times: map<T, nat>, keys: seq<T>, x: T)
    requires Descending(times, keys) && x in keys
    ensures x in times && keys[|keys| - 1] in times
    ensures times[keys[|keys| - 1]] <= times[x]
  {
    HeadAndTail(keys);
    if |keys| > 1 {
      var last := keys[|keys| - 1];
      assert keys[1..][|keys| - 2] == last;
      LastIsOldest(times, keys[1..], if x in keys[1..] then x else last);
    }
  }

  /** The list holds exactly the timed keys, and none behind a key that was used earlier. */
  ghost predicate OrderedBy<T(!new)>(cap: nat, times: map<T, nat>, keys: seq<T>) {
    && Distinct(keys) && |keys| <= cap
    && (forall k :: k in times <==> k in keys)
    && Descending(times, keys)
  }

  /** The keys left after a use of `k`: all of them, but for the last when `k` is new to a full list. */
  lemma MoveToFrontMembers<T(!new)>(cap: nat, keys: seq<T>, k: T)
    requires Distinct(keys) && |keys| <= cap && cap > 0
    ensures var moved := MoveToFront(cap, keys, k);
            && Distinct(moved) && |moved| <= cap
            && (|keys| < cap || k in keys ==> forall x :: x in moved <==> x == k || x in keys)
            && (|keys| == cap && k !in keys ==> forall x :: x in moved <==> x == k || (x in keys && x != keys[cap - 1]))
  {
    WithoutMembers(keys, k);
    var full := [k] + Without(keys, k);
    assert full[1..] == Without(keys, k);
    HeadAndTail(full);
    TruncateMembers(cap, full);
    if |keys| == cap && k !in keys {
      WithoutAbsent(keys, k);
      assert full[cap] == keys[cap - 1];
    }
  }

  lemma {:induction false} WithoutAbsent<T>(keys: seq<T>, k: T)
    requires k !in keys
    ensures Without(keys, k) == keys
  {
    if |keys| > 0 {
      WithoutAbsent(keys[1..], k);
    }
  }

  lemma UseOrders<T(!new)>(cap: nat, times: map<T, nat>, keys: seq<T>, k: T, now: nat, times': map<T, nat>)
    requires OrderedBy(cap, times, keys) && cap > 0
    requires forall x :: x in times ==> times[x] <= now
    requires forall x :: x in times' <==> x in MoveToFront(cap, keys, k)
    requires k in times' && times'[k] == now
    requires forall x :: x in times' && x != k ==> x in times && times'[x] == times[x]
    ensures OrderedBy(cap, times', MoveToFront(cap, keys, k))
  {
    MoveToFrontMembers(cap, keys, k);
    FrontDescends(times, keys, k, now);
    WithoutMembers(keys, k);
    var full := [k] + Without(keys, k);
    assert full[1..] == Without(keys, k);
    DescendingTruncate(times[k := now], cap, full);
    DescendingCongruence(times[k := now], times', MoveToFront(cap, keys, k));
  }

  lemma FrontDescends<T>(times: map<T, nat>, keys: seq<T>, k: T, now: nat)
    requires Distinct(keys) && Descending(times, keys)
    requires forall x :: x in times ==> times[x] <= now
    ensures Descending(times[k := now], [k] + Without(keys, k))
  {
    WithoutMembers(keys, k);
    var rest := Without(keys, k);
    DescendingWithout(times, keys, k);
    DescendingCongruence(times, times[k := now], rest);
    DescendingTimed(times, rest);
    assert ([k] + rest)[1..] == rest;
  }

  lemma {:induction false} DescendingTimed<T>(times: map<T, nat>, keys: seq<T>)
    requires Descending(times, keys)
    ensures forall x :: x in keys ==> x in times
  {
    if |keys| > 0 {
      HeadAndTail(keys);
      DescendingTimed(times, keys[1..]);
    }
  }

  lemma RemovalOrders<T(!new)>(cap: nat, times: map<T, nat>, keys: seq<T>, k: T)
    requires OrderedBy(cap, times, keys)
    ensures OrderedBy(cap, times - {k}, Without(keys, k))
  {
    WithoutMembers(keys, k);
    DescendingWithout(times, keys, k);
    DescendingCongruence(times, times - {k}, Without(keys, k));
  }

  /** When the list is full, the one key that every other is younger than stands at its end. */
  lemma OldestIsLast<T(!new)>(cap: nat, times: map<T, nat>, keys: seq<T>, oldest: T)
    requires OrderedBy(cap, times, keys) && |keys| == cap
    requires oldest in times && forall k :: k in times && times[k] <= times[oldest] ==> k == oldest
    ensures cap > 0 && oldest == keys[cap - 1]
  {
    LastIsOldest(times, keys, oldest);
  }

  // ---------------------------------------------------------------------------------------------
  // The same list read off the full history of uses
  // ---------------------------------------------------------------------------------------------

  /** The keys used since `k` was last used. */
  function UsedSince<T(==)>(uses: seq<T>, k: T): set<T>
    decreases |uses|
  {
    if |uses| == 0 || uses[|uses| - 1] == k then {}
    else UsedSince(uses[..|uses| - 1], k) + {uses[|uses| - 1]}
  }

  /** `k` has been used, and fewer than `cap` other keys have been used since. */
  ghost predicate AmongMostRecent<T>(cap: nat, uses: seq<T>, k: T) {
    k in uses && |UsedSince(uses, k)| < cap
  }

  /** All used keys, most recent first. */
  function Recency<T(==)>(uses: seq<T>): seq<T>
    decreases |uses|
  {
    if |uses| == 0 then [] else [uses[|uses| - 1]] + Without(Recency(uses[..|uses| - 1]), uses[|uses| - 1])
  }

  lemma {:induction false} RecencyDistinct<T>(uses: seq<T>)
    ensures Distinct(Recency(uses)) && forall k :: k in Recency(uses) <==> k in uses
    decreases |uses|
  {
    if |uses| > 0 {
      var init, last := uses[..|uses| - 1], uses[|uses| - 1];
      RecencyDistinct(init);
      WithoutMembers(Recency(init), last);
      assert Recency(uses)[1..] == Without(Recency(init), last);
      assert uses == init + [last];
    }
  }

  /** The keys in front of `k` in a list. */
  function Before<T(==)>(keys: seq<T>, k: T): set<T> {
    if |keys| == 0 || keys[0] == k then {} else {keys[0]} + Before(keys[1..], k)
  }

  lemma {:induction false} BeforeWithout<T>(keys: seq<T>, last: T, k: T)
    requires Distinct(keys) && k in keys && k != last
    ensures Before(Without(keys, last), k) == Before(keys, k) - {last}
  {
    HeadAndTail(keys);
    if keys[0] == last {
      BeforeMembers(keys[1..], k);
    } else if keys[0] != k {
      BeforeWithout(keys[1..], last, k);
      assert Without(keys, last)[1..] == Without(keys[1..], last);
    }
  }

  lemma {:induction false} BeforeMembers<T>(keys: seq<T>, k: T)
    ensures forall x :: x in Before(keys, k) ==> x in keys
  {
    if |keys| > 0 {
      BeforeMembers(keys[1..], k);
    }
  }

  lemma {:induction false} RecencyPosition<T>(uses: seq<T>, k: T)
    requires k in uses
    ensures Before(Recency(uses), k) == UsedSince(uses, k)
    decreases |uses|
  {
    var init, last := uses[..|uses| - 1], uses[|uses| - 1];
    assert uses == init + [last];
    if k != last {
      RecencyPosition(init, k);
      RecencyDistinct(init);
      BeforeWithout(Recency(init), last, k);
      assert Recency(uses)[1..] == Without(Recency(init), last);
    }
  }

  lemma TruncateHead<T>(cap: nat, keys: seq<T>, k: T)
    requires cap > 0 && |keys| > 0 && keys[0] != k
    ensures k in Truncate(cap, keys) <==> k in Truncate(cap - 1, keys[1..])
  {
    var short, rest := Truncate(cap, keys), Truncate(cap - 1, keys[1..]);
    assert short == [keys[0]] + rest;
  }

  lemma BeforeHead<T>(keys: seq<T>, k: T)
    requires Distinct(keys) && |keys| > 0 && keys[0] != k
    ensures |Before(keys, k)| == 1 + |Before(keys[1..], k)|
  {
    BeforeMembers(keys[1..], k);
    assert keys[0] !in keys[1..];
  }

  lemma {:induction false} TruncateKeepsFront<T>(cap: nat, keys: seq<T>, k: T)
    requires Distinct(keys) && k in keys
    ensures k in Truncate(cap, keys) <==> |Before(keys, k)| < cap
  {
    if cap > 0 && keys[0] != k {
      HeadAndTail(keys);
      TruncateKeepsFront(cap - 1, keys[1..], k);
      TruncateHead(cap, keys, k);
      BeforeHead(keys, k);
    }
  }

  lemma AmongMostRecentIff<T>(cap: nat, uses: seq<T>, k: T)
    ensures AmongMostRecent(cap, uses, k) <==> k in Truncate(cap, Recency(uses))
  {
    RecencyDistinct(uses);
    TruncateMembers(cap, Recency(uses));
    if k in uses {
      RecencyPosition(uses, k);
      TruncateKeepsFront(cap, Recency(uses), k);
    }
  }

  lemma {:induction false} TruncateWithout<T>(n: nat, keys: seq<T>, k: T)
    ensures Truncate(n, Without(Truncate(n + 1, keys), k)) == Truncate(n, Without(keys, k))
  {
    if |keys| > 0 {
      var short := Truncate(n + 1, keys);
      assert short[1..] == Truncate(n, keys[1..]);
      if keys[0] == k {
        TruncateTwice(n, keys[1..]);
      } else if n > 0 {
        TruncateWithout(n - 1, keys[1..], k);
        assert Without(short, k)[1..] == Without(short[1..], k);
        assert Without(keys, k)[1..] == Without(keys[1..], k);
      }
    }
  }

  lemma {:induction false} TruncateTwice<T>(n: nat, keys: seq<T>)
    ensures Truncate(n, Truncate(n, keys)) == Truncate(n, keys)
  {
    if n > 0 && |keys| > 0 {
      TruncateTwice(n - 1, keys[1..]);
      assert Truncate(n, keys)[1..] == Truncate(n - 1, keys[1..]);
    }
  }

  /** Truncating early loses nothing that a later use could bring back. */
  lemma TruncateCommutes<T>(cap: nat, keys: seq<T>, k: T)
    requires cap > 0
    ensures MoveToFront(cap, Truncate(cap, keys), k) == MoveToFront(cap, keys, k)
  {
    TruncateWithout(cap - 1, keys, k);
    assert ([k] + Without(Truncate(cap, keys), k))[1..] == Without(Truncate(cap, keys), k);
    assert ([k] + Without(keys, k))[1..] == Without(keys, k);
  }
}
