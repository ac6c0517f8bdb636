/** Instants, saturating durations and the sliding windows that the lockout, the
    connection limiter, the write policy and the gift budget all keep.

    An instant is a natural number of nanoseconds. A log is the sequence of the
    instants of some event, in the order in which the events were recorded. */
module SlidingWindow {

  /** The time from `earlier` to `now`, zero when `earlier` is still to come. */
  function Since(now: nat, earlier: nat): nat {
    if earlier <= now then now - earlier else 0
  }

  /** The stamps that are younger than `window` at `now`, in their recorded order. */
  function Recent(stamps: seq<nat>, now: nat, window: nat): seq<nat> {
    if stamps == [] then
      []
    else
      var last := |stamps| - 1;
      Recent(stamps[..last], now, window) +
      (if Since(now, stamps[last]) < window then [stamps[last]] else [])
  }

  /** The entry of `key`, or the empty sequence when there is none. */
  function At<K>(book: map<K, seq<nat>>, key: K): seq<nat> {
    if key in book then book[key] else []
  }

  /** Recorded in order, and no later than `now`. */
  ghost predicate Ordered(stamps: seq<nat>, now: nat) {
    if stamps == [] then
      true
    else
      var last := |stamps| - 1;
      stamps[last] <= now && Ordered(stamps[..last], stamps[last])
  }

  lemma {:induction false} OrderedPush(stamps: seq<nat>, now: nat)
    requires Ordered(stamps, now)
    ensures Ordered(stamps + [now], now)
  {
    assert (stamps + [now])[..|stamps|] == stamps;
  }

  lemma {:induction false} OrderedLater(stamps: seq<nat>, earlier: nat, now: nat)
    requires Ordered(stamps, earlier) && earlier <= now
    ensures Ordered(stamps, now)
  {
  }

  lemma {:induction false} OrderedTail(stamps: seq<nat>, now: nat)
    requires stamps != [] && Ordered(stamps, now)
    ensures Ordered(stamps[1..], now)
  {
    var last := |stamps| - 1;
    if last > 0 {
      OrderedTail(stamps[..last], stamps[last]);
      assert stamps[1..][..last - 1] == stamps[..last][1..];
    }
  }

  lemma {:induction false} RecentPush(stamps: seq<nat>, stamp: nat, now: nat, window: nat)
    ensures Recent(stamps + [stamp], now, window)
         == Recent(stamps, now, window) + (if Since(now, stamp) < window then [stamp] else [])
  {
    assert (stamps + [stamp])[..|stamps|] == stamps;
  }

  /** A stamp that has left the window never comes back: dropping it early changes nothing later. */
  lemma {:induction false} RecentOfRecent(stamps: seq<nat>, earlier: nat, now: nat, window: nat)
    requires earlier <= now
    ensures Recent(Recent(stamps, earlier, window), now, window) == Recent(stamps, now, window)
  {
    if stamps != [] {
      var last := |stamps| - 1;
      RecentOfRecent(stamps[..last], earlier, now, window);
      if Since(earlier, stamps[last]) < window {
        RecentPush(Recent(stamps[..last], earlier, window), stamps[last], now, window);
      } else {
        assert Recent(stamps, earlier, window) == Recent(stamps[..last], earlier, window);
      }
    }
  }

  /** Two logs with the same recent part have the same recent part ever after. */
  lemma {:induction false} RecentAgreesLater(a: seq<nat>, b: seq<nat>, earlier: nat, now: nat, window: nat)
    requires earlier <= now
    requires Recent(a, earlier, window) == Recent(b, earlier, window)
    ensures Recent(a, now, window) == Recent(b, now, window)
  {
    RecentOfRecent(a, earlier, now, window);
    RecentOfRecent(b, earlier, now, window);
  }

  /** The recent part keeps exactly the stamps younger than the window. */
  lemma {:induction false} RecentMembers(stamps: seq<nat>, now: nat, window: nat, t: nat)
    ensures t in Recent(stamps, now, window) <==> t in stamps && Since(now, t) < window
  {
    if stamps != [] {
      RecentMembers(stamps[..|stamps| - 1], now, window, t);
      assert stamps == stamps[..|stamps| - 1] + [stamps[|stamps| - 1]];
    }
  }

  /** Every stamp is recent exactly when nothing is dropped. */
  lemma {:induction false} RecentAll(stamps: seq<nat>, now: nat, window: nat)
    requires forall t :: t in stamps ==> Since(now, t) < window
    ensures Recent(stamps, now, window) == stamps
  {
    if stamps != [] {
      RecentAll(stamps[..|stamps| - 1], now, window);
      assert stamps == stamps[..|stamps| - 1] + [stamps[|stamps| - 1]];
    }
  }

  lemma {:induction false} RecentNone(stamps: seq<nat>, now: nat, window: nat)
    requires forall t :: t in stamps ==> Since(now, t) >= window
    ensures Recent(stamps, now, window) == []
  {
    if stamps != [] {
      RecentNone(stamps[..|stamps| - 1], now, window);
    }
  }

  lemma {:induction false} RecentConcat(a: seq<nat>, b: seq<nat>, now: nat, window: nat)
    ensures Recent(a + b, now, window) == Recent(a, now, window) + Recent(b, now, window)
  {
    if b == [] {
      assert a + b == a;
    } else {
      var last := |b| - 1;
      assert (a + b)[..|a| + last] == a + b[..last];
      RecentConcat(a, b[..last], now, window);
    }
  }

  /** On an ordered log the recent part is a suffix, so a tail that is recent is all there. */
  lemma {:induction false} RecentHasTail(stamps: seq<nat>, k: nat, now: nat, window: nat)
    requires k <= |stamps|
    requires forall i :: k <= i < |stamps| ==> Since(now, stamps[i]) < window
    ensures |Recent(stamps, now, window)| >= |stamps| - k
    ensures Recent(stamps, now, window) == Recent(stamps[..k], now, window) + stamps[k..]
  {
    assert stamps == stamps[..k] + stamps[k..];
    RecentConcat(stamps[..k], stamps[k..], now, window);
    RecentAll(stamps[k..], now, window);
  }

  /** In an ordered log whose oldest stamp is recent, every stamp is. */
  lemma {:induction false} FreshFront(stamps: seq<nat>, now: nat, window: nat)
    requires stamps != [] && Ordered(stamps, now) && Since(now, stamps[0]) < window
    ensures stamps[0] <= stamps[|stamps| - 1]
    ensures Recent(stamps, now, window) == stamps
  {
    var last := |stamps| - 1;
    assert stamps == stamps[..last] + [stamps[last]];
    if last > 0 {
      FreshFront(stamps[..last], now, window);
      assert Ordered(stamps[..last], stamps[last]);
    }
  }

  /** The window that ends at entry `k` holds at most `cap` entries. */
  ghost predicate CappedAt(log: seq<nat>, k: nat, cap: nat, window: nat)
    requires k < |log|
  {
    |Recent(log[..k + 1], log[k], window)| <= cap
  }

  /** At every entry the window that ends there holds at most `cap` of them. */
  ghost predicate Capped(log: seq<nat>, cap: nat, window: nat) {
    forall k :: 0 <= k < |log| ==> CappedAt(log, k, cap, window)
  }

  lemma {:induction false} CappedPush(log: seq<nat>, now: nat, cap: nat, window: nat)
    requires Capped(log, cap, window)
    requires |Recent(log + [now], now, window)| <= cap
    ensures Capped(log + [now], cap, window)
  {
    var longer := log + [now];
    forall k | 0 <= k < |longer|
      ensures CappedAt(longer, k, cap, window)
    {
      if k < |log| {
        assert CappedAt(log, k, cap, window);
        assert longer[..k + 1] == log[..k + 1];
      } else {
        assert longer[..k + 1] == longer;
      }
    }
  }

  /** So no stretch shorter than the window, wherever it starts, holds more than `cap`. */
  lemma {:induction false} CappedSpan(log: seq<nat>, cap: nat, window: nat, now: nat, i: nat, j: nat)
    requires Ordered(log, now) && Capped(log, cap, window)
    requires i <= j < |log| && log[j] - log[i] < window
    ensures j - i + 1 <= cap
  {
    assert CappedAt(log, j, cap, window);
    var upTo := log[..j + 1];
    assert upTo == upTo[..i] + upTo[i..];
    OrderedStretch(log, now, i, j);
    FreshFront(upTo[i..], log[j], window);
    RecentConcat(upTo[..i], upTo[i..], log[j], window);
  }

  lemma {:induction false} OrderedStretch(log: seq<nat>, now: nat, i: nat, j: nat)
    requires Ordered(log, now) && i <= j < |log|
    ensures Ordered(log[..j + 1][i..], log[j])
    ensures log[i] <= log[j] <= now
  {
    if j + 1 < |log| {
      OrderedStretch(log[..|log| - 1], log[|log| - 1], i, j);
      SliceOfFront(log, j + 1);
    } else if i > 0 {
      OrderedTail(log, now);
      OrderedStretch(log[1..], now, i - 1, j - 1);
      SliceOfTail(log, i, j);
    } else {
      OrderedLeast(log, now);
      assert log[..j + 1] == log && log[0..] == log;
    }
  }

  lemma {:induction false} SliceOfFront(log: seq<nat>, n: nat)
    requires n < |log|
    ensures log[..|log| - 1][..n] == log[..n]
  {
  }

  lemma {:induction false} SliceOfTail(log: seq<nat>, i: nat, j: nat)
    requires 0 < i <= j < |log|
    ensures log[1..][..j - 1 + 1][i - 1..] == log[..j + 1][i..]
    ensures log[1..][i - 1] == log[i] && log[1..][j - 1] == log[j]
  {
  }

  lemma {:induction false} OrderedLeast(log: seq<nat>, now: nat)
    requires log != [] && Ordered(log, now)
    ensures log[0] <= log[|log| - 1]
  {
    if |log| > 1 {
      OrderedLeast(log[..|log| - 1], log[|log| - 1]);
    }
  }

  /** No window ever holds more of `part` than of `whole`. */
  ghost predicate Covered(part: seq<nat>, whole: seq<nat>, window: nat) {
    forall t: nat :: |Recent(part, t, window)| <= |Recent(whole, t, window)|
  }

  lemma {:induction false} CoveredPush(part: seq<nat>, whole: seq<nat>, now: nat, window: nat)
    requires Covered(part, whole, window)
    ensures Covered(part + [now], whole + [now], window)
    ensures Covered(part, whole + [now], window)
  {
    forall t: nat
      ensures |Recent(part + [now], t, window)| <= |Recent(whole + [now], t, window)|
      ensures |Recent(part, t, window)| <= |Recent(whole + [now], t, window)|
    {
      RecentPush(part, now, t, window);
      RecentPush(whole, now, t, window);
    }
  }
}
