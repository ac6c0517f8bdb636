/** The gift budget over whole runs, against the complete log of charges. */
module GiftBudgetHistory {
  import opened GiftBudget
  import opened GiftKeys
  import opened SlidingWindow
  import opened Text

  datatype Step =
    | Allow(authed: string, recipients: seq<string>, now: nat)
    | Sweep(now: nat)

  /** The budget, and beside it every charge ever made to a key. */
  datatype History = History(buckets: Buckets, charges: map<string, seq<nat>>, now: nat)

  const START := History(map[], map[], 0)

  function Copies(now: nat, n: nat): seq<nat> {
    seq(n, _ => now)
  }

  /** How often `key` occurs in `keys`. */
  function Count(keys: seq<string>, key: string): nat {
    if keys == [] then 0 else Count(keys[..|keys| - 1], key) + (if keys[|keys| - 1] == key then 1 else 0)
  }

  function LogAll(charges: map<string, seq<nat>>, keys: seq<string>, now: nat): map<string, seq<nat>> {
    if keys == [] then charges
    else
      var before := LogAll(charges, keys[..|keys| - 1], now);
      before[keys[|keys| - 1] := At(before, keys[|keys| - 1]) + [now]]
  }

  function Next(h: History, limit: nat, window: nat, step: Step): History {
    match step
    case Sweep(now) => History(AfterSweep(h.buckets, window, now), h.charges, now)
    case Allow(authed, recipients, now) =>
      var keys := KeysOf(authed, recipients);
      History(
        AfterAllow(h.buckets, limit, window, keys, now),
        if AllHaveRoom(h.buckets, limit, window, keys, now) then LogAll(h.charges, keys, now) else h.charges,
        now)
  }

  function Run(limit: nat, window: nat, steps: seq<Step>): History {
    if steps == [] then START else Next(Run(limit, window, steps[..|steps| - 1]), limit, window, steps[|steps| - 1])
  }

  /** The answers given to the frames, in order. */
  function Answers(limit: nat, window: nat, steps: seq<Step>): seq<bool> {
    if steps == [] then []
    else
      var front, step := steps[..|steps| - 1], steps[|steps| - 1];
      Answers(limit, window, front) +
      (if step.Allow?
       then [AllHaveRoom(Run(limit, window, front).buckets, limit, window, KeysOf(step.authed, step.recipients), step.now)]
       else [])
  }

  ghost predicate ClockRises(steps: seq<Step>, now: nat) {
    if steps == [] then true
    else steps[|steps| - 1].now <= now && ClockRises(steps[..|steps| - 1], steps[|steps| - 1].now)
  }

  /** No frame names one recipient more than `most` times. */
  ghost predicate RepeatsAtMost(steps: seq<Step>, most: nat) {
    forall k, key :: 0 <= k < |steps| && steps[k].Allow? ==> Count(KeysOf(steps[k].authed, steps[k].recipients), key) <= most
  }

  // ------------------------------------------------------------------ Simulation

  ghost predicate Alike(a: seq<nat>, b: seq<nat>, window: nat, now: nat) {
    Recent(a, now, window) == Recent(b, now, window)
  }

  ghost predicate KeyAgrees(h: History, window: nat, key: string) {
    && Alike(At(h.buckets, key), At(h.charges, key), window, h.now)
    && Ordered(At(h.charges, key), h.now)
  }

  lemma {:induction false} AlikeLater(a: seq<nat>, b: seq<nat>, window: nat, earlier: nat, now: nat)
    requires Alike(a, b, window, earlier) && earlier <= now
    ensures Alike(a, b, window, now)
    ensures Alike(Recent(a, now, window), b, window, now)
  {
    RecentAgreesLater(a, b, earlier, now, window);
    RecentOfRecent(a, now, now, window);
  }

  lemma {:induction false} AlikePush(a: seq<nat>, b: seq<nat>, window: nat, now: nat)
    requires Alike(a, b, window, now)
    ensures Alike(Recent(a, now, window) + [now], b + [now], window, now)
  {
    RecentOfRecent(a, now, now, window);
    RecentPush(Recent(a, now, window), now, now, window);
    RecentPush(b, now, now, window);
  }

  lemma {:induction false} LogAllAdds(charges: map<string, seq<nat>>, keys: seq<string>, now: nat, key: string)
    requires Ordered(At(charges, key), now)
    ensures At(LogAll(charges, keys, now), key) == At(charges, key) + Copies(now, Count(keys, key))
    ensures Ordered(At(LogAll(charges, keys, now), key), now)
  {
    if keys == [] {
      assert At(charges, key) + Copies(now, 0) == At(charges, key);
    } else {
      var front := keys[..|keys| - 1];
      LogAllAdds(charges, front, now, key);
      if keys[|keys| - 1] == key {
        CopiesPush(At(charges, key), now, Count(front, key));
        OrderedPush(At(LogAll(charges, front, now), key), now);
      }
    }
  }

  /** Charging a frame key by key keeps the trimmed buckets in step with the log. */
  lemma {:induction false} ChargeAgrees(buckets: Buckets, charges: map<string, seq<nat>>, window: nat, keys: seq<string>, now: nat, key: string)
    requires Alike(At(buckets, key), At(charges, key), window, now)
    ensures Alike(At(ChargeAll(buckets, window, keys, now), key), At(LogAll(charges, keys, now), key), window, now)
  {
    if keys != [] {
      var front := keys[..|keys| - 1];
      ChargeAgrees(buckets, charges, window, front, now, key);
      if keys[|keys| - 1] == key {
        AlikePush(At(ChargeAll(buckets, window, front, now), key), At(LogAll(charges, front, now), key), window, now);
      }
    }
  }

  lemma {:induction false} CopiesPush(log: seq<nat>, now: nat, n: nat)
    ensures log + Copies(now, n) + [now] == log + Copies(now, n + 1)
  {
  }

  lemma {:induction false} StepAgrees(h: History, limit: nat, window: nat, step: Step, key: string)
    requires KeyAgrees(h, window, key) && h.now <= step.now
    ensures KeyAgrees(Next(h, limit, window, step), window, key)
  {
    AlikeLater(At(h.buckets, key), At(h.charges, key), window, h.now, step.now);
    OrderedLater(At(h.charges, key), h.now, step.now);
    if step.Allow? {
      ChargeAgrees(h.buckets, h.charges, window, KeysOf(step.authed, step.recipients), step.now, key);
      LogAllAdds(h.charges, KeysOf(step.authed, step.recipients), step.now, key);
    }
  }

  lemma {:induction false} RunAgrees(limit: nat, window: nat, steps: seq<Step>, now: nat, key: string)
    requires ClockRises(steps, now)
    ensures KeyAgrees(Run(limit, window, steps), window, key)
    ensures Run(limit, window, steps).now <= now
  {
    if steps != [] {
      RunAgrees(limit, window, steps[..|steps| - 1], steps[|steps| - 1].now, key);
      StepAgrees(Run(limit, window, steps[..|steps| - 1]), limit, window, steps[|steps| - 1], key);
    }
  }

  // ------------------------------------------------------------------ Main theorems

  /** The answer that the complete log calls for: every pair is below the limit. */
  ghost predicate SpecAllows(h: History, limit: nat, window: nat, keys: seq<string>, now: nat) {
    forall i :: 0 <= i < |keys| ==> |Recent(At(h.charges, keys[i]), now, window)| < limit
  }

  /** In every run a frame is allowed iff the complete log is below the limit for each of its pairs.
      It is then charged once for each time it names a recipient, and otherwise nothing changes. */
  lemma {:induction false} AllOrNothing(limit: nat, window: nat, steps: seq<Step>, authed: string, recipients: seq<string>, now: nat)
    requires ClockRises(steps, now)
    ensures
      var h, keys := Run(limit, window, steps), KeysOf(authed, recipients);
      var h' := Next(h, limit, window, Allow(authed, recipients, now));
      if SpecAllows(h, limit, window, keys, now)
      then AllHaveRoom(h.buckets, limit, window, keys, now)
        && forall key :: At(h'.charges, key) == At(h.charges, key) + Copies(now, Count(keys, key))
      else !AllHaveRoom(h.buckets, limit, window, keys, now) && h' == h.(now := now)
  {
    var h, keys := Run(limit, window, steps), KeysOf(authed, recipients);
    forall key
      ensures Alike(At(h.buckets, key), At(h.charges, key), window, now)
      ensures At(LogAll(h.charges, keys, now), key) == At(h.charges, key) + Copies(now, Count(keys, key))
    {
      RunAgrees(limit, window, steps, now, key);
      AlikeLater(At(h.buckets, key), At(h.charges, key), window, h.now, now);
      OrderedLater(At(h.charges, key), h.now, now);
      LogAllAdds(h.charges, keys, now, key);
    }
    forall i | 0 <= i < |keys|
      ensures HasRoom(h.buckets, limit, window, keys[i], now) <==> |Recent(At(h.charges, keys[i]), now, window)| < limit
    {
      assert Alike(At(h.buckets, keys[i]), At(h.charges, keys[i]), window, now);
    }
  }

  lemma {:induction false} CappedCopies(log: seq<nat>, now: nat, n: nat, cap: nat, window: nat)
    requires Capped(log, cap, window)
    requires |Recent(log, now, window)| + n <= cap
    ensures Capped(log + Copies(now, n), cap, window)
    ensures |Recent(log + Copies(now, n), now, window)| <= |Recent(log, now, window)| + n
    ensures window > 0 ==> |Recent(log + Copies(now, n), now, window)| == |Recent(log, now, window)| + n
  {
    if n == 0 {
      assert log + Copies(now, 0) == log;
    } else {
      CappedCopies(log, now, n - 1, cap, window);
      var front := log + Copies(now, n - 1);
      assert log + Copies(now, n) == front + [now];
      RecentPush(front, now, now, window);
      CappedPush(front, now, cap, window);
    }
  }

  lemma {:induction false} FrameIsCapped(limit: nat, window: nat, steps: seq<Step>, frame: Step, most: nat, key: string)
    requires ClockRises(steps, frame.now) && frame.Allow? && most >= 1
    requires Count(KeysOf(frame.authed, frame.recipients), key) <= most
    requires Capped(At(Run(limit, window, steps).charges, key), limit + most - 1, window)
    ensures Capped(At(Next(Run(limit, window, steps), limit, window, frame).charges, key), limit + most - 1, window)
  {
    var h, keys := Run(limit, window, steps), KeysOf(frame.authed, frame.recipients);
    AllOrNothing(limit, window, steps, frame.authed, frame.recipients, frame.now);
    if SpecAllows(h, limit, window, keys, frame.now) {
      if Count(keys, key) > 0 {
        CountedIsThere(keys, key);
        CappedCopies(At(h.charges, key), frame.now, Count(keys, key), limit + most - 1, window);
      } else {
        assert At(h.charges, key) + Copies(frame.now, 0) == At(h.charges, key);
      }
    }
  }

  lemma {:induction false} ChargesAreCapped(limit: nat, window: nat, steps: seq<Step>, now: nat, most: nat, key: string)
    requires ClockRises(steps, now) && RepeatsAtMost(steps, most) && most >= 1
    ensures Capped(At(Run(limit, window, steps).charges, key), limit + most - 1, window)
  {
    if steps != [] {
      var front, step := steps[..|steps| - 1], steps[|steps| - 1];
      RepeatsInFront(steps, most, key);
      ChargesAreCapped(limit, window, front, step.now, most, key);
      if step.Allow? {
        FrameIsCapped(limit, window, front, step, most, key);
      }
    }
  }

  lemma {:induction false} RepeatsInFront(steps: seq<Step>, most: nat, key: string)
    requires steps != [] && RepeatsAtMost(steps, most)
    ensures RepeatsAtMost(steps[..|steps| - 1], most)
    ensures
      var last := steps[|steps| - 1];
      last.Allow? ==> Count(KeysOf(last.authed, last.recipients), key) <= most
  {
    assert forall k :: 0 <= k < |steps| - 1 ==> steps[..|steps| - 1][k] == steps[k];
  }

  lemma {:induction false} CountedIsThere(keys: seq<string>, key: string)
    requires Count(keys, key) > 0
    ensures exists i :: 0 <= i < |keys| && keys[i] == key
  {
    if keys[|keys| - 1] != key {
      CountedIsThere(keys[..|keys| - 1], key);
    }
  }

  /** When no frame names a recipient twice, no pair is charged more than the limit in any window;
      with at most `most` repeats the overshoot is at most `most - 1`. */
  lemma {:induction false} ChargesWithinLimit(limit: nat, window: nat, steps: seq<Step>, now: nat, most: nat,
      sender: string, recipient: string, i: nat, j: nat)
    requires ClockRises(steps, now) && RepeatsAtMost(steps, most) && most >= 1
    requires
      var charges := At(Run(limit, window, steps).charges, GiftKey(sender, recipient));
      i <= j < |charges| && charges[j] - charges[i] < window
    ensures j - i + 1 <= limit + (most - 1)
  {
    var key := GiftKey(sender, recipient);
    var h := Run(limit, window, steps);
    RunAgrees(limit, window, steps, now, key);
    ChargesAreCapped(limit, window, steps, now, most, key);
    CappedSpan(At(h.charges, key), limit + most - 1, window, h.now, i, j);
  }

  /** Exactly how full the window of any pair is after a frame is allowed: as before, and once more for
      each time the frame names the pair. So the limit is passed exactly when that exceeds it. */
  lemma {:induction false} ChargesAfterExactly(limit: nat, window: nat, steps: seq<Step>, authed: string,
      recipients: seq<string>, now: nat, key: string)
    requires ClockRises(steps, now) && window > 0
    requires SpecAllows(Run(limit, window, steps), limit, window, KeysOf(authed, recipients), now)
    ensures
      var h := Run(limit, window, steps);
      var h' := Next(h, limit, window, Allow(authed, recipients, now));
      var before, after := |Recent(At(h.charges, key), now, window)|, |Recent(At(h'.charges, key), now, window)|;
      && after == before + Count(KeysOf(authed, recipients), key)
      && (after > limit <==> before + Count(KeysOf(authed, recipients), key) > limit)
  {
    AllOrNothing(limit, window, steps, authed, recipients, now);
    RecentCopies(At(Run(limit, window, steps).charges, key), now, Count(KeysOf(authed, recipients), key), window);
  }

  /** With an empty window nothing counts, and every frame is allowed unless the limit is zero. */
  lemma {:induction false} NoWindowNoLimit(limit: nat, steps: seq<Step>, authed: string, recipients: seq<string>, now: nat)
    requires ClockRises(steps, now)
    ensures SpecAllows(Run(limit, 0, steps), limit, 0, KeysOf(authed, recipients), now) <==> recipients == [] || limit > 0
  {
    var h, keys := Run(limit, 0, steps), KeysOf(authed, recipients);
    forall i | 0 <= i < |keys|
      ensures Recent(At(h.charges, keys[i]), now, 0) == []
    {
      RecentNone(At(h.charges, keys[i]), now, 0);
    }
    if recipients != [] {
      assert Recent(At(h.charges, keys[0]), now, 0) == [];
    }
  }

  /** The overshoot happens whenever there is room for one more: a frame that names a recipient `most`
      times is allowed, and leaves that many charges more. */
  lemma {:induction false} RepeatsOvershoot(limit: nat, window: nat, steps: seq<Step>, authed: string, recipient: string, now: nat, most: nat)
    requires ClockRises(steps, now) && window > 0
    requires |Recent(At(Run(limit, window, steps).charges, GiftKey(Canonical(authed), recipient)), now, window)| < limit
    ensures
      var h, key := Run(limit, window, steps), GiftKey(Canonical(authed), recipient);
      var h' := Next(h, limit, window, Allow(authed, seq(most, _ => recipient), now));
      |Recent(At(h'.charges, key), now, window)| == |Recent(At(h.charges, key), now, window)| + most
  {
    var recipients := seq(most, _ => recipient);
    var keys := KeysOf(authed, recipients);
    CountAll(keys, GiftKey(Canonical(authed), recipient));
    assert SpecAllows(Run(limit, window, steps), limit, window, keys, now);
    ChargesAfterExactly(limit, window, steps, authed, recipients, now, GiftKey(Canonical(authed), recipient));
  }

  lemma {:induction false} RecentCopies(log: seq<nat>, now: nat, n: nat, window: nat)
    requires window > 0
    ensures |Recent(log + Copies(now, n), now, window)| == |Recent(log, now, window)| + n
  {
    if n == 0 {
      assert log + Copies(now, 0) == log;
    } else {
      RecentCopies(log, now, n - 1, window);
      assert log + Copies(now, n) == log + Copies(now, n - 1) + [now];
      RecentPush(log + Copies(now, n - 1), now, now, window);
    }
  }

  lemma {:induction false} CountAll(keys: seq<string>, key: string)
    requires forall i :: 0 <= i < |keys| ==> keys[i] == key
    ensures Count(keys, key) == |keys|
  {
    if keys != [] {
      CountAll(keys[..|keys| - 1], key);
    }
  }

  function WithoutSweeps(steps: seq<Step>): seq<Step> {
    if steps == [] then []
    else
      var front, step := steps[..|steps| - 1], steps[|steps| - 1];
      WithoutSweeps(front) + (if step.Sweep? then [] else [step])
  }

  lemma {:induction false} WithoutSweepsRises(steps: seq<Step>, now: nat)
    requires ClockRises(steps, now)
    ensures ClockRises(WithoutSweeps(steps), now)
  {
    if steps != [] {
      var front, step := steps[..|steps| - 1], steps[|steps| - 1];
      WithoutSweepsRises(front, step.now);
      var rest := WithoutSweeps(front);
      if step.Sweep? {
        assert WithoutSweeps(steps) == rest;
        assert rest != [] ==> rest[|rest| - 1].now <= now;
      } else {
        assert (rest + [step])[..|rest|] == rest;
      }
    }
  }

  /** Sweeps inserted anywhere change no answer. */
  lemma {:induction false} SweepsAreInvisible(limit: nat, window: nat, steps: seq<Step>, now: nat)
    requires ClockRises(steps, now)
    ensures Answers(limit, window, steps) == Answers(limit, window, WithoutSweeps(steps))
    ensures Run(limit, window, steps).charges == Run(limit, window, WithoutSweeps(steps)).charges
  {
    if steps != [] {
      var front, step := steps[..|steps| - 1], steps[|steps| - 1];
      SweepsAreInvisible(limit, window, front, step.now);
      WithoutSweepsRises(front, step.now);
      var rest := WithoutSweeps(front);
      if step.Sweep? {
        assert WithoutSweeps(steps) == rest;
      } else {
        var kept := rest + [step];
        assert kept[..|rest|] == rest && kept[|rest|] == step && WithoutSweeps(steps) == kept;
        AllOrNothing(limit, window, front, step.authed, step.recipients, step.now);
        AllOrNothing(limit, window, rest, step.authed, step.recipients, step.now);
      }
    }
  }

  /** A sweep keeps exactly the stamps that are younger than the window, and no bucket without one. */
  lemma {:induction false} SweepExactly(buckets: Buckets, window: nat, now: nat, key: string, t: nat)
    ensures key in AfterSweep(buckets, window, now) ==> key in buckets && AfterSweep(buckets, window, now)[key] != []
    ensures (key in AfterSweep(buckets, window, now) && t in AfterSweep(buckets, window, now)[key]) <==>
      key in buckets && t in buckets[key] && Since(now, t) < window
  {
    if key in buckets {
      RecentMembers(buckets[key], now, window, t);
    }
  }
}
