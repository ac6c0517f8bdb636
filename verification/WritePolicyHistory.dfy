/** The write policy over whole runs, against the complete log of charged attempts. */
module WritePolicyHistory {
  import opened SlidingWindow
  import opened WritePolicy
  import opened Wrappers

  datatype Step =
    | Evaluate(event: EventInfo, now: nat)
    | Prune(now: nat)
    | Reload(lists: Lists, now: nat)

  /** What a reload installed, and every attempt that reached a bucket, rate-limited ones included. */
  datatype Facts = Facts(lists: Lists, attempts: map<string, seq<nat>>, accepted: map<string, seq<nat>>, now: nat)

  datatype History = History(buckets: Buckets, facts: Facts)

  const START := History(map[], Facts(Lists({}, map[]), map[], map[], 0))

  /** The decision from the complete log: refused by the screen, or accepted iff the attempts on the
      same key inside the window, this one included, are within the limit. */
  function SpecDecision(facts: Facts, config: PolicyConfig, event: EventInfo, now: nat): Decision {
    match Screen(config, facts.lists, event)
    case Err(reason) => Reject(reason)
    case Ok(key) =>
      if |Recent(At(facts.attempts, key), now, config.window)| + 1 <= config.limit then Accept else Reject(RateLimited)
  }

  function FactsAfter(facts: Facts, config: PolicyConfig, step: Step): Facts {
    match step
    case Prune(now) => facts.(now := now)
    case Reload(lists, now) => facts.(lists := lists, now := now)
    case Evaluate(event, now) =>
      match Screen(config, facts.lists, event)
      case Err(_) => facts.(now := now)
      case Ok(key) =>
        facts.(
          attempts := facts.attempts[key := At(facts.attempts, key) + [now]],
          accepted := if SpecDecision(facts, config, event, now) == Accept
                      then facts.accepted[key := At(facts.accepted, key) + [now]] else facts.accepted,
          now := now)
  }

  function BucketsAfter(h: History, config: PolicyConfig, step: Step): Buckets {
    match step
    case Prune(now) => AfterPrune(h.buckets, config, now)
    case Reload(_, _) => h.buckets
    case Evaluate(event, now) => AfterEvaluate(h.buckets, config, h.facts.lists, event, now).0
  }

  function Run(config: PolicyConfig, steps: seq<Step>): History {
    if steps == [] then START
    else
      var h, step := Run(config, steps[..|steps| - 1]), steps[|steps| - 1];
      History(BucketsAfter(h, config, step), FactsAfter(h.facts, config, step))
  }

  /** The decisions of the engine, in order. */
  function Decisions(config: PolicyConfig, steps: seq<Step>): seq<Decision> {
    if steps == [] then []
    else
      var front, step := steps[..|steps| - 1], steps[|steps| - 1];
      var h := Run(config, front);
      Decisions(config, front) +
      (if step.Evaluate? then [AfterEvaluate(h.buckets, config, h.facts.lists, step.event, step.now).1] else [])
  }

  /** The clock never goes back, and has not passed `now`. */
  ghost predicate ClockRises(steps: seq<Step>, now: nat) {
    if steps == [] then true
    else steps[|steps| - 1].now <= now && ClockRises(steps[..|steps| - 1], steps[|steps| - 1].now)
  }

  // ------------------------------------------------------------------ Simulation

  /** The two retention rules of the code agree on stamps of the past. */
  lemma {:induction false} AfterIsRecent(stamps: seq<nat>, now: nat, window: nat)
    requires Ordered(stamps, now)
    ensures After(stamps, now - window) == Recent(stamps, now, window)
  {
    if stamps != [] {
      var last := |stamps| - 1;
      assert Ordered(stamps[..last], now) by {
        OrderedLater(stamps[..last], stamps[last], now);
      }
      AfterIsRecent(stamps[..last], now, window);
    }
  }

  lemma {:induction false} RecentIsOrdered(stamps: seq<nat>, t: nat, window: nat, now: nat)
    requires Ordered(stamps, now)
    ensures Ordered(Recent(stamps, t, window), now)
  {
    if stamps != [] {
      var last := |stamps| - 1;
      RecentIsOrdered(stamps[..last], t, window, stamps[last]);
      var front := Recent(stamps[..last], t, window);
      OrderedLater(front, stamps[last], now);
      OrderedPush(front, stamps[last]);
      OrderedLater(front + [stamps[last]], stamps[last], now);
      assert front + [] == front;
    }
  }

  ghost predicate StampsAgree(bucket: seq<nat>, log: seq<nat>, window: nat, now: nat) {
    && Ordered(bucket, now)
    && Ordered(log, now)
    && Recent(bucket, now, window) == Recent(log, now, window)
  }

  ghost predicate KeyAgrees(h: History, config: PolicyConfig, key: string) {
    && StampsAgree(At(h.buckets, key), At(h.facts.attempts, key), config.window, h.facts.now)
    && Ordered(At(h.facts.accepted, key), h.facts.now)
    && Covered(At(h.facts.accepted, key), At(h.facts.attempts, key), config.window)
    && Capped(At(h.facts.accepted, key), config.limit, config.window)
  }

  lemma {:induction false} AgreeLater(bucket: seq<nat>, log: seq<nat>, window: nat, earlier: nat, now: nat)
    requires StampsAgree(bucket, log, window, earlier) && earlier <= now
    ensures StampsAgree(bucket, log, window, now)
    ensures StampsAgree(Recent(bucket, now, window), log, window, now)
  {
    OrderedLater(bucket, earlier, now);
    OrderedLater(log, earlier, now);
    RecentAgreesLater(bucket, log, earlier, now, window);
    RecentOfRecent(bucket, now, now, window);
    RecentIsOrdered(bucket, now, window, now);
  }

  lemma {:induction false} ChargeAgrees(bucket: seq<nat>, log: seq<nat>, window: nat, earlier: nat, now: nat)
    requires StampsAgree(bucket, log, window, earlier) && earlier <= now
    ensures After(bucket, now - window) == Recent(log, now, window)
    ensures StampsAgree(After(bucket, now - window) + [now], log + [now], window, now)
  {
    AgreeLater(bucket, log, window, earlier, now);
    AfterIsRecent(bucket, now, window);
    var kept := Recent(bucket, now, window);
    RecentPush(kept, now, now, window);
    RecentPush(log, now, now, window);
    OrderedPush(kept, now);
    OrderedPush(log, now);
  }

  lemma {:induction false} AcceptedStays(facts: Facts, config: PolicyConfig, key: string, now: nat)
    requires Ordered(At(facts.accepted, key), facts.now) && facts.now <= now
    requires Covered(At(facts.accepted, key), At(facts.attempts, key), config.window)
    requires Capped(At(facts.accepted, key), config.limit, config.window)
    requires |Recent(At(facts.attempts, key), now, config.window)| + 1 <= config.limit
    ensures Ordered(At(facts.accepted, key) + [now], now)
    ensures Capped(At(facts.accepted, key) + [now], config.limit, config.window)
  {
    OrderedLater(At(facts.accepted, key), facts.now, now);
    OrderedPush(At(facts.accepted, key), now);
    RecentPush(At(facts.accepted, key), now, now, config.window);
    assert |Recent(At(facts.accepted, key), now, config.window)| <= |Recent(At(facts.attempts, key), now, config.window)|;
    CappedPush(At(facts.accepted, key), now, config.limit, config.window);
  }

  /** A key that the step does not charge. */
  lemma {:induction false} UnchargedAgrees(h: History, config: PolicyConfig, step: Step, key: string)
    requires KeyAgrees(h, config, key) && h.facts.now <= step.now
    requires step.Evaluate? ==> Screen(config, h.facts.lists, step.event) != Ok(key)
    ensures KeyAgrees(History(BucketsAfter(h, config, step), FactsAfter(h.facts, config, step)), config, key)
  {
    AgreeLater(At(h.buckets, key), At(h.facts.attempts, key), config.window, h.facts.now, step.now);
    OrderedLater(At(h.facts.accepted, key), h.facts.now, step.now);
    UnchargedBucket(h, config, step, key);
    UnchargedFacts(h.facts, config, step, key);
  }

  lemma {:induction false} UnchargedBucket(h: History, config: PolicyConfig, step: Step, key: string)
    requires step.Evaluate? ==> Screen(config, h.facts.lists, step.event) != Ok(key)
    ensures
      var after := At(BucketsAfter(h, config, step), key);
      after == At(h.buckets, key) || after == Recent(At(h.buckets, key), step.now, config.window)
  {
  }

  lemma {:induction false} UnchargedFacts(facts: Facts, config: PolicyConfig, step: Step, key: string)
    requires step.Evaluate? ==> Screen(config, facts.lists, step.event) != Ok(key)
    ensures
      var after := FactsAfter(facts, config, step);
      At(after.attempts, key) == At(facts.attempts, key) && At(after.accepted, key) == At(facts.accepted, key) && after.now == step.now
  {
  }

  lemma {:induction false} ChargedAgrees(h: History, config: PolicyConfig, step: Step, key: string)
    requires KeyAgrees(h, config, key) && h.facts.now <= step.now
    requires step.Evaluate? && Screen(config, h.facts.lists, step.event) == Ok(key)
    ensures KeyAgrees(History(BucketsAfter(h, config, step), FactsAfter(h.facts, config, step)), config, key)
    ensures AfterEvaluate(h.buckets, config, h.facts.lists, step.event, step.now).1 == SpecDecision(h.facts, config, step.event, step.now)
  {
    ChargeAgrees(At(h.buckets, key), At(h.facts.attempts, key), config.window, h.facts.now, step.now);
    CoveredPush(At(h.facts.accepted, key), At(h.facts.attempts, key), step.now, config.window);
    OrderedLater(At(h.facts.accepted, key), h.facts.now, step.now);
    if SpecDecision(h.facts, config, step.event, step.now) == Accept {
      AcceptedStays(h.facts, config, key, step.now);
    }
  }

  lemma {:induction false} RunAgrees(config: PolicyConfig, steps: seq<Step>, key: string, now: nat)
    requires ClockRises(steps, now)
    ensures KeyAgrees(Run(config, steps), config, key)
    ensures Run(config, steps).facts.now <= now
  {
    if steps != [] {
      var front, step := steps[..|steps| - 1], steps[|steps| - 1];
      var h := Run(config, front);
      RunAgrees(config, front, key, step.now);
      if step.Evaluate? && Screen(config, h.facts.lists, step.event) == Ok(key) {
        ChargedAgrees(h, config, step, key);
      } else {
        UnchargedAgrees(h, config, step, key);
      }
    }
  }

  // ------------------------------------------------------------------ Main theorems

  /** In every run the engine decides as the complete log does; a refusal by the screen leaves the
      buckets as they are. */
  lemma {:induction false} DecisionMatchesLog(config: PolicyConfig, steps: seq<Step>, event: EventInfo, now: nat)
    requires ClockRises(steps, now)
    ensures
      var h := Run(config, steps);
      var (buckets, decision) := AfterEvaluate(h.buckets, config, h.facts.lists, event, now);
      && decision == SpecDecision(h.facts, config, event, now)
      && (decision.Reject? && decision.reason != RateLimited ==> buckets == h.buckets)
  {
    var h := Run(config, steps);
    var screen := Screen(config, h.facts.lists, event);
    if screen.Ok? {
      RunAgrees(config, steps, screen.value, now);
      ChargedAgrees(h, config, Evaluate(event, now), screen.value);
    }
  }

  /** No key has more than the limit accepted in any window. */
  lemma {:induction false} AcceptedWithinLimit(config: PolicyConfig, steps: seq<Step>, now: nat, key: string, i: nat, j: nat)
    requires ClockRises(steps, now)
    requires i <= j < |At(Run(config, steps).facts.accepted, key)|
    requires At(Run(config, steps).facts.accepted, key)[j] - At(Run(config, steps).facts.accepted, key)[i] < config.window
    ensures j - i + 1 <= config.limit
  {
    RunAgrees(config, steps, key, now);
    var h := Run(config, steps);
    CappedSpan(At(h.facts.accepted, key), config.limit, config.window, h.facts.now, i, j);
  }

  function WithoutPrunes(steps: seq<Step>): seq<Step> {
    if steps == [] then []
    else
      var front, step := steps[..|steps| - 1], steps[|steps| - 1];
      WithoutPrunes(front) + (if step.Prune? then [] else [step])
  }

  lemma {:induction false} WithoutPrunesRises(steps: seq<Step>, now: nat)
    requires ClockRises(steps, now)
    ensures ClockRises(WithoutPrunes(steps), now)
  {
    if steps != [] {
      var front, step := steps[..|steps| - 1], steps[|steps| - 1];
      WithoutPrunesRises(front, step.now);
      var rest := WithoutPrunes(front);
      if step.Prune? {
        assert WithoutPrunes(steps) == rest;
        assert rest != [] ==> rest[|rest| - 1].now <= now;
      } else {
        assert (rest + [step])[..|rest|] == rest;
      }
    }
  }

  lemma {:induction false} RunPush(config: PolicyConfig, steps: seq<Step>, step: Step)
    ensures Run(config, steps + [step]).facts == FactsAfter(Run(config, steps).facts, config, step)
    ensures step.Evaluate? ==>
      var h := Run(config, steps);
      Decisions(config, steps + [step]) == Decisions(config, steps)
        + [AfterEvaluate(h.buckets, config, h.facts.lists, step.event, step.now).1]
    ensures !step.Evaluate? ==> Decisions(config, steps + [step]) == Decisions(config, steps)
  {
    assert (steps + [step])[..|steps|] == steps;
  }

  ghost predicate SameBut(config: PolicyConfig, a: seq<Step>, b: seq<Step>) {
    && Decisions(config, a) == Decisions(config, b)
    && Run(config, b).facts == Run(config, a).facts.(now := Run(config, b).facts.now)
  }

  lemma {:induction false} SameAfter(config: PolicyConfig, a: seq<Step>, b: seq<Step>, step: Step)
    requires SameBut(config, a, b) && ClockRises(a, step.now) && ClockRises(b, step.now)
    ensures SameBut(config, a + [step], b + [step])
  {
    RunPush(config, a, step);
    RunPush(config, b, step);
    SameStepSameFacts(Run(config, a).facts, Run(config, b).facts, config, step);
    if step.Evaluate? {
      DecisionMatchesLog(config, a, step.event, step.now);
      DecisionMatchesLog(config, b, step.event, step.now);
    }
  }

  lemma {:induction false} SameAfterPrune(config: PolicyConfig, a: seq<Step>, b: seq<Step>, step: Step)
    requires SameBut(config, a, b) && step.Prune?
    ensures SameBut(config, a + [step], b)
  {
    RunPush(config, a, step);
  }

  /** Sweeps inserted anywhere change no decision. */
  lemma {:induction false} PrunesAreInvisible(config: PolicyConfig, steps: seq<Step>, now: nat)
    requires ClockRises(steps, now)
    ensures Decisions(config, steps) == Decisions(config, WithoutPrunes(steps))
    ensures Run(config, WithoutPrunes(steps)).facts == Run(config, steps).facts.(now := Run(config, WithoutPrunes(steps)).facts.now)
  {
    if steps != [] {
      var front, step := steps[..|steps| - 1], steps[|steps| - 1];
      var rest := WithoutPrunes(front);
      assert steps == front + [step];
      PrunesAreInvisible(config, front, step.now);
      if step.Prune? {
        assert WithoutPrunes(steps) == rest;
        SameAfterPrune(config, front, rest, step);
      } else {
        WithoutPrunesRises(front, step.now);
        SameAfter(config, front, rest, step);
      }
    }
  }

  lemma {:induction false} SameStepSameFacts(a: Facts, b: Facts, config: PolicyConfig, step: Step)
    requires b == a.(now := b.now)
    ensures FactsAfter(a, config, step) == FactsAfter(b, config, step)
    ensures step.Evaluate? ==> SpecDecision(a, config, step.event, step.now) == SpecDecision(b, config, step.event, step.now)
  {
  }
}
