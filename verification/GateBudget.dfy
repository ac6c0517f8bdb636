/** All connections of the gate together, and the one budget that they share. */
module GateBudget {
  import GiftBudget
  import opened GateSession
  import opened GiftBudgetHistory
  import opened GiftKeys
  import opened ReadPolicy
  import opened SlidingWindow
  import opened Text
  import opened Wrappers

  /** A client frame on some connection, or the sweeper. */
  datatype GateStep = Client(conn: nat, frame: ClientFrame, at: Moment) | Sweeper(now: nat)

  datatype Gate = Gate(challenges: nat -> string, verifier: Verifier, limits: Limits)

  /** The keys of the connections that are signed in, and the shared buckets. */
  datatype World = World(authed: map<nat, string>, buckets: GiftBudget.Buckets)

  function TimeOf(step: GateStep): nat {
    if step.Client? then step.at.now else step.now
  }

  function StateOf(world: World, conn: nat): State {
    State(if conn in world.authed then Some(world.authed[conn]) else None, world.buckets)
  }

  function Answer(gate: Gate, world: World, step: GateStep): (State, ClientOutcome)
    requires step.Client?
  {
    AfterClient(StateOf(world, step.conn), gate.challenges(step.conn), gate.verifier, gate.limits, step.frame, step.at)
  }

  function WorldAfter(gate: Gate, world: World, step: GateStep): World {
    match step
    case Sweeper(now) => world.(buckets := GiftBudget.AfterSweep(world.buckets, gate.limits.window, now))
    case Client(conn, _, _) =>
      var after := Answer(gate, world, step).0;
      World(if after.authed.Some? then world.authed[conn := after.authed.value] else world.authed, after.buckets)
  }

  function WorldOf(gate: Gate, steps: seq<GateStep>): World {
    if steps == [] then World(map[], map[])
    else WorldAfter(gate, WorldOf(gate, steps[..|steps| - 1]), steps[|steps| - 1])
  }

  /** The clock never goes back, and has not passed `now`. */
  ghost predicate Rises(steps: seq<GateStep>, now: nat) {
    steps == [] || (TimeOf(steps[|steps| - 1]) <= now && Rises(steps[..|steps| - 1], TimeOf(steps[|steps| - 1])))
  }

  // ------------------------------------------------------------ What the budget sees

  /** A wrap of a signed-in member, for which the budget is asked. */
  predicate Asks(world: World, step: GateStep) {
    && step.Client? && step.frame.Verb() == EVENT && step.frame.Event().kind == Some(GIFT_WRAP_KIND)
    && step.conn in world.authed && step.at.dir.Reader(world.authed[step.conn]).Some?
  }

  function Sender(world: World, step: GateStep): string
    requires Asks(world, step)
  {
    world.authed[step.conn]
  }

  function Named(step: GateStep): seq<string>
    requires step.Client?
  {
    Recipients(step.frame.Event())
  }

  function BudgetStep(world: World, step: GateStep): seq<Step> {
    if step.Sweeper? then [Sweep(step.now)]
    else if Asks(world, step) then [Allow(Sender(world, step), Named(step), step.at.now)]
    else []
  }

  function BudgetSteps(gate: Gate, steps: seq<GateStep>): seq<Step> {
    if steps == [] then []
    else
      var front := steps[..|steps| - 1];
      BudgetSteps(gate, front) + BudgetStep(WorldOf(gate, front), steps[|steps| - 1])
  }

  lemma {:induction false} PushRun(limit: nat, window: nat, steps: seq<Step>, step: Step)
    ensures Run(limit, window, steps + [step]) == Next(Run(limit, window, steps), limit, window, step)
    ensures forall now :: step.now <= now && ClockRises(steps, step.now) ==> ClockRises(steps + [step], now)
  {
    assert (steps + [step])[..|steps|] == steps;
  }

  lemma {:induction false} NoStep(steps: seq<Step>)
    ensures steps + [] == steps
  {
  }

  lemma {:induction false} ClockLater(steps: seq<Step>, earlier: nat, now: nat)
    requires ClockRises(steps, earlier) && earlier <= now
    ensures ClockRises(steps, now)
  {
  }

  lemma {:induction false} BudgetRises(gate: Gate, steps: seq<GateStep>, now: nat)
    requires Rises(steps, now)
    ensures ClockRises(BudgetSteps(gate, steps), now)
  {
    if steps != [] {
      var front, step := steps[..|steps| - 1], steps[|steps| - 1];
      BudgetRises(gate, front, TimeOf(step));
      var before := BudgetSteps(gate, front);
      var more := BudgetStep(WorldOf(gate, front), step);
      if more == [] {
        NoStep(before);
        ClockLater(before, TimeOf(step), now);
      } else {
        assert more == [more[0]];
        PushRun(0, 0, before, more[0]);
      }
    }
  }

  /** One step of the gate is at most one of the budget, with the same effect and answer. */
  lemma {:induction false} StepIsBudgetStep(gate: Gate, world: World, step: GateStep, h: History)
    requires h.buckets == world.buckets
    ensures
      var more := BudgetStep(world, step);
      WorldAfter(gate, world, step).buckets ==
        if more == [] then world.buckets else Next(h, gate.limits.limit, gate.limits.window, more[0]).buckets
    ensures Asks(world, step) ==>
      (Answer(gate, world, step).1.toRelay == [step.frame] <==>
       GiftBudget.AllHaveRoom(h.buckets, gate.limits.limit, gate.limits.window,
                              GiftBudget.KeysOf(Sender(world, step), Named(step)), step.at.now))
    ensures Asks(world, step) ==> Answer(gate, world, step).1.toRelay in {[], [step.frame]}
  {
  }

  /** The shared budget runs as if the connections were one. */
  lemma {:induction false} SharedBudget(gate: Gate, steps: seq<GateStep>)
    ensures WorldOf(gate, steps).buckets == Run(gate.limits.limit, gate.limits.window, BudgetSteps(gate, steps)).buckets
  {
    if steps != [] {
      var front, step := steps[..|steps| - 1], steps[|steps| - 1];
      SharedBudget(gate, front);
      var before, more := BudgetSteps(gate, front), BudgetStep(WorldOf(gate, front), step);
      StepIsBudgetStep(gate, WorldOf(gate, front), step, Run(gate.limits.limit, gate.limits.window, before));
      if more == [] {
        NoStep(before);
      } else {
        assert more == [more[0]];
        PushRun(gate.limits.limit, gate.limits.window, before, more[0]);
      }
    }
  }

  // ------------------------------------------------------------ What is forwarded

  /** How often the step forwards a wrap by `sender` to `recipient`. */
  function Mentions(gate: Gate, world: World, step: GateStep, sender: string, recipient: string): nat {
    if Asks(world, step) && Answer(gate, world, step).1.toRelay != [] && Canonical(Sender(world, step)) == sender
    then Count(Named(step), recipient) else 0
  }

  /** The instants of the forwarded wraps by `sender`, on any connection, once for each time they name
      `recipient`. */
  function ForwardedWraps(gate: Gate, steps: seq<GateStep>, sender: string, recipient: string): seq<nat> {
    if steps == [] then []
    else
      var front, step := steps[..|steps| - 1], steps[|steps| - 1];
      ForwardedWraps(gate, front, sender, recipient)
      + Copies(TimeOf(step), Mentions(gate, WorldOf(gate, front), step, sender, recipient))
  }

  lemma {:induction false} KeysCount(authed: string, recipients: seq<string>, sender: string, recipient: string)
    requires IsHex64(recipient) && forall r :: r in recipients ==> IsHex64(r)
    ensures Count(GiftBudget.KeysOf(authed, recipients), GiftKey(sender, recipient))
         == if Canonical(authed) == sender then Count(recipients, recipient) else 0
  {
    if recipients != [] {
      var n := |recipients| - 1;
      assert GiftBudget.KeysOf(authed, recipients)[..n] == GiftBudget.KeysOf(authed, recipients[..n]);
      assert recipients[n] in recipients;
      KeysCount(authed, recipients[..n], sender, recipient);
      GiftKeysAreDistinct(Canonical(authed), sender, recipients[n], recipient);
    }
  }

  lemma {:induction false} NamedAreKeys(step: GateStep)
    requires step.Client?
    ensures forall r :: r in Named(step) ==> IsHex64(r)
  {
    if step.frame.Event().tags.Some? {
      RecipientsAreKeys(step.frame.Event().tags.value);
    }
  }

  /** A step charges a pair as often as it forwards a mention of it. */
  lemma {:induction false} ChargesAreMentions(gate: Gate, steps: seq<GateStep>, step: GateStep, sender: string, recipient: string)
    requires Rises(steps, TimeOf(step)) && IsHex64(recipient) && Asks(WorldOf(gate, steps), step)
    ensures
      var h := Run(gate.limits.limit, gate.limits.window, BudgetSteps(gate, steps));
      var world := WorldOf(gate, steps);
      var h' := Next(h, gate.limits.limit, gate.limits.window, Allow(Sender(world, step), Named(step), step.at.now));
      At(h'.charges, GiftKey(sender, recipient)) ==
        At(h.charges, GiftKey(sender, recipient)) + Copies(TimeOf(step), Mentions(gate, world, step, sender, recipient))
  {
    var world, before := WorldOf(gate, steps), BudgetSteps(gate, steps);
    SharedBudget(gate, steps);
    BudgetRises(gate, steps, TimeOf(step));
    StepIsBudgetStep(gate, world, step, Run(gate.limits.limit, gate.limits.window, before));
    AllOrNothing(gate.limits.limit, gate.limits.window, before, Sender(world, step), Named(step), step.at.now);
    NamedAreKeys(step);
    KeysCount(Sender(world, step), Named(step), sender, recipient);
    NoCopies(At(Run(gate.limits.limit, gate.limits.window, before).charges, GiftKey(sender, recipient)), TimeOf(step));
  }

  lemma {:induction false} NoCopies(log: seq<nat>, now: nat)
    ensures log + Copies(now, 0) == log
  {
  }

  /** The budget's log of a pair is the log of what was forwarded for it, over all connections. */
  lemma {:induction false} ChargesAreForwardedWraps(gate: Gate, steps: seq<GateStep>, now: nat, sender: string, recipient: string)
    requires Rises(steps, now) && IsHex64(recipient)
    ensures At(Run(gate.limits.limit, gate.limits.window, BudgetSteps(gate, steps)).charges, GiftKey(sender, recipient))
         == ForwardedWraps(gate, steps, sender, recipient)
  {
    if steps != [] {
      var front, step := steps[..|steps| - 1], steps[|steps| - 1];
      ChargesAreForwardedWraps(gate, front, TimeOf(step), sender, recipient);
      var before, world := BudgetSteps(gate, front), WorldOf(gate, front);
      if Asks(world, step) {
        ChargesAreMentions(gate, front, step, sender, recipient);
        PushRun(gate.limits.limit, gate.limits.window, before, BudgetStep(world, step)[0]);
      } else {
        QuietStep(gate, before, world, step, GiftKey(sender, recipient));
        NoCopies(ForwardedWraps(gate, front, sender, recipient), TimeOf(step));
      }
    }
  }

  lemma {:induction false} QuietStep(gate: Gate, before: seq<Step>, world: World, step: GateStep, key: string)
    requires !Asks(world, step)
    ensures At(Run(gate.limits.limit, gate.limits.window, before + BudgetStep(world, step)).charges, key)
         == At(Run(gate.limits.limit, gate.limits.window, before).charges, key)
  {
    if step.Sweeper? {
      PushRun(gate.limits.limit, gate.limits.window, before, Sweep(step.now));
    } else {
      NoStep(before);
    }
  }

  /** No frame names one recipient more than `most` times. */
  ghost predicate NamesAtMost(steps: seq<GateStep>, most: nat) {
    forall k, r :: 0 <= k < |steps| && steps[k].Client? ==> Count(Named(steps[k]), r) <= most
  }

  lemma {:induction false} KeysAtMost(authed: string, recipients: seq<string>, most: nat, key: string)
    requires (forall r :: r in recipients ==> IsHex64(r)) && forall r :: Count(recipients, r) <= most
    ensures Count(GiftBudget.KeysOf(authed, recipients), key) <= most
  {
    var keys := GiftBudget.KeysOf(authed, recipients);
    if Count(keys, key) > 0 {
      CountedIsThere(keys, key);
      var i :| 0 <= i < |keys| && keys[i] == key;
      KeysCount(authed, recipients, Canonical(authed), recipients[i]);
      assert Count(recipients, recipients[i]) <= most;
    }
  }

  lemma {:induction false} RepeatsPush(steps: seq<Step>, step: Step, most: nat)
    requires RepeatsAtMost(steps, most)
    requires step.Allow? ==> forall key :: Count(GiftBudget.KeysOf(step.authed, step.recipients), key) <= most
    ensures RepeatsAtMost(steps + [step], most)
  {
  }

  lemma {:induction false} LastNames(steps: seq<GateStep>, most: nat)
    requires NamesAtMost(steps, most) && steps != [] && steps[|steps| - 1].Client?
    ensures
      var named := Named(steps[|steps| - 1]);
      forall r :: Count(named, r) <= most
  {
    var last := |steps| - 1;
    forall r
      ensures Count(Named(steps[last]), r) <= most
    {
    }
  }

  lemma {:induction false} BudgetRepeats(gate: Gate, steps: seq<GateStep>, most: nat)
    requires NamesAtMost(steps, most)
    ensures RepeatsAtMost(BudgetSteps(gate, steps), most)
  {
    if steps != [] {
      var front, step := steps[..|steps| - 1], steps[|steps| - 1];
      assert NamesAtMost(front, most) by {
        assert forall k :: 0 <= k < |front| ==> front[k] == steps[k];
      }
      BudgetRepeats(gate, front, most);
      var before, more := BudgetSteps(gate, front), BudgetStep(WorldOf(gate, front), step);
      if more == [] {
        NoStep(before);
      } else {
        assert more == [more[0]];
        if step.Client? {
          NamedAreKeys(step);
          LastNames(steps, most);
          forall key
            ensures Count(GiftBudget.KeysOf(Sender(WorldOf(gate, front), step), Named(step)), key) <= most
          {
            KeysAtMost(Sender(WorldOf(gate, front), step), Named(step), most, key);
          }
        }
        RepeatsPush(before, more[0], most);
      }
    }
  }

  // ---------------------------------------------------------------- Who is named

  /** A `p` tag with this key, in any case and with any space around it. */
  predicate TagNames(tag: JsonTag, key: string) {
    tag.Parts? && |tag.parts| >= 2 && tag.parts[0] == Text("p") && tag.parts[1].Text? && Lower(Trim(tag.parts[1].text)) == key
  }

  function TimesNamed(tags: seq<JsonTag>, key: string): nat {
    if tags == [] then 0 else TimesNamed(tags[..|tags| - 1], key) + (if TagNames(tags[|tags| - 1], key) then 1 else 0)
  }

  /** A key is charged as often as `p` tags name it, and not at all when it is no key. */
  lemma {:induction false} NamedByTags(tags: seq<JsonTag>, key: string)
    ensures Count(RecipientsIn(tags), key) == if IsHex64(key) then TimesNamed(tags, key) else 0
  {
    if tags != [] {
      var front, last := tags[..|tags| - 1], tags[|tags| - 1];
      NamedByTags(front, key);
      LastTag(front, last, key);
      assert tags == front + [last];
    }
  }

  lemma {:induction false} LastTag(front: seq<JsonTag>, last: JsonTag, key: string)
    ensures Count(RecipientsIn(front + [last]), key) ==
      Count(RecipientsIn(front), key) + (if IsHex64(key) && TagNames(last, key) then 1 else 0)
  {
    var tags := front + [last];
    assert tags[..|tags| - 1] == front;
    var before := RecipientsIn(front);
    if RecipientsIn(tags) != before {
      var name := RecipientsIn(tags)[|before|];
      assert RecipientsIn(tags) == before + [name];
      assert (before + [name])[..|before|] == before;
    }
  }

  /** So a key is among the recipients if and only if it is one and some `p` tag names it. */
  lemma {:induction false} RecipientsExactly(tags: seq<JsonTag>, key: string)
    ensures key in RecipientsIn(tags) <==> IsHex64(key) && exists i :: 0 <= i < |tags| && TagNames(tags[i], key)
  {
    if tags != [] {
      var front, last := tags[..|tags| - 1], tags[|tags| - 1];
      RecipientsExactly(front, key);
      assert tags == front + [last];
      if TagNames(last, key) {
        assert TagNames(tags[|tags| - 1], key);
      }
    }
  }

  // ------------------------------------------------------------------- Main theorem

  /** However many connections a member has: no window holds more forwarded wraps from one member to one
      recipient than the limit, when no frame names a recipient twice; with up to `most` mentions in a
      frame, at most `most - 1` more. */
  lemma {:induction false} WrapsWithinLimit(gate: Gate, steps: seq<GateStep>, now: nat, most: nat,
      sender: string, recipient: string, i: nat, j: nat)
    requires Rises(steps, now) && NamesAtMost(steps, most) && most >= 1 && IsHex64(recipient)
    requires
      var wraps := ForwardedWraps(gate, steps, sender, recipient);
      i <= j < |wraps| && wraps[j] - wraps[i] < gate.limits.window
    ensures j - i + 1 <= gate.limits.limit + (most - 1)
  {
    ChargesAreForwardedWraps(gate, steps, now, sender, recipient);
    BudgetRises(gate, steps, now);
    BudgetRepeats(gate, steps, most);
    ChargesWithinLimit(gate.limits.limit, gate.limits.window, BudgetSteps(gate, steps), now, most, sender, recipient, i, j);
  }
}
