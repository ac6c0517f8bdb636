/** The debounced reload loop, as a state machine over its steps and those of the
    senders and the clock around it.

    The loop waits for a signal, then for half a second without another, then until two
    seconds after the previous reload ended; after that last wait it empties the channel. */
module ReloadLoop {

  /** Milliseconds. */
  const QUIET: nat := 500
  const MIN_GAP: nat := 2_000

  datatype Phase =
    | Waiting
    | Settling(deadline: nat)
    | Pausing(wake: nat)
    | Draining
    | Reloading
    | Stopped

  /** One reload: when it started, how many signals had been consumed by then, how many of those
      before the quiet period ended, and when it ended. */
  datatype Reload = Reload(start: nat, covered: nat, settled: nat, end: nat)

  /** `taken` is the log of the instants at which the loop consumed signals; the channel is first-in
      first-out, so signal `i` is consumed once `i < |taken|`. */
  datatype State = State(
    phase: Phase,
    now: nat,
    last: nat,
    open: bool,
    sent: nat,
    taken: seq<nat>,
    settled: nat,
    reloads: seq<Reload>)

  /** What one atomic step does: the environment's three, then the loop's. */
  datatype Action =
    | Tick(span: nat)
    | Send
    | Close
    | Receive
    | QuietEnds
    | PauseEnds
    | Drain
    | DrainEnds
    | ReloadEnds
    | ChannelEnds

  function Start(now: nat): State {
    State(Waiting, now, now, true, 0, [], 0, [])
  }

  predicate Queued(s: State) {
    |s.taken| < s.sent
  }

  predicate Enabled(s: State, a: Action) {
    match a
    case Tick(_) => true
    case Send => s.open
    case Close => s.open
    case Receive => Queued(s) && (s.phase.Waiting? || s.phase.Settling?)
    case QuietEnds => s.phase.Settling? && s.now >= s.phase.deadline
    case PauseEnds => s.phase.Pausing? && s.now >= s.phase.wake
    case Drain => s.phase.Draining? && Queued(s)
    case DrainEnds => s.phase.Draining? && !Queued(s)
    case ReloadEnds => s.phase.Reloading?
    case ChannelEnds => !s.open && !Queued(s) && (s.phase.Waiting? || s.phase.Settling?)
  }

  function BeginReload(s: State): State {
    s.(phase := Reloading, reloads := s.reloads + [Reload(s.now, |s.taken|, s.settled, s.now)])
  }

  function Apply(s: State, a: Action): State {
    match a
    case Tick(span) => s.(now := s.now + span)
    case Send => s.(sent := s.sent + 1)
    case Close => s.(open := false)
    case Receive => s.(phase := Settling(s.now + QUIET), taken := s.taken + [s.now], settled := |s.taken| + 1)
    case QuietEnds =>
      if s.now - s.last < MIN_GAP then s.(phase := Pausing(s.now + (MIN_GAP - (s.now - s.last)))) else BeginReload(s)
    case PauseEnds => s.(phase := Draining)
    case Drain => s.(taken := s.taken + [s.now])
    case DrainEnds => BeginReload(s)
    case ReloadEnds =>
      var r := |s.reloads| - 1;
      s.(phase := Waiting, last := s.now,
         reloads := if r < 0 then s.reloads else s.reloads[r := s.reloads[r].(end := s.now)])
    case ChannelEnds => s.(phase := Stopped)
  }

  ghost predicate Valid(s: State, actions: seq<Action>) {
    actions == [] ||
    (Valid(s, actions[..|actions| - 1]) && Enabled(Run(s, actions[..|actions| - 1]), actions[|actions| - 1]))
  }

  function Run(s: State, actions: seq<Action>): State {
    if actions == [] then s else Apply(Run(s, actions[..|actions| - 1]), actions[|actions| - 1])
  }

  // ------------------------------------------------------------------- Invariant

  predicate InBurst(s: State) {
    s.phase.Settling? || s.phase.Pausing? || s.phase.Draining?
  }

  function Covered(s: State): nat {
    if s.reloads == [] then 0 else s.reloads[|s.reloads| - 1].covered
  }

  ghost predicate ReloadOk(s: State, origin: nat, r: nat)
    requires r < |s.reloads|
  {
    var reload := s.reloads[r];
    && reload.start <= reload.end <= s.now
    && 0 < reload.settled <= reload.covered <= |s.taken|
    && reload.start >= s.taken[reload.settled - 1] + QUIET
    && reload.start >= (if r == 0 then origin else s.reloads[r - 1].end) + MIN_GAP
    && (if r == 0 then 0 else s.reloads[r - 1].covered) < reload.settled
    && (forall i :: 0 <= i < reload.covered ==> s.taken[i] <= reload.start)
  }

  ghost predicate Inv(s: State, origin: nat) {
    && origin <= s.last <= s.now
    && |s.taken| <= s.sent
    && (forall i :: 0 <= i < |s.taken| ==> s.taken[i] <= s.now)
    && Covered(s) <= |s.taken|
    && (forall r :: 0 <= r < |s.reloads| ==> ReloadOk(s, origin, r))
    && (if s.reloads == [] then s.last == origin
        else s.phase.Reloading? || s.last == s.reloads[|s.reloads| - 1].end)
    && (s.phase.Waiting? || s.phase.Reloading? ==> Covered(s) == |s.taken|)
    && (s.phase.Reloading? ==> s.reloads != [])
    && (InBurst(s) ==> Covered(s) < s.settled <= |s.taken|)
    && (s.phase.Settling? ==> s.settled == |s.taken| && s.phase.deadline == s.taken[s.settled - 1] + QUIET)
    && (s.phase.Pausing? ==> s.phase.wake == s.last + MIN_GAP && s.now >= s.taken[s.settled - 1] + QUIET)
    && (s.phase.Draining? ==> s.now >= s.last + MIN_GAP && s.now >= s.taken[s.settled - 1] + QUIET)
    && (s.phase.Stopped? ==> !s.open && |s.taken| == s.sent)
  }

  /** Reloads already recorded stay valid while the clock and the log of consumed signals grow. */
  lemma {:induction false} ReloadsStay(s: State, s': State, origin: nat, r: nat)
    requires r < |s.reloads| && ReloadOk(s, origin, r)
    requires s.reloads <= s'.reloads && s.taken <= s'.taken && s.now <= s'.now
    ensures ReloadOk(s', origin, r)
  {
    assert forall k :: 0 <= k < |s.reloads| ==> s'.reloads[k] == s.reloads[k];
    assert forall i :: 0 <= i < |s.taken| ==> s'.taken[i] == s.taken[i];
  }

  lemma {:induction false} BeginKeepsInv(s: State, origin: nat)
    requires Inv(s, origin) && InBurst(s)
    requires s.now >= s.last + MIN_GAP && s.now >= s.taken[s.settled - 1] + QUIET
    ensures Inv(BeginReload(s), origin)
  {
    var s' := BeginReload(s);
    forall r | 0 <= r < |s'.reloads|
      ensures ReloadOk(s', origin, r)
    {
      if r < |s.reloads| {
        ReloadsStay(s, s', origin, r);
      }
    }
  }

  lemma {:induction false} EndKeepsInv(s: State, origin: nat)
    requires Inv(s, origin) && s.phase.Reloading?
    ensures Inv(Apply(s, ReloadEnds), origin)
  {
    var s' := Apply(s, ReloadEnds);
    forall r | 0 <= r < |s'.reloads|
      ensures ReloadOk(s', origin, r)
    {
      assert ReloadOk(s, origin, r);
    }
  }

  lemma {:induction false} QuietKeepsInv(s: State, origin: nat)
    requires Inv(s, origin) && Enabled(s, QuietEnds)
    ensures Inv(Apply(s, QuietEnds), origin)
  {
    if s.now - s.last >= MIN_GAP {
      BeginKeepsInv(s, origin);
    } else {
      OthersKeepInv(s, Apply(s, QuietEnds), origin);
    }
  }

  lemma {:induction false} ReceiveKeepsInv(s: State, origin: nat)
    requires Inv(s, origin) && Enabled(s, Receive)
    ensures Inv(Apply(s, Receive), origin)
  {
    OthersKeepInv(s, Apply(s, Receive), origin);
  }

  lemma {:induction false} DrainKeepsInv(s: State, origin: nat)
    requires Inv(s, origin) && Enabled(s, Drain)
    ensures Inv(Apply(s, Drain), origin)
  {
    OthersKeepInv(s, Apply(s, Drain), origin);
  }

  lemma {:induction false} OutsideKeepsInv(s: State, a: Action, origin: nat)
    requires Inv(s, origin) && Enabled(s, a) && (a.Tick? || a.Send? || a.Close?)
    ensures Inv(Apply(s, a), origin)
  {
    OthersKeepInv(s, Apply(s, a), origin);
  }

  lemma {:induction false} PhaseKeepsInv(s: State, a: Action, origin: nat)
    requires Inv(s, origin) && Enabled(s, a) && (a.PauseEnds? || a.ChannelEnds?)
    ensures Inv(Apply(s, a), origin)
  {
    OthersKeepInv(s, Apply(s, a), origin);
  }

  lemma {:induction false} StepKeepsInv(s: State, a: Action, origin: nat)
    requires Inv(s, origin) && Enabled(s, a)
    ensures Inv(Apply(s, a), origin)
  {
    match a
    case ReloadEnds => EndKeepsInv(s, origin);
    case QuietEnds => QuietKeepsInv(s, origin);
    case DrainEnds => BeginKeepsInv(s, origin);
    case Receive => ReceiveKeepsInv(s, origin);
    case Drain => DrainKeepsInv(s, origin);
    case PauseEnds => PhaseKeepsInv(s, a, origin);
    case ChannelEnds => PhaseKeepsInv(s, a, origin);
    case _ => OutsideKeepsInv(s, a, origin);
  }

  lemma {:induction false} OthersKeepInv(s: State, s': State, origin: nat)
    requires Inv(s, origin)
    requires s'.reloads == s.reloads && s.taken <= s'.taken && s.now <= s'.now
    ensures forall r :: 0 <= r < |s'.reloads| ==> ReloadOk(s', origin, r)
  {
    forall r | 0 <= r < |s'.reloads|
      ensures ReloadOk(s', origin, r)
    {
      ReloadsStay(s, s', origin, r);
    }
  }

  lemma {:induction false} RunKeepsInv(origin: nat, actions: seq<Action>)
    requires Valid(Start(origin), actions)
    ensures Inv(Run(Start(origin), actions), origin)
  {
    if actions != [] {
      RunKeepsInv(origin, actions[..|actions| - 1]);
      StepKeepsInv(Run(Start(origin), actions[..|actions| - 1]), actions[|actions| - 1], origin);
    }
  }

  // ---------------------------------------------------------------- Main theorems

  /** A reload started after signal `i` was consumed. */
  ghost predicate Served(s: State, i: nat)
    requires i < |s.taken|
  {
    exists r :: 0 <= r < |s.reloads| && i < s.reloads[r].covered && s.taken[i] <= s.reloads[r].start
  }

  lemma {:induction false} CoveredRises(s: State, origin: nat, r: nat, n: nat)
    requires Inv(s, origin) && r < n <= |s.reloads|
    ensures s.reloads[r].covered <= s.reloads[n - 1].covered
  {
    if r < n - 1 {
      CoveredRises(s, origin, r, n - 1);
      assert ReloadOk(s, origin, n - 1);
    }
  }

  lemma {:induction false} ServedIsCovered(s: State, origin: nat, i: nat)
    requires Inv(s, origin) && i < |s.taken|
    ensures Served(s, i) <==> i < Covered(s)
  {
    var n := |s.reloads|;
    if i < Covered(s) {
      assert ReloadOk(s, origin, n - 1);
      assert i < s.reloads[n - 1].covered && s.taken[i] <= s.reloads[n - 1].start;
    }
    if Served(s, i) {
      var r :| 0 <= r < n && i < s.reloads[r].covered && s.taken[i] <= s.reloads[r].start;
      CoveredRises(s, origin, r, n);
    }
  }

  /** In every run exactly the consumed signals that the last reload covers have had a reload. */
  lemma {:induction false} ServedExactly(origin: nat, actions: seq<Action>, i: nat)
    requires Valid(Start(origin), actions) && i < |Run(Start(origin), actions).taken|
    ensures Served(Run(Start(origin), actions), i) <==> i < Covered(Run(Start(origin), actions))
  {
    RunKeepsInv(origin, actions);
    ServedIsCovered(Run(Start(origin), actions), origin, i);
  }

  /** No signal is lost: until the loop stops, every signal sent is still queued, or consumed by the
      burst under way, or was consumed before a reload that has started; and exactly one of these. */
  lemma {:induction false} NoSignalIsLost(origin: nat, actions: seq<Action>, i: nat)
    requires Valid(Start(origin), actions)
    requires !Run(Start(origin), actions).phase.Stopped?
    requires i < Run(Start(origin), actions).sent
    ensures
      var s := Run(Start(origin), actions);
      || i >= |s.taken|
      || (InBurst(s) && i >= Covered(s) && !Served(s, i))
      || (i < Covered(s) && Served(s, i))
  {
    RunKeepsInv(origin, actions);
    var s := Run(Start(origin), actions);
    if i < |s.taken| {
      ServedIsCovered(s, origin, i);
    }
  }

  /** Once it has stopped the channel is closed and every signal consumed, and exactly those since the
      last reload are lost. */
  lemma {:induction false} LostExactly(origin: nat, actions: seq<Action>, i: nat)
    requires Valid(Start(origin), actions)
    requires Run(Start(origin), actions).phase.Stopped?
    ensures
      var s := Run(Start(origin), actions);
      && !s.open && |s.taken| == s.sent
      && (i < s.sent ==> (Served(s, i) <==> i < Covered(s)))
  {
    RunKeepsInv(origin, actions);
    if i < Run(Start(origin), actions).sent {
      ServedExactly(origin, actions, i);
    }
  }

  /** Each reload starts at least two seconds after the one before it ended, or after the loop began,
      and at least half a second after the last signal of its quiet period. */
  lemma {:induction false} ReloadsAreSpaced(origin: nat, actions: seq<Action>, r: nat)
    requires Valid(Start(origin), actions)
    requires r < |Run(Start(origin), actions).reloads|
    ensures
      var s := Run(Start(origin), actions);
      && s.reloads[r].start >= (if r == 0 then origin else s.reloads[r - 1].end) + 2_000
      && 0 < s.reloads[r].settled <= |s.taken|
      && s.reloads[r].start >= s.taken[s.reloads[r].settled - 1] + 500
  {
    RunKeepsInv(origin, actions);
    OkIsSpaced(Run(Start(origin), actions), origin, r);
  }

  lemma {:induction false} OkIsSpaced(s: State, origin: nat, r: nat)
    requires Inv(s, origin) && r < |s.reloads|
    ensures s.reloads[r].start >= (if r == 0 then origin else s.reloads[r - 1].end) + 2_000
    ensures 0 < s.reloads[r].settled <= |s.taken|
    ensures s.reloads[r].start >= s.taken[s.reloads[r].settled - 1] + 500
  {
    assert ReloadOk(s, origin, r);
  }

  lemma {:induction false} CoveredGrows(s: State, origin: nat, n: nat)
    requires Inv(s, origin) && n <= |s.reloads|
    ensures n > 0 ==> n <= s.reloads[n - 1].covered
  {
    if n > 0 {
      CoveredGrows(s, origin, n - 1);
      assert ReloadOk(s, origin, n - 1);
    }
  }

  /** Each reload serves a signal that no earlier one did, so reloads never outnumber signals. */
  lemma {:induction false} ReloadsNeverOutnumberSignals(origin: nat, actions: seq<Action>)
    requires Valid(Start(origin), actions)
    ensures |Run(Start(origin), actions).reloads| <= |Run(Start(origin), actions).taken| <= Run(Start(origin), actions).sent
  {
    RunKeepsInv(origin, actions);
    var s := Run(Start(origin), actions);
    CoveredGrows(s, origin, |s.reloads|);
  }

  // -------------------------------------------------------------------- Closing

  lemma {:induction false} RunThree(s: State, front: seq<Action>, a: Action, b: Action, c: Action)
    requires Valid(s, front) && Enabled(Run(s, front), a)
    requires Enabled(Apply(Run(s, front), a), b)
    requires Enabled(Apply(Apply(Run(s, front), a), b), c)
    ensures Valid(s, front + [a, b, c])
    ensures Run(s, front + [a, b, c]) == Apply(Apply(Apply(Run(s, front), a), b), c)
  {
    var one, two, three := front + [a], front + [a, b], front + [a, b, c];
    assert one[..|one| - 1] == front;
    assert two[..|two| - 1] == one;
    assert three[..|three| - 1] == two;
    assert Run(s, one) == Apply(Run(s, front), a);
    assert Run(s, two) == Apply(Run(s, one), b);
  }

  /** When the senders go away during the quiet period the loop stops and the pending burst gets no
      reload. */
  lemma {:induction false} ClosingDropsTheBurst(origin: nat)
    ensures
      var actions := [Send, Receive, Close, ChannelEnds];
      Valid(Start(origin), actions) &&
      var s := Run(Start(origin), actions);
      s.phase.Stopped? && |s.taken| == 1 && s.reloads == []
  {
    var start := Start(origin);
    RunThree(start, [], Send, Receive, Close);
    var three := [Send, Receive, Close];
    assert [] + three == three;
    assert (three + [ChannelEnds])[..3] == three;
    assert three + [ChannelEnds] == [Send, Receive, Close, ChannelEnds];
  }
}
