/** When signals are served: runs in which the loop takes each of its steps once it is due. */
module ReloadProgress {
  import opened ReloadLoop
  import opened Wrappers

  function Max(a: nat, b: nat): nat {
    if a < b then b else a
  }

  /** When the loop's next own step is due: now where it is ready, or at its timer. A wait for a signal
      and a reload take as long as they take. */
  function Due(s: State): Option<nat> {
    match s.phase
    case Waiting => if Queued(s) || !s.open then Some(s.now) else None
    case Settling(deadline) => if Queued(s) || !s.open then Some(s.now) else Some(deadline)
    case Pausing(wake) => Some(wake)
    case Draining => Some(s.now)
    case _ => None
  }

  /** Time does not pass a step that is due. */
  predicate PromptStep(s: State, a: Action) {
    a.Tick? && a.span > 0 && Due(s).Some? ==> s.now + a.span <= Due(s).value
  }

  ghost predicate Prompt(s: State, actions: seq<Action>) {
    actions == [] ||
    (Prompt(s, actions[..|actions| - 1]) && PromptStep(Run(s, actions[..|actions| - 1]), actions[|actions| - 1]))
  }

  /** Steps of the loop and of the clock, and of nobody else. */
  ghost predicate LoopOnly(actions: seq<Action>) {
    forall a :: a in actions ==> a != Send && a != Close
  }

  lemma {:induction false} MoreKeepsInv(s: State, origin: nat, more: seq<Action>)
    requires Inv(s, origin) && Valid(s, more)
    ensures Inv(Run(s, more), origin)
  {
    if more != [] {
      MoreKeepsInv(s, origin, more[..|more| - 1]);
      StepKeepsInv(Run(s, more[..|more| - 1]), more[|more| - 1], origin);
    }
  }

  // ------------------------------------------------------------- With no more signals

  /** Signal `i`, sent before `s`, is served, or its time is not up at `t`. */
  ghost predicate OnTime(s: State, t: State, i: nat) {
    i < Covered(t) ||
    (&& t.open && i < t.sent && s.now <= t.now
     && match t.phase
        case Waiting => t.now <= Max(s.now, t.last)
        case Settling(deadline) =>
          && deadline <= Max(s.now, t.last) + 500
          && t.now <= Max(deadline, Max(s.now, t.last))
          && (Queued(t) ==> t.now <= Max(s.now, t.last))
        case Pausing(wake) => t.now <= Max(wake, s.now)
        case Draining => t.now <= Max(s.now + 500, t.last + 2_000)
        case Reloading => true
        case Stopped => false)
  }

  /** No reload is under way, and no signal is queued behind a quiet timer that has run out. */
  predicate Clear(s: State) {
    !s.phase.Reloading? && (s.phase.Settling? && Queued(s) ==> s.now < s.phase.deadline)
  }

  /** From a clear state the first reload already serves the signal. */
  ghost predicate ClearOnTime(s: State, t: State, i: nat) {
    i < Covered(t) || (Clear(t) && t.last == s.last)
  }

  lemma {:induction false} StartsOnTime(s: State, origin: nat, i: nat)
    requires Inv(s, origin) && s.open && i < s.sent
    ensures OnTime(s, s, i) && (Clear(s) ==> ClearOnTime(s, s, i))
  {
  }

  lemma {:induction false} CoveredStays(t: State, a: Action, origin: nat)
    requires Inv(t, origin) && Enabled(t, a)
    ensures Covered(t) <= Covered(Apply(t, a))
  {
  }

  lemma {:induction false} StepOnTime(s: State, t: State, a: Action, origin: nat, i: nat)
    requires Inv(t, origin) && Enabled(t, a) && PromptStep(t, a) && a != Send && a != Close
    requires OnTime(s, t, i)
    ensures OnTime(s, Apply(t, a), i)
  {
    CoveredStays(t, a, origin);
    match a
    case Tick(_) =>
    case Receive =>
    case QuietEnds =>
    case PauseEnds =>
    case Drain =>
    case DrainEnds =>
    case ReloadEnds =>
    case ChannelEnds =>
  }

  lemma {:induction false} StepClear(s: State, t: State, a: Action, origin: nat, i: nat)
    requires Inv(t, origin) && Enabled(t, a) && PromptStep(t, a) && a != Send && a != Close
    requires OnTime(s, t, i) && ClearOnTime(s, t, i)
    ensures ClearOnTime(s, Apply(t, a), i)
  {
    CoveredStays(t, a, origin);
  }

  lemma {:induction false} LoopOnlyInFront(more: seq<Action>)
    requires LoopOnly(more) && more != []
    ensures LoopOnly(more[..|more| - 1]) && more[|more| - 1] != Send && more[|more| - 1] != Close
  {
    var front := more[..|more| - 1];
    assert more == front + [more[|more| - 1]];
    assert more[|more| - 1] in more;
    assert forall a :: a in front ==> a in more;
  }

  lemma {:induction false} StaysOnTime(s: State, origin: nat, more: seq<Action>, i: nat)
    requires Inv(s, origin) && s.open && i < s.sent
    requires Valid(s, more) && LoopOnly(more) && Prompt(s, more)
    ensures OnTime(s, Run(s, more), i)
    ensures Clear(s) ==> ClearOnTime(s, Run(s, more), i)
  {
    if more == [] {
      StartsOnTime(s, origin, i);
    } else {
      var front, a := more[..|more| - 1], more[|more| - 1];
      LoopOnlyInFront(more);
      StaysOnTime(s, origin, front, i);
      MoreKeepsInv(s, origin, front);
      StepOnTime(s, Run(s, front), a, origin, i);
      if Clear(s) {
        StepClear(s, Run(s, front), a, origin, i);
      }
    }
  }

  ghost predicate HasReload(s: State, i: nat) {
    i < |s.taken| && Served(s, i)
  }

  /** Signal `i`, sent before `s`, has its reload at `t`, or half a second has not passed, or not two since
      the last reload, or a reload is under way. From a clear state there is no such exception. */
  ghost predicate ServedInTime(s: State, t: State, i: nat) {
    && (HasReload(t, i) || t.phase.Reloading? || t.now <= Max(s.now + 500, t.last + 2_000))
    && (Clear(s) ==> HasReload(t, i) || t.now <= Max(s.now + 500, s.last + 2_000))
  }

  lemma {:induction false} OnTimeIsServed(s: State, t: State, origin: nat, i: nat)
    requires Inv(t, origin) && OnTime(s, t, i) && (Clear(s) ==> ClearOnTime(s, t, i))
    ensures ServedInTime(s, t, i)
  {
    if i < Covered(t) {
      ServedIsCovered(t, origin, i);
    }
  }

  lemma {:induction false} ServedFrom(s: State, origin: nat, more: seq<Action>, i: nat)
    requires Inv(s, origin) && s.open && i < s.sent
    requires Valid(s, more) && LoopOnly(more) && Prompt(s, more)
    ensures ServedInTime(s, Run(s, more), i)
  {
    StaysOnTime(s, origin, more, i);
    MoreKeepsInv(s, origin, more);
    OnTimeIsServed(s, Run(s, more), origin, i);
  }

  /** Every signal is served in time, in every run and in every prompt continuation of it without further
      signals: from a clear state by the first reload, and at most two seconds on. */
  lemma {:induction false} EverySignalIsServed(origin: nat, actions: seq<Action>, s: State, more: seq<Action>, i: nat)
    requires Valid(Start(origin), actions) && s == Run(Start(origin), actions) && s.open && i < s.sent
    requires Valid(s, more) && LoopOnly(more) && Prompt(s, more)
    ensures ServedInTime(s, Run(s, more), i)
    ensures Max(s.now + 500, s.last + 2_000) <= s.now + 2_000
  {
    RunKeepsInv(origin, actions);
    ServedFrom(s, origin, more, i);
  }

  // ------------------------------------------------------------------ With more signals

  /** In a prompt run timers are not overrun, and the signals of a burst lie half a second apart at most. */
  ghost predicate Punctual(s: State) {
    match s.phase
    case Settling(deadline) =>
      s.now <= deadline && forall k :: Covered(s) < k < |s.taken| ==> s.taken[k] <= s.taken[k - 1] + 500
    case Pausing(wake) => s.now <= wake
    case Draining => s.now <= s.last + 2_000
    case _ => true
  }

  lemma {:induction false} StepIsPunctual(s: State, a: Action, origin: nat)
    requires Inv(s, origin) && Enabled(s, a) && PromptStep(s, a) && Punctual(s)
    ensures Punctual(Apply(s, a))
  {
  }

  lemma {:induction false} RunIsPunctual(origin: nat, actions: seq<Action>)
    requires Valid(Start(origin), actions) && Prompt(Start(origin), actions)
    ensures Punctual(Run(Start(origin), actions))
  {
    if actions != [] {
      var front := actions[..|actions| - 1];
      RunIsPunctual(origin, front);
      RunKeepsInv(origin, front);
      StepIsPunctual(Run(Start(origin), front), actions[|actions| - 1], origin);
    }
  }

  /** Since signal `i` no half second has gone by without another one. */
  ghost predicate SteadySince(s: State, i: nat) {
    && i < |s.taken|
    && (forall k :: i < k < |s.taken| ==> s.taken[k] <= s.taken[k - 1] + 500)
    && s.now - s.taken[|s.taken| - 1] <= 500
  }

  lemma {:induction false} UnservedIsSteady(s: State, origin: nat, i: nat)
    requires Inv(s, origin) && Punctual(s) && !s.phase.Stopped? && i < |s.taken| && !Served(s, i)
    ensures s.now <= s.last + 2_000 || (s.phase.Settling? && SteadySince(s, i))
  {
    ServedIsCovered(s, origin, i);
  }

  /** A consumed signal waits longer than two seconds after the last reload only while signals keep
      coming: the first half second without one ends the wait. */
  lemma {:induction false} OnlySteadySignalsPostpone(origin: nat, actions: seq<Action>, s: State, i: nat)
    requires Valid(Start(origin), actions) && Prompt(Start(origin), actions) && s == Run(Start(origin), actions)
    requires !s.phase.Stopped? && i < |s.taken| && !Served(s, i)
    ensures s.now <= s.last + 2_000 || (s.phase.Settling? && SteadySince(s, i))
  {
    RunKeepsInv(origin, actions);
    RunIsPunctual(origin, actions);
    UnservedIsSteady(s, origin, i);
  }

  /** A signal, and further ones after these gaps, each consumed as it comes. */
  function Arrivals(gaps: seq<nat>): seq<Action> {
    if gaps == [] then [Send, Receive] else Arrivals(gaps[..|gaps| - 1]) + [Tick(gaps[|gaps| - 1]), Send, Receive]
  }

  function Sum(gaps: seq<nat>): nat {
    if gaps == [] then 0 else Sum(gaps[..|gaps| - 1]) + gaps[|gaps| - 1]
  }

  /** The instants of signals that far apart. */
  ghost predicate Apart(taken: seq<nat>, gaps: seq<nat>) {
    |taken| == |gaps| + 1 && forall k :: 0 <= k < |gaps| ==> taken[k + 1] == taken[k] + gaps[k]
  }

  lemma {:induction false} ApartPush(taken: seq<nat>, gaps: seq<nat>, now: nat)
    requires gaps != [] && Apart(taken, gaps[..|gaps| - 1]) && now - taken[|taken| - 1] == gaps[|gaps| - 1]
    ensures Apart(taken + [now], gaps)
  {
  }

  lemma {:induction false} ApartSpan(taken: seq<nat>, gaps: seq<nat>)
    requires Apart(taken, gaps)
    ensures taken[|gaps|] == taken[0] + Sum(gaps)
  {
    if gaps != [] {
      assert Apart(taken[..|gaps|], gaps[..|gaps| - 1]);
      ApartSpan(taken[..|gaps|], gaps[..|gaps| - 1]);
    }
  }

  lemma {:induction false} PushPrompt(s: State, front: seq<Action>, a: Action)
    requires Valid(s, front) && Prompt(s, front) && Enabled(Run(s, front), a) && PromptStep(Run(s, front), a)
    ensures Valid(s, front + [a]) && Prompt(s, front + [a]) && Run(s, front + [a]) == Apply(Run(s, front), a)
  {
    assert (front + [a])[..|front|] == front;
  }

  /** All signals came at these gaps and are consumed, the last just now, and none has a reload. */
  ghost predicate Postponed(s: State, origin: nat, gaps: seq<nat>) {
    && s.open && s.reloads == [] && s.sent == |s.taken| && Apart(s.taken, gaps)
    && s.phase == Settling(s.now + 500) && s.taken[|gaps|] == s.now == origin + Sum(gaps)
  }

  lemma {:induction false} ArrivalPostpones(s: State, origin: nat, gaps: seq<nat>)
    requires gaps != [] && Postponed(s, origin, gaps[..|gaps| - 1])
    ensures
      var gap := gaps[|gaps| - 1];
      Postponed(Apply(Apply(Apply(s, Tick(gap)), Send), Receive), origin, gaps)
  {
    ApartPush(s.taken, gaps, s.now + gaps[|gaps| - 1]);
  }

  lemma {:induction false} PushArrival(s: State, front: seq<Action>, gap: nat)
    requires Valid(s, front) && Prompt(s, front) && gap <= 500
    requires
      var t := Run(s, front);
      t.open && t.phase == Settling(t.now + 500) && |t.taken| == t.sent
    ensures
      var more := front + [Tick(gap), Send, Receive];
      Valid(s, more) && Prompt(s, more) && Run(s, more) == Apply(Apply(Apply(Run(s, front), Tick(gap)), Send), Receive)
  {
    PushPrompt(s, front, Tick(gap));
    PushPrompt(s, front + [Tick(gap)], Send);
    PushPrompt(s, front + [Tick(gap)] + [Send], Receive);
    ThreeSteps(front, Tick(gap), Send, Receive);
  }

  lemma {:induction false} ThreeSteps(front: seq<Action>, a: Action, b: Action, c: Action)
    ensures front + [a] + [b] + [c] == front + [a, b, c]
  {
  }

  lemma {:induction false} FirstArrival(origin: nat)
    ensures Valid(Start(origin), Arrivals([])) && Prompt(Start(origin), Arrivals([]))
    ensures Postponed(Run(Start(origin), Arrivals([])), origin, [])
  {
    var start := Start(origin);
    PushPrompt(start, [], Send);
    PushPrompt(start, [] + [Send], Receive);
    assert [] + [Send] + [Receive] == Arrivals([]);
  }

  /** And they do postpone it: with signals at any gaps of at most half a second there is a prompt run
      that consumes them all and reloads for none. At a gap of exactly half a second the timer and the
      signal are both ready, and the signal is taken. */
  lemma {:induction false} SteadySignalsPostpone(origin: nat, gaps: seq<nat>)
    requires forall k :: 0 <= k < |gaps| ==> gaps[k] <= 500
    ensures Valid(Start(origin), Arrivals(gaps)) && Prompt(Start(origin), Arrivals(gaps))
    ensures Postponed(Run(Start(origin), Arrivals(gaps)), origin, gaps)
  {
    if gaps == [] {
      FirstArrival(origin);
    } else {
      var front, gap := gaps[..|gaps| - 1], gaps[|gaps| - 1];
      SteadySignalsPostpone(origin, front);
      PushArrival(Start(origin), Arrivals(front), gap);
      ArrivalPostpones(Run(Start(origin), Arrivals(front)), origin, gaps);
    }
  }

  /** A prompt run that consumes signals at these gaps and has reloaded for none of them. */
  ghost predicate Postpones(origin: nat, actions: seq<Action>, gaps: seq<nat>) {
    && Valid(Start(origin), actions) && Prompt(Start(origin), actions)
    && var s := Run(Start(origin), actions);
       !s.phase.Stopped? && s.reloads == [] && Apart(s.taken, gaps)
  }

  /** Exactly which bursts of more than two seconds can go without a reload: those in which no two
      signals are further apart than half a second. */
  lemma {:induction false} PostponedIff(origin: nat, gaps: seq<nat>)
    requires Sum(gaps) > 2_000
    ensures (exists actions :: Postpones(origin, actions, gaps)) <==> forall k :: 0 <= k < |gaps| ==> gaps[k] <= 500
  {
    if forall k :: 0 <= k < |gaps| ==> gaps[k] <= 500 {
      SteadySignalsPostpone(origin, gaps);
      assert Postpones(origin, Arrivals(gaps), gaps);
    }
    forall actions | Postpones(origin, actions, gaps)
      ensures forall k :: 0 <= k < |gaps| ==> gaps[k] <= 500
    {
      PostponedIsSteady(origin, actions, gaps);
    }
  }

  lemma {:induction false} PostponedIsSteady(origin: nat, actions: seq<Action>, gaps: seq<nat>)
    requires Sum(gaps) > 2_000 && Postpones(origin, actions, gaps)
    ensures forall k :: 0 <= k < |gaps| ==> gaps[k] <= 500
  {
    var s := Run(Start(origin), actions);
    RunKeepsInv(origin, actions);
    RunStartsAtOrigin(origin, actions);
    ApartSpan(s.taken, gaps);
    OnlySteadySignalsPostpone(origin, actions, s, 0);
    SteadyGaps(s, gaps);
  }

  lemma {:induction false} SteadyGaps(s: State, gaps: seq<nat>)
    requires SteadySince(s, 0) && Apart(s.taken, gaps)
    ensures forall k :: 0 <= k < |gaps| ==> gaps[k] <= 500
  {
    forall k | 0 <= k < |gaps|
      ensures gaps[k] <= 500
    {
      assert s.taken[k + 1] == s.taken[k] + gaps[k];
    }
  }

  lemma {:induction false} RunStartsAtOrigin(origin: nat, actions: seq<Action>)
    requires Valid(Start(origin), actions)
    ensures forall k :: 0 <= k < |Run(Start(origin), actions).taken| ==> Run(Start(origin), actions).taken[k] >= origin
    ensures Run(Start(origin), actions).now >= origin
  {
    if actions != [] {
      RunStartsAtOrigin(origin, actions[..|actions| - 1]);
    }
  }

  // ---------------------------------------------------------------------- The select

  /** When the quiet timer has run out and a signal is queued, either may be taken. Taking the signal puts
      the reload off; letting the timer win, with no pause to come, starts a reload that misses it. */
  lemma {:induction false} EitherMayWin(s: State, i: nat)
    requires s.phase.Settling? && s.now >= s.phase.deadline && |s.taken| <= i < s.sent
    ensures Enabled(s, Receive) && Apply(s, Receive).phase == Settling(s.now + 500)
    ensures Enabled(s, QuietEnds)
    ensures s.now >= s.last + 2_000 ==>
      Apply(s, QuietEnds).phase.Reloading? && Covered(Apply(s, QuietEnds)) == |s.taken| <= i
  {
  }

  /** Both happen: a prompt run in which a queued signal misses the reload that starts. */
  lemma {:induction false} TimerMayWin(origin: nat)
    ensures
      var actions := [Tick(2_000), Send, Receive, Tick(500), Send, QuietEnds];
      && Valid(Start(origin), actions) && Prompt(Start(origin), actions)
      && var s := Run(Start(origin), actions);
         s.phase.Reloading? && s.sent == 2 && |s.taken| == Covered(s) == 1
  {
    var start := Start(origin);
    PushPrompt(start, [], Tick(2_000));
    var one := [] + [Tick(2_000)];
    PushPrompt(start, one, Send);
    PushPrompt(start, one + [Send], Receive);
    PushPrompt(start, one + [Send] + [Receive], Tick(500));
    PushPrompt(start, one + [Send] + [Receive] + [Tick(500)], Send);
    PushPrompt(start, one + [Send] + [Receive] + [Tick(500)] + [Send], QuietEnds);
    assert one + [Send] + [Receive] + [Tick(500)] + [Send] + [QuietEnds] == [Tick(2_000), Send, Receive, Tick(500), Send, QuietEnds];
  }

  // ------------------------------------------------------------------ It can be done

  /** Some prompt continuation of the loop alone has served signal `i` by `limit`. */
  ghost predicate Leads(s: State, i: nat, limit: nat) {
    exists more :: LoopOnly(more) && Valid(s, more) && Prompt(s, more) && ServesBy(Run(s, more), i, limit)
  }

  ghost predicate ServesBy(s: State, i: nat, limit: nat) {
    HasReload(s, i) && s.now <= limit
  }

  lemma {:induction false} Prepend(s: State, a: Action, more: seq<Action>)
    requires Enabled(s, a) && PromptStep(s, a) && Valid(Apply(s, a), more) && Prompt(Apply(s, a), more)
    ensures Valid(s, [a] + more) && Prompt(s, [a] + more) && Run(s, [a] + more) == Run(Apply(s, a), more)
  {
    if more == [] {
      assert [a] + more == [a];
      assert Run(s, [a][..0]) == s;
    } else {
      var n := |more| - 1;
      Prepend(s, a, more[..n]);
      assert ([a] + more)[..n + 1] == [a] + more[..n];
    }
  }

  lemma {:induction false} FirstStep(s: State, a: Action, i: nat, limit: nat)
    requires Enabled(s, a) && PromptStep(s, a) && a != Send && a != Close && Leads(Apply(s, a), i, limit)
    ensures Leads(s, i, limit)
  {
    var more :| LoopOnly(more) && Valid(Apply(s, a), more) && Prompt(Apply(s, a), more) && ServesBy(Run(Apply(s, a), more), i, limit);
    Prepend(s, a, more);
    assert LoopOnly([a] + more);
  }

  lemma {:induction false} AlreadyServed(s: State, origin: nat, i: nat, limit: nat)
    requires Inv(s, origin) && i < Covered(s) && s.now <= limit
    ensures Leads(s, i, limit)
  {
    ServedIsCovered(s, origin, i);
    assert LoopOnly([]) && Valid(s, []) && Prompt(s, []) && ServesBy(Run(s, []), i, limit);
  }

  /** The time that is enough from here, if a reload under way ends now. */
  function Enough(s: State): nat {
    match s.phase
    case Pausing(wake) => Max(wake, s.now)
    case Draining => s.now
    case Reloading => s.now + 2_000
    case _ => Max(s.now + 500, s.last + 2_000)
  }

  function Rank(phase: Phase): nat {
    match phase
    case Reloading => 4
    case Waiting => 3
    case Settling(_) => 2
    case Pausing(_) => 1
    case _ => 0
  }

  lemma {:induction false} LoopServes(s: State, origin: nat, i: nat, limit: nat)
    requires Inv(s, origin) && s.open && !s.phase.Stopped? && i < s.sent && Enough(s) <= limit
    ensures Leads(s, i, limit)
    decreases s.sent - |s.taken|, Rank(s.phase)
  {
    if i < Covered(s) {
      AlreadyServed(s, origin, i, limit);
    } else if s.phase.Draining? {
      DrainServes(s, origin, i, limit);
    } else if s.phase.Pausing? {
      PauseServes(s, origin, i, limit);
    } else if s.phase.Settling? && !Queued(s) {
      QuietServes(s, origin, i, limit);
    } else {
      var a := if s.phase.Reloading? then ReloadEnds else Receive;
      StepKeepsInv(s, a, origin);
      LoopServes(Apply(s, a), origin, i, limit);
      FirstStep(s, a, i, limit);
    }
  }

  lemma {:induction false} DrainServes(s: State, origin: nat, i: nat, limit: nat)
    requires Inv(s, origin) && s.phase.Draining? && i < s.sent && s.now <= limit
    ensures Leads(s, i, limit)
    decreases s.sent - |s.taken|, 0
  {
    var a := if Queued(s) then Drain else DrainEnds;
    StepKeepsInv(s, a, origin);
    if Queued(s) {
      DrainServes(Apply(s, a), origin, i, limit);
    } else {
      AlreadyServed(Apply(s, a), origin, i, limit);
    }
    FirstStep(s, a, i, limit);
  }

  lemma {:induction false} PauseServes(s: State, origin: nat, i: nat, limit: nat)
    requires Inv(s, origin) && s.phase.Pausing? && i < s.sent && Enough(s) <= limit
    ensures Leads(s, i, limit)
  {
    var t := Tick(if s.now < s.phase.wake then s.phase.wake - s.now else 0);
    var later := Apply(s, t);
    StepKeepsInv(s, t, origin);
    StepKeepsInv(later, PauseEnds, origin);
    DrainServes(Apply(later, PauseEnds), origin, i, limit);
    FirstStep(later, PauseEnds, i, limit);
    FirstStep(s, t, i, limit);
  }

  lemma {:induction false} QuietServes(s: State, origin: nat, i: nat, limit: nat)
    requires Inv(s, origin) && s.open && s.phase.Settling? && !Queued(s) && i < s.sent && Enough(s) <= limit
    ensures Leads(s, i, limit)
  {
    var t := Tick(if s.now < s.phase.deadline then s.phase.deadline - s.now else 0);
    var later := Apply(s, t);
    StepKeepsInv(s, t, origin);
    StepKeepsInv(later, QuietEnds, origin);
    var quiet := Apply(later, QuietEnds);
    if quiet.phase.Pausing? {
      PauseServes(quiet, origin, i, limit);
    } else {
      AlreadyServed(quiet, origin, i, limit);
    }
    FirstStep(later, QuietEnds, i, limit);
    FirstStep(s, t, i, limit);
  }

  /** The bound on prompt continuations does not hold for want of any: from every moment of every run with
      the channel open the loop alone can have served each signal by then, if a reload under way ends. */
  lemma {:induction false} EverySignalCanBeServed(origin: nat, actions: seq<Action>, s: State, i: nat)
    requires Valid(Start(origin), actions) && s == Run(Start(origin), actions) && s.open && i < s.sent
    ensures Leads(s, i, if s.phase.Reloading? then s.now + 2_000 else Max(s.now + 500, s.last + 2_000))
  {
    RunKeepsInv(origin, actions);
    EnoughIsSoon(s, origin);
    LoopServes(s, origin, i, if s.phase.Reloading? then s.now + 2_000 else Max(s.now + 500, s.last + 2_000));
  }

  lemma {:induction false} EnoughIsSoon(s: State, origin: nat)
    requires Inv(s, origin)
    ensures Enough(s) <= if s.phase.Reloading? then s.now + 2_000 else Max(s.now + 500, s.last + 2_000)
  {
  }
}
