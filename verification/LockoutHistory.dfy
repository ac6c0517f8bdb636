/** What the lockout does over whole runs, against the complete log of counted failures. */
module LockoutHistory {
  import opened LoginLockout
  import opened SlidingWindow
  import opened Wrappers

  /** A call on the store. `victim` is the eviction choice the hash map makes, if it has to make one. */
  datatype Event =
    | Failure(user: string, now: nat, victim: Option<string>)
    | Success(user: string, now: nat)

  /** The store, and beside it every failure counted for a user since that user was last
      reset by a correct password or evicted. The log is never pruned. */
  datatype History = History(records: Accounts, log: map<string, seq<nat>>, now: nat)

  const START := History(map[], map[], 0)

  /** Thirty minutes. */
  const HALF_HOUR: nat := 1_800_000_000_000

  ghost predicate Possible(h: History, e: Event) {
    && h.now <= e.now
    && (e.Failure? ==>
          if LockedOut(h.records, e.user, e.now) then e.victim.None? else MayEvict(h.records, e.user, e.now, e.victim))
  }

  function Next(h: History, e: Event): History {
    match e
    case Success(user, now) => History(h.records - {user}, h.log - {user}, now)
    case Failure(user, now, victim) =>
      if LockedOut(h.records, user, now) then
        h.(now := now)
      else
        var gone := if victim.Some? then {victim.value} else {};
        History(AfterFailure(h.records, user, now, victim), (h.log - gone)[user := At(h.log - gone, user) + [now]], now)
  }

  function Run(es: seq<Event>): History {
    if es == [] then START else Next(Run(es[..|es| - 1]), es[|es| - 1])
  }

  ghost predicate Valid(es: seq<Event>) {
    es == [] || (Valid(es[..|es| - 1]) && Possible(Run(es[..|es| - 1]), es[|es| - 1]))
  }

  // ------------------------------------------------------- The lock, from the log

  /** When the lock that the last counted failure started ends. */
  function LogDeadline(log: seq<nat>): Option<nat> {
    if log == [] then None
    else
      var last := log[|log| - 1];
      Deadline(Recent(log, last, FAILURE_WINDOW), last)
  }

  predicate LogLocked(log: seq<nat>, now: nat) {
    LogDeadline(log).Some? && now < LogDeadline(log).value
  }

  /** In order, and no failure was counted while the lock of the ones before it ran. */
  ghost predicate Spaced(log: seq<nat>) {
    forall k :: 0 < k < |log| ==> log[k - 1] <= log[k] && !LogLocked(log[..k], log[k])
  }

  ghost predicate RecordAgrees(rec: Record, log: seq<nat>, now: nat) {
    && Recent(rec.failures, now, FAILURE_WINDOW) == Recent(log, now, FAILURE_WINDOW)
    && rec.lockedUntil == LogDeadline(log)
  }

  ghost predicate Forgettable(log: seq<nat>, now: nat) {
    Recent(log, now, FAILURE_WINDOW) == [] && !LogLocked(log, now)
  }

  ghost predicate LogOk(log: seq<nat>, now: nat) {
    log != [] && Spaced(log) && log[|log| - 1] <= now
  }

  /** What the map knows of `user` is what the log says, as far as any later call can tell. */
  ghost predicate UserAgrees(h: History, user: string) {
    && (user in h.log ==> LogOk(h.log[user], h.now))
    && (user in h.records ==> user in h.log && RecordAgrees(h.records[user], h.log[user], h.now))
    && (user in h.log && user !in h.records ==> Forgettable(h.log[user], h.now))
  }

  ghost predicate Agrees(h: History) {
    && |h.records| <= MAX_TRACKED_ACCOUNTS
    && forall user :: UserAgrees(h, user)
  }

  lemma {:induction false} PushAgrees(rec: Record, log: seq<nat>, now: nat)
    requires Recent(rec.failures, now, FAILURE_WINDOW) == Recent(log, now, FAILURE_WINDOW)
    ensures RecordAgrees(CountFailure(rec, now), log + [now], now)
  {
    RecentPush(log, now, now, FAILURE_WINDOW);
    RecentPush(Recent(rec.failures, now, FAILURE_WINDOW), now, now, FAILURE_WINDOW);
    RecentOfRecent(rec.failures, now, now, FAILURE_WINDOW);
  }

  lemma {:induction false} PushSpaced(log: seq<nat>, now: nat)
    requires log != [] ==> LogOk(log, now) && !LogLocked(log, now)
    ensures LogOk(log + [now], now)
  {
    var longer := log + [now];
    forall k | 0 < k < |longer|
      ensures longer[k - 1] <= longer[k] && !LogLocked(longer[..k], longer[k])
    {
      if k == |log| {
        assert longer[..k] == log;
      } else {
        assert longer[..k] == log[..k];
      }
    }
  }

  lemma {:induction false} IdleIsForgettable(rec: Record, log: seq<nat>, earlier: nat, now: nat)
    requires earlier <= now
    requires RecordAgrees(rec, log, earlier)
    requires IsIdle(rec, now)
    ensures Forgettable(log, now)
  {
    RecentNone(rec.failures, now, FAILURE_WINDOW);
    RecentAgreesLater(rec.failures, log, earlier, now, FAILURE_WINDOW);
  }

  /** Time passes for a user whose record stays as it is. */
  lemma {:induction false} UserAgreesLater(h: History, user: string, now: nat)
    requires UserAgrees(h, user) && h.now <= now
    ensures user in h.records ==> RecordAgrees(h.records[user], h.log[user], now)
    ensures user in h.log && user !in h.records ==> Forgettable(h.log[user], now)
    ensures user in h.log ==> LogOk(h.log[user], now)
  {
    if user in h.records {
      RecentAgreesLater(h.records[user].failures, h.log[user], h.now, now, FAILURE_WINDOW);
    } else if user in h.log {
      RecentOfRecent(h.log[user], h.now, now, FAILURE_WINDOW);
    }
  }

  /** A victim is chosen only for want of room, and is another account. */
  predicate EvictsElsewhere(h: History, e: Event) {
    e.Failure? && e.victim.Some? ==> NeedsRoom(h.records, e.user) && e.victim != Some(e.user)
  }

  lemma {:induction false} PossibleEvictsElsewhere(h: History, e: Event)
    requires Possible(h, e) && e.Failure? && !LockedOut(h.records, e.user, e.now)
    ensures EvictsElsewhere(h, e)
  {
  }

  /** One counted failure, one user whose record the step did not write. */
  lemma {:induction false} OtherUserAgrees(h: History, e: Event, user: string)
    requires UserAgrees(h, user) && h.now <= e.now && e.Failure? && !LockedOut(h.records, e.user, e.now)
    requires user != e.user && EvictsElsewhere(h, e)
    ensures UserAgrees(Next(h, e), user)
  {
    var h' := Next(h, e);
    if user in h'.log {
      UserAgreesLater(h, user, e.now);
      if user in h.records && user !in h'.records {
        IdleIsForgettable(h.records[user], h.log[user], h.now, e.now);
      }
    }
  }

  lemma {:induction false} RoomIsBounded(records: Accounts, user: string, now: nat, victim: Option<string>)
    requires |records| <= MAX_TRACKED_ACCOUNTS
    requires MayEvict(records, user, now, victim)
    ensures user !in Room(records, user, now, victim) ==> |Room(records, user, now, victim)| < MAX_TRACKED_ACCOUNTS
  {
    if NeedsRoom(records, user) {
      var kept := WithoutIdle(records, now);
      KeptIsSmaller(records, now);
      if victim.Some? {
        assert kept.Keys == (kept - {victim.value}).Keys + {victim.value};
        assert |kept.Keys| == |(kept - {victim.value}).Keys| + 1;
      } else {
        assert kept - {} == kept;
      }
    }
  }

  lemma {:induction false} KeptIsSmaller(records: Accounts, now: nat)
    ensures WithoutIdle(records, now).Keys <= records.Keys
    ensures |WithoutIdle(records, now)| <= |records|
  {
    SubsetSize(WithoutIdle(records, now).Keys, records.Keys);
  }

  lemma {:induction false} SubsetSize<T>(a: set<T>, b: set<T>)
    requires a <= b
    ensures |a| <= |b|
    ensures |a| == |b| ==> a == b
  {
    if a != {} {
      var x :| x in a;
      SubsetSize(a - {x}, b - {x});
      assert a == (a - {x}) + {x} && b == (b - {x}) + {x};
    }
  }

  lemma {:induction false} FailureIsBounded(h: History, e: Event)
    requires |h.records| <= MAX_TRACKED_ACCOUNTS && Possible(h, e) && e.Failure? && !LockedOut(h.records, e.user, e.now)
    ensures |Next(h, e).records| <= MAX_TRACKED_ACCOUNTS
  {
    var room := Room(h.records, e.user, e.now, e.victim);
    RoomIsBounded(h.records, e.user, e.now, e.victim);
    assert Next(h, e).records.Keys == room.Keys + {e.user};
    OneMoreKey(room.Keys, e.user, Next(h, e).records.Keys);
  }

  lemma {:induction false} OneMoreKey<T>(keys: set<T>, key: T, more: set<T>)
    requires more == keys + {key}
    ensures |more| == if key in keys then |keys| else |keys| + 1
  {
    if key in keys {
      assert more == keys;
    }
  }

  lemma {:induction false} FailureAgrees(h: History, e: Event)
    requires Agrees(h) && Possible(h, e) && e.Failure? && !LockedOut(h.records, e.user, e.now)
    ensures Agrees(Next(h, e))
  {
    FailureIsBounded(h, e);
    PossibleEvictsElsewhere(h, e);
    forall user
      ensures UserAgrees(Next(h, e), user)
    {
      assert UserAgrees(h, user);
      if user == e.user {
        CountedUserAgrees(h, e);
      } else {
        OtherUserAgrees(h, e, user);
      }
    }
  }

  /** One counted failure, the user it was counted for. */
  lemma {:induction false} CountedUserAgrees(h: History, e: Event)
    requires UserAgrees(h, e.user) && h.now <= e.now && e.Failure? && !LockedOut(h.records, e.user, e.now)
    requires EvictsElsewhere(h, e)
    ensures UserAgrees(Next(h, e), e.user)
    ensures At(Next(h, e).log, e.user) == At(h.log, e.user) + [e.now]
    ensures RecordAgrees(Next(h, e).records[e.user], At(h.log, e.user) + [e.now], e.now)
  {
    var log := At(h.log, e.user);
    UserAgreesLater(h, e.user, e.now);
    RoomKeepsRecord(h, e);
    assert log != [] ==> !LogLocked(log, e.now);
    PushAgrees(RecordOf(h.records, e.user), log, e.now);
    PushSpaced(log, e.now);
  }

  lemma {:induction false} RoomKeepsRecord(h: History, e: Event)
    requires e.Failure? && !LockedOut(h.records, e.user, e.now)
    requires EvictsElsewhere(h, e)
    ensures e.user in Next(h, e).records
    ensures Next(h, e).records[e.user] == CountFailure(RecordOf(h.records, e.user), e.now)
    ensures e.user in Next(h, e).log && Next(h, e).log[e.user] == At(h.log, e.user) + [e.now]
  {
  }

  /** Nothing is counted: the clock moves, and perhaps one user is reset. */
  lemma {:induction false} QuietAgrees(h: History, gone: set<string>, now: nat)
    requires Agrees(h) && h.now <= now
    ensures Agrees(History(h.records - gone, h.log - gone, now))
  {
    SubsetSize((h.records - gone).Keys, h.records.Keys);
    forall user
      ensures UserAgrees(History(h.records - gone, h.log - gone, now), user)
    {
      assert UserAgrees(h, user);
      UserAgreesLater(h, user, now);
    }
  }

  lemma {:induction false} StepAgrees(h: History, e: Event)
    requires Agrees(h) && Possible(h, e)
    ensures Agrees(Next(h, e))
  {
    match e
    case Success(user, now) => QuietAgrees(h, {user}, now);
    case Failure(user, now, _) =>
      if LockedOut(h.records, user, now) {
        QuietAgrees(h, {}, now);
        assert h.records - {} == h.records && h.log - {} == h.log;
      } else {
        FailureAgrees(h, e);
      }
  }

  lemma {:induction false} RunAgrees(es: seq<Event>)
    requires Valid(es)
    ensures Agrees(Run(es))
  {
    if es != [] {
      RunAgrees(es[..|es| - 1]);
      StepAgrees(Run(es[..|es| - 1]), es[|es| - 1]);
    }
  }

  /** What a run guarantees for one user. */
  lemma {:induction false} RunAgreesFor(es: seq<Event>, user: string)
    requires Valid(es)
    ensures UserAgrees(Run(es), user) && |Run(es).records| <= 8_192
  {
    RunAgrees(es);
  }

  // ------------------------------------------------------------- Main theorems

  /** In every run the bounded, pruned, evicting map answers exactly as the complete log does, and
      never holds more than its cap. */
  lemma {:induction false} LockMatchesLog(es: seq<Event>, user: string, now: nat)
    requires Valid(es) && Run(es).now <= now
    ensures |Run(es).records| <= 8_192
    ensures LockedOut(Run(es).records, user, now) <==> LogLocked(At(Run(es).log, user), now)
    ensures LockedOut(Run(es).records, user, now) ==>
      Run(es).records[user].lockedUntil == LogDeadline(At(Run(es).log, user))
  {
    RunAgreesFor(es, user);
  }

  /** The lock that goes with a count of failures. */
  function LockFor(counted: nat, now: nat): Option<nat> {
    if counted >= 12 then Some(now + 900 * SECOND)
    else if counted >= 8 then Some(now + 120 * SECOND)
    else if counted >= 5 then Some(now + 30 * SECOND)
    else None
  }

  /** The lock that a counted failure starts is the tier of the log's failures in the last half hour. */
  lemma {:induction false} LockIsTierOfLog(es: seq<Event>, e: Event)
    requires Valid(es) && Possible(Run(es), e) && e.Failure?
    requires !LockedOut(Run(es).records, e.user, e.now)
    ensures
      var h := Next(Run(es), e);
      e.user in h.records && h.records[e.user].lockedUntil ==
        LockFor(|Recent(At(Run(es).log, e.user) + [e.now], e.now, HALF_HOUR)|, e.now)
  {
    RunAgreesFor(es, e.user);
    PossibleEvictsElsewhere(Run(es), e);
    LockStarted(Run(es), e);
  }

  lemma {:induction false} LockStarted(h: History, e: Event)
    requires UserAgrees(h, e.user) && h.now <= e.now && e.Failure? && !LockedOut(h.records, e.user, e.now)
    requires EvictsElsewhere(h, e)
    ensures e.user in Next(h, e).records
    ensures Next(h, e).records[e.user].lockedUntil ==
      LockFor(|Recent(At(h.log, e.user) + [e.now], e.now, FAILURE_WINDOW)|, e.now)
  {
    RoomKeepsRecord(h, e);
    CountedUserAgrees(h, e);
    AgreedLock(Next(h, e).records[e.user], At(h.log, e.user), e.now);
  }

  lemma {:induction false} AgreedLock(rec: Record, log: seq<nat>, now: nat)
    requires RecordAgrees(rec, log + [now], now)
    ensures rec.lockedUntil == LockFor(|Recent(log + [now], now, FAILURE_WINDOW)|, now)
  {
    assert (log + [now])[|log|] == now;
    TierTable(|Recent(log + [now], now, FAILURE_WINDOW)|);
  }

  /** A failure recorded for another user ends an active lock only by eviction from a map that is
      full of locked accounts. */
  lemma {:induction false} ActiveLockSurvives(es: seq<Event>, e: Event, user: string)
    requires Valid(es) && Possible(Run(es), e) && e.Failure? && e.user != user
    requires LockedOut(Run(es).records, user, e.now)
    ensures
      var before, after := Run(es).records, Next(Run(es), e).records;
      || (user in after && after[user] == before[user])
      || (&& |before| == 8_192
          && e.victim == Some(user)
          && forall other :: other in before ==> LockedOut(before, other, e.now))
  {
    RunAgrees(es);
    var before, after := Run(es).records, Next(Run(es), e).records;
    if user !in after {
      var kept := WithoutIdle(before, e.now);
      KeptIsSmaller(before, e.now);
      SubsetSize(kept.Keys, before.Keys);
      assert EvictionRank(kept[user], e.now).locked;
      forall other | other in before
        ensures LockedOut(before, other, e.now)
      {
        assert other in kept && !RankLess(EvictionRank(kept[other], e.now), EvictionRank(kept[user], e.now));
      }
    }
  }

  /** Hammering a locked account changes nothing, so the deadline stays and the window does not move. */
  lemma {:induction false} AttemptDuringLockIsIgnored(es: seq<Event>, e: Event)
    requires Valid(es) && Possible(Run(es), e) && e.Failure?
    requires LogLocked(At(Run(es).log, e.user), e.now)
    ensures Next(Run(es), e) == Run(es).(now := e.now)
  {
    LockMatchesLog(es, e.user, e.now);
  }

  // ---------------------------------------------------------------- Throughput

  /** Fourteen consecutive counted failures never fit in less than half an hour. */
  lemma {:induction false} FourteenTakeHalfAnHour(log: seq<nat>, i: nat)
    requires Spaced(log)
    requires i + 13 < |log|
    ensures log[i + 13] - log[i] >= HALF_HOUR
  {
    SpacedIsOrdered(log);
    if log[i + 13] - log[i] < FAILURE_WINDOW {
      LateGap(log, i, i + 12);
      LateGap(log, i, i + 13);
    }
  }

  /** After twelve failures inside the window the next one waits for the longest lock. */
  lemma {:induction false} LateGap(log: seq<nat>, i: nat, k: nat)
    requires Spaced(log)
    requires i + 12 <= k < |log|
    requires log[k] - log[i] < FAILURE_WINDOW
    ensures log[k] >= log[k - 1] + MAX_LOCK
  {
    SpacedIsOrdered(log);
    var before := log[..k];
    var last := log[k - 1];
    assert before[|before| - 1] == last;
    assert !LogLocked(before, log[k]);
    RecentHasTail(before, i, last, FAILURE_WINDOW);
    TierTable(|Recent(before, last, FAILURE_WINDOW)|);
  }

  lemma {:induction false} SpacedIsOrdered(log: seq<nat>)
    requires Spaced(log)
    ensures forall i, j :: 0 <= i <= j < |log| ==> log[i] <= log[j]
  {
    forall i, j | 0 <= i <= j < |log|
      ensures log[i] <= log[j]
    {
      SpacedPair(log, i, j);
    }
  }

  lemma {:induction false} SpacedPair(log: seq<nat>, i: nat, j: nat)
    requires Spaced(log) && i <= j < |log|
    ensures log[i] <= log[j]
  {
    if i < j {
      SpacedPair(log, i, j - 1);
    }
  }

  /** The failures of `user` that were counted, over the whole run, resets and evictions included. */
  function Counted(es: seq<Event>, user: string): seq<nat> {
    if es == [] then [] else
      var e := es[|es| - 1];
      var before := es[..|es| - 1];
      Counted(before, user) +
      (if e.Failure? && e.user == user && !LockedOut(Run(before).records, user, e.now) then [e.now] else [])
  }

  /** No correct password for `user`, and `user` is never the one evicted. */
  ghost predicate NeverForgotten(es: seq<Event>, user: string) {
    forall e :: e in es ==>
      if e.Success? then e.user != user else e.victim != Some(user)
  }

  lemma {:induction false} LogIsComplete(es: seq<Event>, user: string)
    requires NeverForgotten(es, user)
    ensures At(Run(es).log, user) == Counted(es, user)
  {
    if es != [] {
      var last := |es| - 1;
      assert es[last] in es;
      LogIsComplete(es[..last], user);
    }
  }

  lemma {:induction false} CountedIsSpaced(es: seq<Event>, user: string)
    requires Valid(es) && NeverForgotten(es, user)
    ensures Spaced(Counted(es, user))
  {
    LogIsComplete(es, user);
    RunAgreesFor(es, user);
  }

  /** The throughput bound: at most 13 password checks are counted in any span shorter than 30
      minutes, whatever else the run does. */
  lemma {:induction false} AtMostThirteenPerHalfHour(es: seq<Event>, user: string, i: nat, j: nat)
    requires Valid(es) && NeverForgotten(es, user)
    requires i <= j < |Counted(es, user)|
    requires Counted(es, user)[j] - Counted(es, user)[i] < HALF_HOUR
    ensures j - i + 1 <= 13
  {
    CountedIsSpaced(es, user);
    var log := Counted(es, user);
    if j >= i + 13 {
      FourteenTakeHalfAnHour(log, i);
      SpacedIsOrdered(log);
    }
  }

  lemma {:induction false} LogRate(log: seq<nat>, i: nat, j: nat, n: nat)
    requires Spaced(log)
    requires i <= j < |log| && log[j] - log[i] < n * FAILURE_WINDOW
    ensures j - i + 1 <= 13 * n
    decreases n
  {
    SpacedIsOrdered(log);
    assert log[i] <= log[j];
    if j >= i + 13 {
      FourteenTakeHalfAnHour(log, i);
      assert log[i + 13] <= log[j];
      assert (n - 1) * FAILURE_WINDOW == n * FAILURE_WINDOW - FAILURE_WINDOW;
      LogRate(log, i + 13, j, n - 1);
    }
  }

  /** The long-run rate: a span of `n` half hours holds at most `13 n` counted checks. */
  lemma {:induction false} LongRunRate(es: seq<Event>, user: string, i: nat, j: nat, n: nat)
    requires Valid(es) && NeverForgotten(es, user)
    requires i <= j < |Counted(es, user)|
    requires Counted(es, user)[j] - Counted(es, user)[i] < n * HALF_HOUR
    ensures j - i + 1 <= 13 * n
  {
    CountedIsSpaced(es, user);
    LogRate(Counted(es, user), i, j, n);
  }

  // ----------------------------------------------------------------- Tightness

  function Attempts(user: string, times: seq<nat>): seq<Event> {
    seq(|times|, i requires 0 <= i < |times| => Failure(user, times[i], None))
  }

  lemma {:induction false} SpacedPrefix(times: seq<nat>, n: nat)
    requires Spaced(times) && n <= |times|
    ensures Spaced(times[..n])
  {
    forall k | 0 < k < n
      ensures times[..n][k - 1] <= times[..n][k] && !LogLocked(times[..n][..k], times[..n][k])
    {
      assert times[..n][..k] == times[..k];
    }
  }

  /** A lone guesser at the next spaced moment: nobody is evicted and the guess is counted. */
  lemma {:induction false} NextGuessCounts(h: History, user: string, now: nat)
    requires UserAgrees(h, user) && h.now <= now && h.records.Keys <= {user}
    requires !LogLocked(At(h.log, user), now)
    ensures Possible(h, Failure(user, now, None))
    ensures !LockedOut(h.records, user, now)
    ensures Next(h, Failure(user, now, None)).records.Keys <= {user}
    ensures Next(h, Failure(user, now, None)).now == now
  {
    SubsetSize(h.records.Keys, {user});
    assert !NeedsRoom(h.records, user);
  }

  lemma {:induction false} PushEvent(es: seq<Event>, e: Event)
    ensures Run(es + [e]) == Next(Run(es), e)
    ensures Valid(es) && Possible(Run(es), e) ==> Valid(es + [e])
    ensures Counted(es + [e], e.user) == Counted(es, e.user) +
      (if e.Failure? && !LockedOut(Run(es).records, e.user, e.now) then [e.now] else [])
  {
    assert (es + [e])[..|es|] == es;
  }

  lemma {:induction false} GuessStep(before: seq<Event>, user: string, counted: seq<nat>, now: nat)
    requires Valid(before) && NeverForgotten(before, user) && Run(before).now <= now
    requires Counted(before, user) == counted && Run(before).records.Keys <= {user}
    requires !LogLocked(counted, now)
    ensures
      var after := before + [Failure(user, now, None)];
      Valid(after) && Counted(after, user) == counted + [now] && Run(after).now == now && Run(after).records.Keys <= {user}
  {
    LogIsComplete(before, user);
    RunAgreesFor(before, user);
    NextGuessCounts(Run(before), user, now);
    PushEvent(before, Failure(user, now, None));
  }

  lemma {:induction false} AttemptsPush(user: string, times: seq<nat>)
    requires times != []
    ensures Attempts(user, times) == Attempts(user, times[..|times| - 1]) + [Failure(user, times[|times| - 1], None)]
    ensures NeverForgotten(Attempts(user, times), user)
    ensures times == times[..|times| - 1] + [times[|times| - 1]]
  {
  }

  /** Every spaced log happens: guessing at exactly those times has every guess counted. */
  lemma {:induction false} SpacedLogsHappen(user: string, times: seq<nat>)
    requires Spaced(times)
    ensures Valid(Attempts(user, times)) && NeverForgotten(Attempts(user, times), user)
    ensures Counted(Attempts(user, times), user) == times
    ensures Run(Attempts(user, times)).now == if times == [] then 0 else times[|times| - 1]
    ensures Run(Attempts(user, times)).records.Keys <= {user}
  {
    if times != [] {
      var last := |times| - 1;
      SpacedPrefix(times, last);
      SpacedLogsHappen(user, times[..last]);
      NotLockedNext(times, last);
      AttemptsPush(user, times);
      GuessStep(Attempts(user, times[..last]), user, times[..last], times[last]);
    }
  }

  lemma {:induction false} NotLockedNext(times: seq<nat>, k: nat)
    requires Spaced(times) && k < |times|
    ensures !LogLocked(times[..k], times[k])
    ensures k > 0 ==> times[k - 1] <= times[k]
  {
  }

  /** Thirteen is reached: the earliest moments at which each guess is counted again. */
  const FASTEST: seq<nat> := [
    0, 0, 0, 0, 0,
    30 * SECOND, 60 * SECOND, 90 * SECOND,
    210 * SECOND, 330 * SECOND, 450 * SECOND, 570 * SECOND,
    1470 * SECOND
  ]

  lemma {:induction false} FastestStep(k: nat)
    requires 0 < k < |FASTEST|
    ensures FASTEST[k - 1] <= FASTEST[k] && !LogLocked(FASTEST[..k], FASTEST[k])
  {
    TierTable(k);
    UnlockedAfter(FASTEST[..k], FASTEST[k - 1], FASTEST[k]);
  }

  lemma {:induction false} UnlockedAfter(before: seq<nat>, last: nat, next: nat)
    requires before != [] && before[|before| - 1] == last
    requires forall t :: t in before ==> Since(last, t) < FAILURE_WINDOW
    requires HighestTier(|before|).Some? ==> last + HighestTier(|before|).value <= next
    ensures !LogLocked(before, next)
  {
    RecentAll(before, last, FAILURE_WINDOW);
  }

  lemma {:induction false} FastestIsSpaced()
    ensures Spaced(FASTEST)
  {
    forall k | 0 < k < |FASTEST|
      ensures FASTEST[k - 1] <= FASTEST[k] && !LogLocked(FASTEST[..k], FASTEST[k])
    {
      FastestStep(k);
    }
  }

  lemma {:induction false} ThirteenHappen(user: string)
    ensures Valid(Attempts(user, FASTEST))
    ensures NeverForgotten(Attempts(user, FASTEST), user)
    ensures Counted(Attempts(user, FASTEST), user) == FASTEST
    ensures |FASTEST| == 13 && FASTEST[12] - FASTEST[0] < HALF_HOUR
  {
    FastestIsSpaced();
    SpacedLogsHappen(user, FASTEST);
  }

  // ---------------------------------------------------------------------- Reset

  /** What a query answers. */
  function Answer(records: Accounts, user: string, now: nat): Option<nat> {
    if user in records then Remaining(records[user], now) else None
  }

  /** In every run a query names the whole seconds, rounded up, until the log's lock ends. */
  lemma {:induction false} AnswerMatchesLog(es: seq<Event>, user: string, now: nat)
    requires Valid(es) && Run(es).now <= now
    ensures
      var answer, log := Answer(Run(es).records, user, now), At(Run(es).log, user);
      && (answer.Some? <==> LogLocked(log, now))
      && (answer.Some? ==> LogDeadline(log).value <= now + answer.value * SECOND < LogDeadline(log).value + SECOND)
  {
    LockMatchesLog(es, user, now);
  }

  /** The failures recorded for `user`, counted or not. */
  function FailuresOf(es: seq<Event>, user: string): nat {
    if es == [] then 0
    else FailuresOf(es[..|es| - 1], user) + (if es[|es| - 1].Failure? && es[|es| - 1].user == user then 1 else 0)
  }

  lemma {:induction false} LogGrowsByOne(h: History, e: Event, user: string)
    ensures |At(Next(h, e).log, user)| <= |At(h.log, user)| + (if e.Failure? && e.user == user then 1 else 0)
  {
  }

  lemma {:induction false} LogAfterSuccess(es: seq<Event>, success: Event)
    requires success.Success?
    ensures At(Run(es + [success]).log, success.user) == []
  {
    PushEvent(es, success);
  }

  lemma {:induction false} SplitLast(es: seq<Event>, more: seq<Event>)
    requires more != []
    ensures es + more == (es + more[..|more| - 1]) + [more[|more| - 1]]
  {
  }

  lemma {:induction false} LogSince(front: seq<Event>, user: string, more: seq<Event>)
    requires At(Run(front).log, user) == []
    ensures |At(Run(front + more).log, user)| <= FailuresOf(more, user)
  {
    if more == [] {
      assert front + more == front;
    } else {
      var n := |more| - 1;
      LogSince(front, user, more[..n]);
      SplitLast(front, more);
      PushEvent(front + more[..n], more[n]);
      LogGrowsByOne(Run(front + more[..n]), more[n], user);
    }
  }

  /** A correct password ends the backoff: however many failures came before, the user is not locked out
      again before five more. */
  lemma {:induction false} SuccessEndsTheBackoff(es: seq<Event>, success: Event, more: seq<Event>, now: nat)
    requires success.Success? && Valid(es + [success] + more) && Run(es + [success] + more).now <= now
    requires FailuresOf(more, success.user) < FIRST_LOCK_AFTER
    ensures !LockedOut(Run(es + [success] + more).records, success.user, now)
  {
    var all := es + [success] + more;
    LogAfterSuccess(es, success);
    LogSince(es + [success], success.user, more);
    LockMatchesLog(all, success.user, now);
    ShortLogIsUnlocked(At(Run(all).log, success.user), now);
  }

  lemma {:induction false} ShortLogIsUnlocked(log: seq<nat>, now: nat)
    requires |log| < FIRST_LOCK_AFTER
    ensures !LogLocked(log, now)
  {
    if log != [] {
      RecentIsShorter(log, log[|log| - 1], FAILURE_WINDOW);
      TierTable(|Recent(log, log[|log| - 1], FAILURE_WINDOW)|);
    }
  }

  lemma {:induction false} RecentIsShorter(stamps: seq<nat>, now: nat, window: nat)
    ensures |Recent(stamps, now, window)| <= |stamps|
  {
    if stamps != [] {
      RecentIsShorter(stamps[..|stamps| - 1], now, window);
    }
  }

  // ------------------------------------------------------------------- Few users

  function UsersOf(es: seq<Event>): set<string> {
    if es == [] then {} else UsersOf(es[..|es| - 1]) + {es[|es| - 1].user}
  }

  lemma {:induction false} OnlyUsersAreHeld(es: seq<Event>)
    requires Valid(es)
    ensures Run(es).records.Keys <= UsersOf(es)
  {
    if es != [] {
      OnlyUsersAreHeld(es[..|es| - 1]);
    }
  }

  /** Nobody was ever evicted. */
  ghost predicate NobodyEvicted(es: seq<Event>) {
    forall e :: e in es ==> e.Success? || e.victim.None?
  }

  lemma {:induction false} NobodyEvictedPush(es: seq<Event>)
    requires es != [] && NobodyEvicted(es[..|es| - 1]) && (es[|es| - 1].Success? || es[|es| - 1].victim.None?)
    ensures NobodyEvicted(es)
  {
    assert es == es[..|es| - 1] + [es[|es| - 1]];
  }

  /** No account is evicted in a run with at most 8192 users. */
  lemma {:induction false} FewUsersStay(es: seq<Event>)
    requires Valid(es) && |UsersOf(es)| <= 8_192
    ensures NobodyEvicted(es)
  {
    if es != [] {
      var before := es[..|es| - 1];
      SubsetSize(UsersOf(before), UsersOf(es));
      FewUsersStay(before);
      NoVictim(before, es[|es| - 1], UsersOf(es));
      NobodyEvictedPush(es);
    }
  }

  /** So with that few it takes only that no correct password comes for a user to be never forgotten. */
  lemma {:induction false} FewUsersNeverForgotten(es: seq<Event>, user: string)
    requires Valid(es) && |UsersOf(es)| <= 8_192
    requires forall e :: e in es && e.Success? ==> e.user != user
    ensures NeverForgotten(es, user)
  {
    FewUsersStay(es);
  }

  lemma {:induction false} NoVictim(before: seq<Event>, e: Event, users: set<string>)
    requires Valid(before) && Possible(Run(before), e)
    requires UsersOf(before) <= users && e.user in users && |users| <= MAX_TRACKED_ACCOUNTS
    ensures e.Success? || e.victim.None?
  {
    OnlyUsersAreHeld(before);
    var held := Run(before).records.Keys;
    SubsetSize(held + {e.user}, users);
  }

  // ---------------------------------------------------------------------- Eviction

  /** The logged failures of the last half hour. */
  function Lately(h: History, user: string, now: nat): seq<nat> {
    Recent(At(h.log, user), now, HALF_HOUR)
  }

  lemma {:induction false} OldestIsFirst(stamps: seq<nat>, default: nat, now: nat)
    requires stamps != [] && Ordered(stamps, now)
    ensures Oldest(stamps, default) == stamps[0]
  {
    if |stamps| > 1 {
      OrderedTail(stamps, now);
      OldestIsFirst(stamps[1..], default, now);
      OrderedStretch(stamps, now, 0, 1);
    }
  }

  lemma {:induction false} SpacedLogIsOrdered(log: seq<nat>, now: nat)
    requires LogOk(log, now)
    ensures Ordered(log, now)
  {
    if |log| > 1 {
      var n := |log| - 1;
      SpacedPrefix(log, n);
      SpacedLogIsOrdered(log[..n], log[n]);
    }
  }

  lemma {:induction false} RecentStaysOrdered(stamps: seq<nat>, now: nat, t: nat, window: nat)
    requires Ordered(stamps, now)
    ensures Ordered(Recent(stamps, t, window), now)
  {
    if stamps != [] {
      var n := |stamps| - 1;
      RecentStaysOrdered(stamps[..n], stamps[n], t, window);
      var front := Recent(stamps[..n], t, window);
      OrderedLater(front, stamps[n], now);
      OrderedPush(front, stamps[n]);
      OrderedLater(front + [stamps[n]], stamps[n], now);
      assert front + [] == front;
    }
  }

  /** What the eviction looks at in a record is what the log says. */
  lemma {:induction false} RankIsLogged(h: History, user: string, now: nat)
    requires UserAgrees(h, user) && h.now <= now && user in h.records
    ensures
      var rank, lately := EvictionRank(h.records[user], now), Lately(h, user, now);
      && rank.count == |lately| && (lately != [] ==> rank.oldest == lately[0])
      && (rank.locked <==> LogLocked(At(h.log, user), now))
  {
    UserAgreesLater(h, user, now);
    var log := h.log[user];
    SpacedLogIsOrdered(log, now);
    RecentStaysOrdered(log, now, now, FAILURE_WINDOW);
    if Lately(h, user, now) != [] {
      OldestIsFirst(Lately(h, user, now), now, now);
    }
  }

  /** An account is worth keeping while it is locked or has failures of the last half hour. */
  predicate IsLive(h: History, user: string, now: nat) {
    user in h.records && (LogLocked(At(h.log, user), now) || Lately(h, user, now) != [])
  }

  lemma {:induction false} LiveSurvivesIdleDrop(h: History, user: string, now: nat)
    requires UserAgrees(h, user) && h.now <= now && user in h.records
    ensures user in WithoutIdle(h.records, now) <==> IsLive(h, user, now)
  {
    UserAgreesLater(h, user, now);
    var failures := h.records[user].failures;
    if IsIdle(h.records[user], now) {
      RecentNone(failures, now, FAILURE_WINDOW);
    } else if Lately(h, user, now) == [] {
      RecentEmpty(failures, now);
    }
  }

  lemma {:induction false} RecentEmpty(stamps: seq<nat>, now: nat)
    requires Recent(stamps, now, FAILURE_WINDOW) == []
    ensures forall i :: 0 <= i < |stamps| ==> Since(now, stamps[i]) >= FAILURE_WINDOW
  {
    if stamps != [] {
      var n := |stamps| - 1;
      RecentEmpty(stamps[..n], now);
      forall i | 0 <= i < |stamps|
        ensures Since(now, stamps[i]) >= FAILURE_WINDOW
      {
        assert i < n ==> stamps[..n][i] == stamps[i];
      }
    }
  }

  /** Who goes, by the complete log: an account that is not locked before any that is; then the one with the
      fewest failures in the last half hour; then the one whose oldest of them is the oldest. */
  lemma {:induction false} EvictedExactly(es: seq<Event>, e: Event, victim: string, other: string)
    requires Valid(es) && Possible(Run(es), e) && e.Failure? && e.victim == Some(victim)
    requires other != victim && IsLive(Run(es), other, e.now)
    ensures
      var h := Run(es);
      var gone, kept := Lately(h, victim, e.now), Lately(h, other, e.now);
      && IsLive(h, victim, e.now) && victim != e.user
      && (LogLocked(At(h.log, victim), e.now) ==> LogLocked(At(h.log, other), e.now))
      && ((LogLocked(At(h.log, victim), e.now) <==> LogLocked(At(h.log, other), e.now)) ==>
            && |gone| <= |kept|
            && (|gone| == |kept| && gone != [] ==> gone[0] <= kept[0]))
  {
    var h := Run(es);
    RunAgreesFor(es, victim);
    RunAgreesFor(es, other);
    PossibleEvictsElsewhere(h, e);
    LiveSurvivesIdleDrop(h, other, e.now);
    assert LeastValuable(WithoutIdle(h.records, e.now), e.now, victim);
    LiveSurvivesIdleDrop(h, victim, e.now);
    RankIsLogged(h, victim, e.now);
    RankIsLogged(h, other, e.now);
    assert !RankLess(EvictionRank(h.records[other], e.now), EvictionRank(h.records[victim], e.now));
  }
}
