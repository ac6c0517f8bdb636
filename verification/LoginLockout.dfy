/** The escalating login lockout: failed password checks per username, tiered
    temporary locks, and a bounded map with ranked eviction. */
module LoginLockout {
  import opened SlidingWindow
  import opened Wrappers

  const SECOND: nat := 1_000_000_000
  const FAILURE_WINDOW: nat := 30 * 60 * SECOND
  const FIRST_LOCK_AFTER: nat := 5
  const FIRST_LOCK_SECS: nat := 30
  const MAX_LOCK: nat := 15 * 60 * SECOND
  const MAX_TRACKED_ACCOUNTS: nat := 8192

  datatype Tier = Tier(failures: nat, lock: nat)

  const TIERS: seq<Tier> := [
    Tier(FIRST_LOCK_AFTER, FIRST_LOCK_SECS * SECOND),
    Tier(8, 2 * 60 * SECOND),
    Tier(12, MAX_LOCK)
  ]

  datatype Record = Record(failures: seq<nat>, lockedUntil: Option<nat>)

  const NO_RECORD := Record([], None)

  type Accounts = map<string, Record>

  // ---------------------------------------------------------------- One record

  /** Whole seconds to report for a duration: rounded up, and never zero. */
  function RetrySecs(duration: nat): (secs: nat)
    ensures secs >= 1
    ensures duration <= secs * SECOND
    ensures duration > 0 ==> (secs - 1) * SECOND < duration
  {
    var secs := duration / SECOND;
    if duration % SECOND > 0 then secs + 1 else if secs == 0 then 1 else secs
  }

  function Remaining(rec: Record, now: nat): Option<nat> {
    match rec.lockedUntil
    case None => None
    case Some(until) => if until <= now then None else Some(RetrySecs(Since(until, now)))
  }

  predicate IsLocked(rec: Record, now: nat) {
    Remaining(rec, now).Some?
  }

  predicate IsIdle(rec: Record, now: nat) {
    && !IsLocked(rec, now)
    && forall i :: 0 <= i < |rec.failures| ==> Since(now, rec.failures[i]) >= FAILURE_WINDOW
  }

  /** The lock of the highest tier that `n` failures reach, searched from the last of `count` tiers. */
  function HighestTier(n: nat, count: nat := |TIERS|): Option<nat>
    requires count <= |TIERS|
  {
    if count == 0 then None
    else if n >= TIERS[count - 1].failures then Some(TIERS[count - 1].lock)
    else HighestTier(n, count - 1)
  }

  lemma {:induction false} TierTable(n: nat)
    ensures n < 5 ==> HighestTier(n) == None
    ensures 5 <= n < 8 ==> HighestTier(n) == Some(30 * SECOND)
    ensures 8 <= n < 12 ==> HighestTier(n) == Some(120 * SECOND)
    ensures 12 <= n ==> HighestTier(n) == Some(900 * SECOND)
  {
    assert HighestTier(n, 0) == None;
    assert HighestTier(n, 1) == if n >= 5 then Some(30 * SECOND) else None;
    assert HighestTier(n, 2) == if n >= 8 then Some(120 * SECOND) else HighestTier(n, 1);
  }

  /** Where a lock that starts at `now` ends, given the failures then in the window. */
  function Deadline(failures: seq<nat>, now: nat): Option<nat> {
    match HighestTier(|failures|)
    case None => None
    case Some(lock) => Some(now + lock)
  }

  function CountFailure(rec: Record, now: nat): Record {
    var failures := Recent(rec.failures, now, FAILURE_WINDOW) + [now];
    Record(failures, Deadline(failures, now))
  }

  // ------------------------------------------------------------------ Eviction

  datatype Rank = Rank(locked: bool, count: nat, oldest: nat)

  function Oldest(stamps: seq<nat>, default: nat): nat {
    if stamps == [] then default
    else if |stamps| == 1 then stamps[0]
    else
      var rest := Oldest(stamps[1..], default);
      if stamps[0] <= rest then stamps[0] else rest
  }

  function EvictionRank(rec: Record, now: nat): Rank {
    var live := Recent(rec.failures, now, FAILURE_WINDOW);
    Rank(IsLocked(rec, now), |live|, Oldest(live, now))
  }

  /** Unlocked before locked, then fewer failures, then the older first failure. */
  predicate RankLess(a: Rank, b: Rank) {
    if a.locked != b.locked then b.locked
    else if a.count != b.count then a.count < b.count
    else a.oldest < b.oldest
  }

  ghost predicate LeastValuable(records: Accounts, now: nat, victim: string) {
    && victim in records
    && forall user :: user in records ==>
         !RankLess(EvictionRank(records[user], now), EvictionRank(records[victim], now))
  }

  function WithoutIdle(records: Accounts, now: nat): Accounts {
    map user | user in records && !IsIdle(records[user], now) :: records[user]
  }

  predicate NeedsRoom(records: Accounts, user: string) {
    user !in records && |records| >= MAX_TRACKED_ACCOUNTS
  }

  /** Whether one account has to go even after the idle records are dropped. */
  predicate NeedsVictim(records: Accounts, user: string, now: nat) {
    NeedsRoom(records, user) && |WithoutIdle(records, now)| >= MAX_TRACKED_ACCOUNTS
  }

  predicate LockedOut(records: Accounts, user: string, now: nat) {
    user in records && IsLocked(records[user], now)
  }

  /** `victim` is a choice the hash map may make: a least valuable record, exactly when one must go. */
  ghost predicate MayEvict(records: Accounts, user: string, now: nat, victim: Option<string>) {
    if NeedsVictim(records, user, now)
    then victim.Some? && LeastValuable(WithoutIdle(records, now), now, victim.value)
    else victim.None?
  }

  function Room(records: Accounts, user: string, now: nat, victim: Option<string>): Accounts {
    if !NeedsRoom(records, user) then records
    else WithoutIdle(records, now) - (if victim.Some? then {victim.value} else {})
  }

  function RecordOf(records: Accounts, user: string): Record {
    if user in records then records[user] else NO_RECORD
  }

  /** The records after one failed check of `user`. */
  function AfterFailure(records: Accounts, user: string, now: nat, victim: Option<string>): Accounts {
    if LockedOut(records, user, now) then
      records
    else
      var room := Room(records, user, now, victim);
      room[user := CountFailure(RecordOf(room, user), now)]
  }

  /** The process-wide store. `records` is the map behind the mutex. */
  class LoginLockout {
    var records: Accounts

    constructor ()
      ensures records == map[]
    {
      records := map[];
    }

    method RetryAfterAt(user: string, now: nat) returns (secs: Option<nat>)
      ensures secs.Some? <==> LockedOut(records, user, now)
      ensures secs.Some? ==>
        && records[user].lockedUntil.Some? && secs.value >= 1
        && (secs.value - 1) * SECOND < records[user].lockedUntil.value - now <= secs.value * SECOND
    {
      if user in records {
        secs := Remaining(records[user], now);
      } else {
        secs := None;
      }
    }

    method RecordSuccess(user: string)
      modifies this
      ensures records == old(records) - {user}
    {
      records := records - {user};
    }

    /** Returns the seconds left, both for a lock that this failure starts and for one that already runs. */
    method RecordFailureAt(user: string, now: nat) returns (secs: Option<nat>, ghost victim: Option<string>)
      modifies this
      ensures !LockedOut(old(records), user, now) ==> MayEvict(old(records), user, now, victim)
      ensures records == AfterFailure(old(records), user, now, victim)
      ensures user in records && secs == Remaining(records[user], now)
    {
      victim := None;
      if user in records {
        var left := Remaining(records[user], now);
        if left.Some? {
          return left, None;
        }
      }
      if user !in records && |records| >= MAX_TRACKED_ACCOUNTS {
        records := WithoutIdle(records, now);
        if |records| >= MAX_TRACKED_ACCOUNTS {
          victim := EvictLeastValuable(now);
        }
      }
      var room := records;
      var rec := if user in records then records[user] else NO_RECORD;
      var failures := Recent(rec.failures, now, FAILURE_WINDOW) + [now];
      var lockFor := FindLock(|failures|);
      if lockFor.Some? {
        TierTable(|failures|);
        records := records[user := Record(failures, Some(now + lockFor.value))];
        secs := Some(RetrySecs(lockFor.value));
      } else {
        records := records[user := Record(failures, None)];
        secs := None;
      }
      assert room == Room(old(records), user, now, victim);
      assert rec == RecordOf(room, user);
      assert records[user] == CountFailure(rec, now);
      assert records == room[user := CountFailure(rec, now)];
    }

    /** Scan the tiers from the last to the first. */
    method FindLock(n: nat) returns (lock: Option<nat>)
      ensures lock == HighestTier(n)
    {
      var i := |TIERS|;
      while i > 0
        invariant 0 <= i <= |TIERS|
        invariant HighestTier(n) == HighestTier(n, i)
      {
        i := i - 1;
        if n >= TIERS[i].failures {
          return Some(TIERS[i].lock);
        }
      }
      lock := None;
    }

    /** Visit the records in any order, keeping the first of least rank. */
    method EvictLeastValuable(now: nat) returns (ghost victim: Option<string>)
      modifies this
      ensures old(records) == map[] ==> victim == None && records == map[]
      ensures old(records) != map[] ==>
        && victim.Some?
        && LeastValuable(old(records), now, victim.value)
        && records == old(records) - {victim.value}
    {
      var rest := records.Keys;
      if rest == {} {
        return None;
      }
      var best :| best in rest;
      rest := rest - {best};
      while rest != {}
        invariant best in records && rest <= records.Keys && records == old(records)
        invariant forall user :: user in records && user !in rest ==>
          !RankLess(EvictionRank(records[user], now), EvictionRank(records[best], now))
      {
        var user :| user in rest;
        rest := rest - {user};
        if RankLess(EvictionRank(records[user], now), EvictionRank(records[best], now)) {
          best := user;
        }
      }
      victim := Some(best);
      records := records - {best};
    }
  }
}
