/** The per-address poll limit: a token bucket that is refilled lazily, in whole
    cells, and carries the part of a cell that is left over.

    Instants are nanoseconds of the wall clock, 1_000_000 to the millisecond, and
    a cell takes 1_000 milliseconds. */
module LinkPoll {
  import opened Net
  import opened Wrappers

  const BURST: nat := 30
  const MAX_IPS: nat := 4096
  const CELL_CAP: nat := 0xFFFF_FFFF

  datatype Bucket = Bucket(tokens: nat, asOf: int)

  type Book = map<IpAddr, Bucket>

  /** Whole milliseconds from `asOf` to `now`, never negative. */
  function ElapsedMs(asOf: int, now: int): nat {
    if now <= asOf then 0 else (now - asOf) / 1_000_000
  }

  /** What one poll does to its bucket, and the seconds to wait when it is refused.
      `gained` is the number of refilled cells that the code adds. */
  function Spend(bucket: Bucket, now: int, gained: nat): (Bucket, Option<nat>) {
    var leftover := ElapsedMs(bucket.asOf, now) % 1_000;
    var tokens := if bucket.tokens + gained > CELL_CAP then CELL_CAP else bucket.tokens + gained;
    if tokens >= BURST then
      (Bucket(BURST - 1, now), None)
    else if tokens == 0 then
      var waitMs := 1_000 - leftover;
      var secs := (waitMs + 999) / 1000;
      (bucket, Some(if secs >= 1 then secs else 1))
    else
      (Bucket(tokens - 1, now - leftover * 1_000_000), None)
  }

  /** The cast of the refilled cells to 32 bits drops the higher ones. */
  function Take(bucket: Bucket, now: int): (Bucket, Option<nat>) {
    Spend(bucket, now, ElapsedMs(bucket.asOf, now) / 1_000 % 0x1_0000_0000)
  }

  /** The same with no cast. */
  function TakeExact(bucket: Bucket, now: int): (Bucket, Option<nat>) {
    Spend(bucket, now, ElapsedMs(bucket.asOf, now) / 1_000)
  }

  /** Exactly when the 32-bit cast is harmless: the idle time is short enough, or the truncated
      refill still fills the bucket. */
  lemma {:induction false} CastIsHarmlessIff(bucket: Bucket, now: int)
    requires bucket.tokens < BURST
    ensures Take(bucket, now) == TakeExact(bucket, now) <==>
      var cells := ElapsedMs(bucket.asOf, now) / 1_000;
      cells < 0x1_0000_0000 || bucket.tokens + cells % 0x1_0000_0000 >= BURST
  {
    var cells := ElapsedMs(bucket.asOf, now) / 1_000;
    if cells >= 0x1_0000_0000 && bucket.tokens + cells % 0x1_0000_0000 < BURST {
      assert TakeExact(bucket, now) == (Bucket(BURST - 1, now), None);
    }
  }

  /** An empty bucket left alone for 2^32 seconds refuses the next poll. */
  lemma {:induction false} CastRefusesAfterLongIdle()
    ensures Take(Bucket(0, 0), 4_294_967_296_000_000_000) == (Bucket(0, 0), Some(1))
    ensures TakeExact(Bucket(0, 0), 4_294_967_296_000_000_000).1 == None
  {
    assert 4_294_967_296_000_000_000 / 1_000_000 == 4_294_967_296_000;
  }

  /** A refused client is always told to wait one second, and its bucket keeps its state. */
  lemma {:induction false} RefusalIsOneSecond(bucket: Bucket, now: int)
    requires Take(bucket, now).1.Some?
    ensures Take(bucket, now) == (bucket, Some(1)) && bucket.tokens == 0
  {
  }

  function WithoutFull(book: Book): Book {
    map ip | ip in book && book[ip].tokens < BURST :: book[ip]
  }

  predicate NeedsVictim(book: Book, ip: IpAddr) {
    && |book| >= MAX_IPS && ip !in book
    && |WithoutFull(book)| >= MAX_IPS
  }

  /** Any tracked address may be the one that is dropped, but only when one must be. */
  predicate MayEvict(book: Book, ip: IpAddr, victim: Option<IpAddr>) {
    if NeedsVictim(book, ip) then victim.Some? && victim.value in WithoutFull(book) else victim.None?
  }

  function Room(book: Book, ip: IpAddr, victim: Option<IpAddr>): Book {
    if |book| >= MAX_IPS && ip !in book
    then WithoutFull(book) - (if victim.Some? then {victim.value} else {})
    else book
  }

  function BucketOf(book: Book, ip: IpAddr, now: int): Bucket {
    if ip in book then book[ip] else Bucket(BURST, now)
  }

  function AfterTake(book: Book, ip: IpAddr, now: int, victim: Option<IpAddr>): Book {
    Room(book, ip, victim)[ip := Take(BucketOf(book, ip, now), now).0]
  }

  /** `byIp` is the map behind the mutex. */
  class LinkPollGate {
    var byIp: Book

    constructor ()
      ensures byIp == map[]
    {
      byIp := map[];
    }

    /** For a new address in a full map: the full buckets go, and if that is not enough any one address. */
    method MakeRoom(ip: IpAddr) returns (ghost victim: Option<IpAddr>)
      modifies this
      ensures MayEvict(old(byIp), ip, victim)
      ensures byIp == Room(old(byIp), ip, victim)
    {
      victim := None;
      if |byIp| >= MAX_IPS && ip !in byIp {
        byIp := WithoutFull(byIp);
        if |byIp| >= MAX_IPS {
          var gone :| gone in byIp;
          byIp := byIp - {gone};
          victim := Some(gone);
        }
      }
    }

    /** `None` admits the poll, `Some(seconds)` refuses it. */
    method TakeAt(ip: IpAddr, now: int) returns (wait: Option<nat>, ghost victim: Option<IpAddr>)
      modifies this
      ensures MayEvict(old(byIp), ip, victim)
      ensures byIp == AfterTake(old(byIp), ip, now, victim)
      ensures wait == Take(BucketOf(old(byIp), ip, now), now).1
    {
      victim := MakeRoom(ip);
      ghost var room := byIp;
      assert BucketOf(room, ip, now) == BucketOf(old(byIp), ip, now);
      if ip !in byIp {
        byIp := byIp[ip := Bucket(BURST, now)];
      }
      var bucket := byIp[ip];
      var elapsedMs := ElapsedMs(bucket.asOf, now);
      var gained := elapsedMs / 1_000 % 0x1_0000_0000;
      var leftover := elapsedMs % 1_000;
      var tokens := if bucket.tokens + gained > CELL_CAP then CELL_CAP else bucket.tokens + gained;
      if tokens >= BURST {
        tokens := BURST;
        leftover := 0;
      }
      if tokens == 0 {
        var waitMs := 1_000 - leftover;
        var secs := (waitMs + 999) / 1000;
        wait := Some(if secs >= 1 then secs else 1);
        assert byIp == room[ip := bucket];
        return;
      }
      byIp := byIp[ip := Bucket(tokens - 1, now - leftover * 1_000_000)];
      assert Take(bucket, now).0 == byIp[ip];
      wait := None;
    }
  }
}
