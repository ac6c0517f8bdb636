/** The read gate's per-address limits: live connections, connection attempts and
    messages, the last two over closed sliding windows. */
module GateLimits {
  import opened Net
  import opened SlidingWindow
  import opened Wrappers

  datatype Bucket = Bucket(connections: nat, connTimes: seq<nat>, msgTimes: seq<nat>)

  type Book = map<IpAddr, Bucket>

  datatype Caps = Caps(maxConnections: nat, maxNew: nat, maxMessages: nat, window: nat)

  /** The slot of an admitted connection. Dropping it gives the slot back. */
  datatype Admission = Admission(ip: IpAddr)

  const NO_BUCKET := Bucket(0, [], [])

  function BucketOf(book: Book, ip: IpAddr): Bucket {
    if ip in book then book[ip] else NO_BUCKET
  }

  /** Stale stamps are popped from the front, up to the first that is not stale. */
  function PopStale(stamps: seq<nat>, now: nat, window: nat): seq<nat> {
    if stamps != [] && Since(now, stamps[0]) > window then PopStale(stamps[1..], now, window) else stamps
  }

  function Pruned(bucket: Bucket, caps: Caps, now: nat): Bucket {
    bucket.(
      connTimes := PopStale(bucket.connTimes, now, caps.window),
      msgTimes := PopStale(bucket.msgTimes, now, caps.window))
  }

  predicate IsIdle(bucket: Bucket) {
    bucket.connections == 0 && bucket.connTimes == [] && bucket.msgTimes == []
  }

  /** Every attempt is stamped, the refused ones too. */
  function AfterAdmit(book: Book, caps: Caps, ip: IpAddr, now: nat): (Book, bool) {
    var pruned := Pruned(BucketOf(book, ip), caps, now);
    var bucket := pruned.(connTimes := pruned.connTimes + [now]);
    if |bucket.connTimes| > caps.maxNew || bucket.connections >= caps.maxConnections
    then (book[ip := bucket], false)
    else (book[ip := bucket.(connections := bucket.connections + 1)], true)
  }

  /** Only an allowed message is stamped. */
  function AfterMessage(book: Book, caps: Caps, ip: IpAddr, now: nat): (Book, bool) {
    var bucket := Pruned(BucketOf(book, ip), caps, now);
    if |bucket.msgTimes| >= caps.maxMessages
    then (book[ip := bucket], false)
    else (book[ip := bucket.(msgTimes := bucket.msgTimes + [now])], true)
  }

  function AfterDrop(book: Book, caps: Caps, ip: IpAddr, now: nat): Book {
    if ip !in book then book
    else
      var less := if book[ip].connections == 0 then 0 else book[ip].connections - 1;
      var bucket := Pruned(book[ip].(connections := less), caps, now);
      if IsIdle(bucket) then book - {ip} else book[ip := bucket]
  }

  /** On an ordered queue popping the front is the same as keeping the closed window. */
  lemma {:induction false} PopStaleIsRecent(stamps: seq<nat>, now: nat, window: nat)
    requires Ordered(stamps, now)
    ensures PopStale(stamps, now, window) == Recent(stamps, now, window + 1)
    ensures Ordered(PopStale(stamps, now, window), now)
  {
    if stamps != [] {
      if Since(now, stamps[0]) > window {
        var rest := stamps[1..];
        assert stamps == [stamps[0]] + rest;
        RecentConcat([stamps[0]], rest, now, window + 1);
        assert Recent([stamps[0]], now, window + 1) == [];
        OrderedTail(stamps, now);
        PopStaleIsRecent(rest, now, window);
      } else {
        FreshFront(stamps, now, window + 1);
      }
    }
  }

  /** `buckets` is the map behind the mutex; the clock is read while it is held. */
  class GateLimits {
    const caps: Caps
    var buckets: Book

    constructor (caps: Caps)
      ensures this.caps == caps && buckets == map[]
    {
      this.caps := caps;
      buckets := map[];
    }

    method Prune(bucket: Bucket, now: nat) returns (pruned: Bucket)
      ensures pruned == Pruned(bucket, caps, now)
    {
      var connTimes, msgTimes := bucket.connTimes, bucket.msgTimes;
      while connTimes != [] && Since(now, connTimes[0]) > caps.window
        invariant PopStale(connTimes, now, caps.window) == PopStale(bucket.connTimes, now, caps.window)
        decreases |connTimes|
      {
        connTimes := connTimes[1..];
      }
      while msgTimes != [] && Since(now, msgTimes[0]) > caps.window
        invariant PopStale(msgTimes, now, caps.window) == PopStale(bucket.msgTimes, now, caps.window)
        decreases |msgTimes|
      {
        msgTimes := msgTimes[1..];
      }
      pruned := Bucket(bucket.connections, connTimes, msgTimes);
    }

    method TryAdmit(ip: IpAddr, now: nat) returns (slot: Option<Admission>)
      modifies this
      ensures buckets == AfterAdmit(old(buckets), caps, ip, now).0
      ensures slot == if AfterAdmit(old(buckets), caps, ip, now).1 then Some(Admission(ip)) else None
    {
      if ip !in buckets {
        buckets := buckets[ip := NO_BUCKET];
      }
      var bucket := Prune(buckets[ip], now);
      bucket := bucket.(connTimes := bucket.connTimes + [now]);
      buckets := buckets[ip := bucket];
      if |bucket.connTimes| > caps.maxNew || bucket.connections >= caps.maxConnections {
        return None;
      }
      buckets := buckets[ip := bucket.(connections := bucket.connections + 1)];
      slot := Some(Admission(ip));
    }

    method AllowMessage(ip: IpAddr, now: nat) returns (allowed: bool)
      modifies this
      ensures buckets == AfterMessage(old(buckets), caps, ip, now).0
      ensures allowed == AfterMessage(old(buckets), caps, ip, now).1
    {
      if ip !in buckets {
        buckets := buckets[ip := NO_BUCKET];
      }
      var bucket := Prune(buckets[ip], now);
      buckets := buckets[ip := bucket];
      if |bucket.msgTimes| >= caps.maxMessages {
        return false;
      }
      buckets := buckets[ip := bucket.(msgTimes := bucket.msgTimes + [now])];
      allowed := true;
    }

    method DropSlot(slot: Admission, now: nat)
      modifies this
      ensures buckets == AfterDrop(old(buckets), caps, slot.ip, now)
    {
      if slot.ip !in buckets {
        return;
      }
      var bucket := buckets[slot.ip];
      var less := if bucket.connections == 0 then 0 else bucket.connections - 1;
      bucket := Prune(bucket.(connections := less), now);
      if IsIdle(bucket) {
        buckets := buckets - {slot.ip};
      } else {
        buckets := buckets[slot.ip := bucket];
      }
    }
  }
}
