/** The admission rule of the poll bucket over whole runs, against the log of admitted polls. */
module LinkPollHistory {
  import opened LinkPoll
  import opened Net
  import opened Wrappers

  /** One poll. `victim` is the address the map drops, if it has to drop one. */
  datatype Poll = Poll(ip: IpAddr, now: int, victim: Option<IpAddr>)

  /** The gate, and beside it the instants of the polls admitted for each address since that
      address was last evicted. The log is never pruned. */
  datatype History = History(book: Book, log: map<IpAddr, seq<int>>, now: int)

  const START := History(map[], map[], 0)

  function LogOf(log: map<IpAddr, seq<int>>, ip: IpAddr): seq<int> {
    if ip in log then log[ip] else []
  }

  predicate Possible(h: History, e: Poll) {
    h.now <= e.now && MayEvict(h.book, e.ip, e.victim)
  }

  predicate Admitted(h: History, e: Poll) {
    Take(BucketOf(h.book, e.ip, e.now), e.now).1 == None
  }

  function Next(h: History, e: Poll): History {
    var gone := if e.victim.Some? then {e.victim.value} else {};
    var log := h.log - gone;
    History(
      AfterTake(h.book, e.ip, e.now, e.victim),
      if Admitted(h, e) then log[e.ip := LogOf(log, e.ip) + [e.now]] else log,
      e.now)
  }

  function Run(es: seq<Poll>): History {
    if es == [] then START else Next(Run(es[..|es| - 1]), es[|es| - 1])
  }

  ghost predicate Valid(es: seq<Poll>) {
    es == [] || (Valid(es[..|es| - 1]) && Possible(Run(es[..|es| - 1]), es[|es| - 1]))
  }

  // ------------------------------------------------------- Credit, from the log

  /** Whole milliseconds between two consecutive admitted polls. */
  function WholeMs(from: int, to: int): nat {
    ElapsedMs(from, to)
  }

  /** Milliseconds of refill left after one more poll. */
  function Spent(held: int): int {
    (if held < 30_000 then held else 30_000) - 1_000
  }

  /** Milliseconds of refill held right after the last admitted poll, were every gap refilled in full. */
  function Credit(log: seq<int>): int
    requires log != []
  {
    var last := |log| - 1;
    if last == 0 then Spent(30_000) else Spent(Credit(log[..last]) + WholeMs(log[last - 1], log[last]))
  }

  /** What the code holds after a gap: of the whole cells gained, the carried part of a cell included,
      it keeps the low 32 bits. */
  function Counted(held: int, gap: nat): int {
    var elapsed := held % 1_000 + gap;
    held - held % 1_000 + elapsed / 1_000 % 0x1_0000_0000 * 1_000 + elapsed % 1_000
  }

  /** The same as `Credit`, with the refills that the code counts. */
  function CountedCredit(log: seq<int>): int
    requires log != []
  {
    var last := |log| - 1;
    if last == 0 then Spent(30_000) else Spent(Counted(CountedCredit(log[..last]), WholeMs(log[last - 1], log[last])))
  }

  /** Held at `now` in full, and as counted. A full bucket when there is no log. */
  function Held(log: seq<int>, now: int): int {
    if log == [] then 30_000 else Credit(log) + WholeMs(log[|log| - 1], now)
  }

  function CountedHeld(log: seq<int>, now: int): int {
    if log == [] then 30_000 else Counted(CountedCredit(log), WholeMs(log[|log| - 1], now))
  }

  lemma {:induction false} CountedIsLess(held: int, gap: nat)
    ensures Counted(held, gap) <= held + gap
    ensures Counted(held, gap) == held + gap <==> (held % 1_000 + gap) / 1_000 < 0x1_0000_0000
  {
    var cells := (held % 1_000 + gap) / 1_000;
    LowBits(cells);
  }

  lemma {:induction false} LowBits(cells: nat)
    ensures cells % 0x1_0000_0000 <= cells
    ensures cells % 0x1_0000_0000 == cells <==> cells < 0x1_0000_0000
  {
  }

  lemma {:induction false} CountedCreditIsLess(log: seq<int>)
    requires log != []
    ensures CountedCredit(log) <= Credit(log)
  {
    var last := |log| - 1;
    if last > 0 {
      var front, gap := log[..last], WholeMs(log[last - 1], log[last]);
      CountedCreditIsLess(front);
      CountedIsLess(CountedCredit(front), gap);
    }
  }

  lemma {:induction false} CountedHeldIsLess(log: seq<int>, now: int)
    ensures CountedHeld(log, now) <= Held(log, now)
  {
    if log != [] {
      CountedCreditIsLess(log);
      CountedIsLess(CountedCredit(log), WholeMs(log[|log| - 1], now));
    }
  }

  /** An idle time after which no refill count can wrap, whatever part of a cell is carried. */
  const MAX_IDLE: nat := 4_294_967_295_000_000_000

  /** No two consecutive admitted polls, `now` included, are that far apart. */
  ghost predicate ShortGaps(log: seq<int>, now: int) {
    && (forall k :: 0 < k < |log| ==> log[k] - log[k - 1] < MAX_IDLE)
    && (log != [] ==> now - log[|log| - 1] < MAX_IDLE)
  }

  lemma {:induction false} ShortGapCounts(held: int, from: int, to: int)
    requires to - from < MAX_IDLE
    ensures Counted(held, WholeMs(from, to)) == held + WholeMs(from, to)
  {
    assert WholeMs(from, to) < 4_294_967_295_000;
    CountedIsLess(held, WholeMs(from, to));
  }

  lemma {:induction false} ShortGapsCount(log: seq<int>)
    requires log != []
    requires forall k :: 0 < k < |log| ==> log[k] - log[k - 1] < MAX_IDLE
    ensures CountedCredit(log) == Credit(log)
  {
    var last := |log| - 1;
    if last > 0 {
      ShortGapsCount(log[..last]);
      ShortGapCounts(CountedCredit(log[..last]), log[last - 1], log[last]);
    }
  }

  /** With no long idle time both are the same. */
  lemma {:induction false} ShortGapsHold(log: seq<int>, now: int)
    requires ShortGaps(log, now)
    ensures CountedHeld(log, now) == Held(log, now)
  {
    if log != [] {
      ShortGapsCount(log);
      ShortGapCounts(CountedCredit(log), log[|log| - 1], now);
    }
  }

  // ------------------------------------------------------------------- The rule

  /** The time from admitted poll `i` to the last one, each step counted in whole milliseconds. */
  function Travel(log: seq<int>, i: nat): nat
    requires i < |log|
  {
    var last := |log| - 1;
    if i == last then 0 else Travel(log[..last], i) + WholeMs(log[last - 1], log[last])
  }

  /** The admission rule: for each earlier admitted poll `i`, the polls from `i` on, this one
      included, fit the burst plus the refill since. */
  ghost predicate Conforms(log: seq<int>, now: int) {
    forall i :: 0 <= i < |log| ==>
      1_000 * (|log| - i + 1) <= 30_000 + Travel(log, i) + WholeMs(log[|log| - 1], now)
  }

  ghost predicate Bounded(log: seq<int>, more: int, need: int) {
    forall i :: 0 <= i < |log| ==> 30_000 + Travel(log, i) + more - 1_000 * (|log| - i) >= need
  }

  lemma {:induction false} CreditIsLeastBound(log: seq<int>, more: int, need: int)
    requires log != []
    ensures Credit(log) + more >= need <==> Bounded(log, more, need)
  {
    var last := |log| - 1;
    assert Travel(log, last) == 0;
    if last > 0 {
      var front := log[..last];
      var gap := WholeMs(log[last - 1], log[last]);
      CreditIsLeastBound(front, gap + more, need + 1_000);
      BoundedSteps(log, more, need);
    }
  }

  lemma {:induction false} BoundedSteps(log: seq<int>, more: int, need: int)
    requires |log| > 1
    ensures
      var last := |log| - 1;
      Bounded(log, more, need) <==>
        Bounded(log[..last], WholeMs(log[last - 1], log[last]) + more, need + 1_000) && 29_000 + more >= need
  {
    var last := |log| - 1;
    var front, gap := log[..last], WholeMs(log[last - 1], log[last]);
    assert Travel(log, last) == 0;
    if Bounded(log, more, need) {
      forall i | 0 <= i < last
        ensures 30_000 + Travel(front, i) + (gap + more) - 1_000 * (last - i) >= need + 1_000
      {
        assert Travel(log, i) == Travel(front, i) + gap;
      }
    } else if Bounded(front, gap + more, need + 1_000) && 29_000 + more >= need {
      forall i | 0 <= i <= last
        ensures 30_000 + Travel(log, i) + more - 1_000 * (|log| - i) >= need
      {
        assert i < last ==> Travel(log, i) == Travel(front, i) + gap;
      }
    }
  }

  /** The rule is that a whole cell is held, were every gap refilled in full. */
  lemma {:induction false} ConformsIsACell(log: seq<int>, now: int)
    ensures Conforms(log, now) <==> Held(log, now) >= 1_000
  {
    if log != [] {
      var gap := WholeMs(log[|log| - 1], now);
      CreditIsLeastBound(log, gap, 1_000);
      assert forall i :: 0 <= i < |log| ==>
        (1_000 * (|log| - i + 1) <= 30_000 + Travel(log, i) + gap
         <==> 30_000 + Travel(log, i) + gap - 1_000 * (|log| - i) >= 1_000);
    }
  }

  // ---------------------------------------------------------------- Bucket and log

  /** The cells and the carried part of a cell together are the counted credit. */
  ghost predicate BucketAgrees(bucket: Bucket, log: seq<int>) {
    && log != []
    && bucket.tokens < BURST
    && 0 <= CountedCredit(log) - bucket.tokens * 1_000 < 1_000
    && bucket.asOf == log[|log| - 1] - (CountedCredit(log) - bucket.tokens * 1_000) * 1_000_000
  }

  lemma {:induction false} Carry(last: int, now: int, carry: nat)
    requires last <= now
    ensures ElapsedMs(last - carry * 1_000_000, now) == carry + WholeMs(last, now)
  {
  }

  lemma {:induction false} Split(held: int, tokens: nat)
    requires 0 <= held - tokens * 1_000 < 1_000
    ensures held % 1_000 == held - tokens * 1_000
  {
  }

  /** The lazily refilled bucket admits exactly when the log holds a counted cell, and stays in step. */
  lemma {:induction false} TakeFollowsCredit(bucket: Bucket, log: seq<int>, now: int)
    requires BucketAgrees(bucket, log)
    requires log[|log| - 1] <= now
    ensures Take(bucket, now).1 == None <==> CountedHeld(log, now) >= 1_000
    ensures Take(bucket, now).1 == None ==> BucketAgrees(Take(bucket, now).0, log + [now])
    ensures Take(bucket, now).1 != None ==> Take(bucket, now).0 == bucket
  {
    var last := log[|log| - 1];
    var carry := CountedCredit(log) - bucket.tokens * 1_000;
    Carry(last, now, carry);
    Split(CountedCredit(log), bucket.tokens);
    var elapsed := ElapsedMs(bucket.asOf, now);
    var cells, leftover := elapsed / 1_000 % 0x1_0000_0000, elapsed % 1_000;
    CreditPush(log, now);
    assert CountedHeld(log, now) == (bucket.tokens + cells) * 1_000 + leftover;
  }

  lemma {:induction false} CreditPush(log: seq<int>, now: int)
    requires log != []
    ensures CountedCredit(log + [now]) == Spent(CountedHeld(log, now))
    ensures Credit(log + [now]) == Spent(Held(log, now))
  {
    assert (log + [now])[..|log|] == log;
  }

  // --------------------------------------------------------------- Whole runs

  ghost predicate IpAgrees(h: History, ip: IpAddr) {
    && (ip in h.book <==> ip in h.log)
    && (ip in h.book ==> BucketAgrees(h.book[ip], h.log[ip]) && h.log[ip][|h.log[ip]| - 1] <= h.now)
    && (ip in h.book ==> Steps(h.log[ip]))
  }

  ghost predicate Steps(log: seq<int>) {
    forall k :: 0 < k < |log| ==> log[k - 1] <= log[k] && Conforms(log[..k], log[k])
  }

  ghost predicate Agrees(h: History) {
    |h.book| <= MAX_IPS && forall ip :: IpAgrees(h, ip)
  }

  lemma {:induction false} NoneIsFull(h: History)
    requires Agrees(h)
    ensures WithoutFull(h.book) == h.book
  {
    forall ip | ip in h.book
      ensures h.book[ip].tokens < BURST
    {
      assert IpAgrees(h, ip);
    }
  }

  lemma {:induction false} PushSteps(log: seq<int>, now: int)
    requires Steps(log)
    requires log != [] ==> log[|log| - 1] <= now && Conforms(log, now)
    ensures Steps(log + [now])
  {
    var longer := log + [now];
    forall k | 0 < k < |longer|
      ensures longer[k - 1] <= longer[k] && Conforms(longer[..k], longer[k])
    {
      assert longer[..k] == log[..k];
      assert log[..|log|] == log;
    }
  }

  lemma {:induction false} CountedCellConforms(log: seq<int>, now: int)
    requires CountedHeld(log, now) >= 1_000
    ensures Conforms(log, now)
  {
    CountedHeldIsLess(log, now);
    ConformsIsACell(log, now);
  }

  /** The polled address. */
  lemma {:induction false} PolledAgrees(h: History, e: Poll)
    requires IpAgrees(h, e.ip) && Possible(h, e)
    ensures IpAgrees(Next(h, e), e.ip)
    ensures Admitted(h, e) <==> CountedHeld(LogOf(h.log, e.ip), e.now) >= 1_000
    ensures LogOf(Next(h, e).log, e.ip) == LogOf(h.log, e.ip) + (if Admitted(h, e) then [e.now] else [])
    ensures !Admitted(h, e) ==> e.ip in h.book && Next(h, e) == h.(now := e.now)
  {
    var log := LogOf(h.log, e.ip);
    if e.ip in h.book {
      TakeFollowsCredit(h.book[e.ip], log, e.now);
      assert h.log - {} == h.log;
      if Admitted(h, e) {
        CountedCellConforms(log, e.now);
        PushSteps(log, e.now);
      }
    } else {
      assert Next(h, e).book[e.ip] == Bucket(BURST - 1, e.now);
      assert LogOf(Next(h, e).log, e.ip) == [e.now];
    }
  }

  lemma {:induction false} OthersAgree(h: History, e: Poll, ip: IpAddr)
    requires IpAgrees(h, ip) && Possible(h, e) && ip != e.ip
    requires WithoutFull(h.book) == h.book
    ensures IpAgrees(Next(h, e), ip)
  {
  }

  lemma {:induction false} BookIsBounded(h: History, e: Poll)
    requires |h.book| <= MAX_IPS && Possible(h, e)
    requires WithoutFull(h.book) == h.book
    ensures |Next(h, e).book| <= MAX_IPS
  {
    var room := Room(h.book, e.ip, e.victim);
    if e.victim.Some? {
      SizeWithout(h.book, room, e.victim.value);
    } else {
      assert h.book - {} == h.book;
    }
    SizeWith(room, Next(h, e).book, e.ip);
  }

  lemma {:induction false} SizeWithout(book: Book, room: Book, gone: IpAddr)
    requires gone in book && room == book - {gone}
    ensures |room| == |book| - 1
  {
    assert book.Keys == room.Keys + {gone};
    assert |book.Keys| == |room.Keys| + 1;
  }

  lemma {:induction false} SizeWith(room: Book, book: Book, ip: IpAddr)
    requires book.Keys == room.Keys + {ip}
    ensures |book| <= |room| + 1
    ensures ip in room ==> |book| == |room|
  {
    if ip in room {
      assert book.Keys == room.Keys;
    }
    assert |book.Keys| <= |room.Keys| + 1;
  }

  lemma {:induction false} RunAgrees(es: seq<Poll>)
    requires Valid(es)
    ensures Agrees(Run(es))
  {
    if es != [] {
      var h, e := Run(es[..|es| - 1]), es[|es| - 1];
      RunAgrees(es[..|es| - 1]);
      NoneIsFull(h);
      BookIsBounded(h, e);
      forall ip
        ensures IpAgrees(Next(h, e), ip)
      {
        assert IpAgrees(h, ip);
        if ip == e.ip {
          PolledAgrees(h, e);
        } else {
          OthersAgree(h, e, ip);
        }
      }
    }
  }

  lemma {:induction false} RunAgreesFor(es: seq<Poll>, ip: IpAddr)
    requires Valid(es)
    ensures IpAgrees(Run(es), ip) && |Run(es).book| <= MAX_IPS
  {
    RunAgrees(es);
  }

  // ------------------------------------------------------------- Main theorems

  /** In every run a poll is admitted if and only if the log holds a whole cell as the code counts it,
      the 32-bit cast included; a refused poll leaves the whole gate as it was; an admitted one conforms
      to the rule; the map never exceeds its cap. */
  lemma {:induction false} AdmittedIffCounted(es: seq<Poll>, e: Poll)
    requires Valid(es) && Possible(Run(es), e)
    ensures
      var h := Run(es);
      var log := LogOf(h.log, e.ip);
      && (Admitted(h, e) <==> CountedHeld(log, e.now) >= 1_000)
      && (Admitted(h, e) ==> Conforms(log, e.now))
      && (!Admitted(h, e) ==> Next(h, e) == h.(now := e.now))
      && |h.book| <= 4_096
  {
    RunAgreesFor(es, e.ip);
    PolledAgrees(Run(es), e);
    if Admitted(Run(es), e) {
      CountedCellConforms(LogOf(Run(es).log, e.ip), e.now);
    }
  }

  /** So in every run admission is the rule, except exactly where a cell is held in full but none is
      counted; then a poll that conforms is refused. */
  lemma {:induction false} RuleHoldsIff(es: seq<Poll>, e: Poll)
    requires Valid(es) && Possible(Run(es), e)
    ensures
      var log := LogOf(Run(es).log, e.ip);
      (Admitted(Run(es), e) <==> Conforms(log, e.now)) <==>
      !(CountedHeld(log, e.now) < 1_000 <= Held(log, e.now))
  {
    AdmittedIffCounted(es, e);
    ConformsIsACell(LogOf(Run(es).log, e.ip), e.now);
    CountedHeldIsLess(LogOf(Run(es).log, e.ip), e.now);
  }

  /** That takes a long idle time: when the admitted polls of the address never lie 2^32 - 1 seconds
      apart, a poll is admitted if and only if it conforms. */
  lemma {:induction false} AdmittedIffConforms(es: seq<Poll>, e: Poll)
    requires Valid(es) && Possible(Run(es), e) && ShortGaps(LogOf(Run(es).log, e.ip), e.now)
    ensures Admitted(Run(es), e) <==> Conforms(LogOf(Run(es).log, e.ip), e.now)
  {
    RuleHoldsIff(es, e);
    ShortGapsHold(LogOf(Run(es).log, e.ip), e.now);
  }

  /** A full map drops nothing when it drops its full buckets, in any run: every stored bucket has been
      spent from. So it always loses an arbitrary address. */
  lemma {:induction false} RetainKeepsAll(es: seq<Poll>)
    requires Valid(es)
    ensures WithoutFull(Run(es).book) == Run(es).book
  {
    RunAgrees(es);
    NoneIsFull(Run(es));
  }

  // ------------------------------------------------------------ Whole milliseconds

  /** A clock that ticks in whole milliseconds. */
  ghost predicate WholeClock(log: seq<int>, now: int) {
    now % 1_000_000 == 0 && forall i :: 0 <= i < |log| ==> log[i] % 1_000_000 == 0
  }

  ghost predicate InOrder(log: seq<int>, now: int) {
    && (forall k :: 0 < k < |log| ==> log[k - 1] <= log[k])
    && (log != [] ==> log[|log| - 1] <= now)
  }

  lemma {:induction false} FlooredMs(from: int, to: int)
    requires from <= to
    ensures WholeMs(from, to) * 1_000_000 <= to - from
  {
  }

  lemma {:induction false} ExactMs(from: int, to: int)
    requires from <= to && from % 1_000_000 == 0 && to % 1_000_000 == 0
    ensures WholeMs(from, to) * 1_000_000 == to - from
  {
  }

  lemma {:induction false} TravelBounds(log: seq<int>, i: nat)
    requires i < |log| && InOrder(log, log[|log| - 1])
    ensures Travel(log, i) * 1_000_000 <= log[|log| - 1] - log[i]
  {
    var last := |log| - 1;
    if i < last {
      TravelBounds(log[..last], i);
      FlooredMs(log[last - 1], log[last]);
    }
  }

  lemma {:induction false} TravelIsExact(log: seq<int>, i: nat)
    requires i < |log| && InOrder(log, log[|log| - 1]) && WholeClock(log, 0)
    ensures Travel(log, i) * 1_000_000 == log[|log| - 1] - log[i]
  {
    var last := |log| - 1;
    if i < last {
      TravelIsExact(log[..last], i);
      ExactMs(log[last - 1], log[last]);
    }
  }

  ghost predicate PlainlyConforms(log: seq<int>, now: int) {
    forall i :: 0 <= i < |log| ==> 1_000 * (|log| - i + 1) * 1_000_000 <= 30_000 * 1_000_000 + (now - log[i])
  }

  lemma {:induction false} ConformsOnWholeClock(log: seq<int>, now: int)
    requires InOrder(log, now) && WholeClock(log, now)
    ensures Conforms(log, now) <==> PlainlyConforms(log, now)
  {
    forall i | 0 <= i < |log|
      ensures 1_000 * (|log| - i + 1) <= 30_000 + Travel(log, i) + WholeMs(log[|log| - 1], now)
         <==> 1_000 * (|log| - i + 1) * 1_000_000 <= 30_000 * 1_000_000 + (now - log[i])
    {
      TravelIsExact(log, i);
      ExactMs(log[|log| - 1], now);
    }
  }

  lemma {:induction false} StepsInOrder(log: seq<int>, now: int)
    requires Steps(log) && (log != [] ==> log[|log| - 1] <= now)
    ensures InOrder(log, now)
  {
  }

  lemma {:induction false} LogInOrder(es: seq<Poll>, e: Poll)
    requires Valid(es) && Possible(Run(es), e)
    ensures InOrder(LogOf(Run(es).log, e.ip), e.now)
  {
    RunAgreesFor(es, e.ip);
    AgreesInOrder(Run(es), e.ip, e.now);
  }

  lemma {:induction false} AgreesInOrder(h: History, ip: IpAddr, now: int)
    requires IpAgrees(h, ip) && h.now <= now
    ensures InOrder(LogOf(h.log, ip), now)
  {
    if ip in h.log {
      StepsInOrder(h.log[ip], now);
    }
  }

  /** On a whole-millisecond clock the rule is the plain one: poll number `k` at `now` is admitted
      iff `1000 (k - i + 1) <= 30000 + (now - a_i)` milliseconds for every earlier admitted `a_i`. */
  lemma {:induction false} AdmittedOnWholeClock(es: seq<Poll>, e: Poll)
    requires Valid(es) && Possible(Run(es), e) && ShortGaps(LogOf(Run(es).log, e.ip), e.now)
    requires WholeClock(LogOf(Run(es).log, e.ip), e.now)
    ensures Admitted(Run(es), e) <==> PlainlyConforms(LogOf(Run(es).log, e.ip), e.now)
  {
    AdmittedIffConforms(es, e);
    LogInOrder(es, e);
    ConformsOnWholeClock(LogOf(Run(es).log, e.ip), e.now);
  }

  // ------------------------------------------------------------------------- Rate

  /** All polls of `ip` that were admitted over the whole run, evictions included. */
  function AdmittedTimes(es: seq<Poll>, ip: IpAddr): seq<int> {
    if es == [] then [] else
      var e := es[|es| - 1];
      var before := es[..|es| - 1];
      AdmittedTimes(before, ip) + (if e.ip == ip && Admitted(Run(before), e) then [e.now] else [])
  }

  /** All polls of `ip`, admitted or not. */
  function PollTimes(es: seq<Poll>, ip: IpAddr): seq<int> {
    if es == [] then [] else
      var e := es[|es| - 1];
      PollTimes(es[..|es| - 1], ip) + (if e.ip == ip then [e.now] else [])
  }

  predicate NeverEvicted(es: seq<Poll>, ip: IpAddr) {
    forall e :: e in es ==> e.victim != Some(ip)
  }

  lemma {:induction false} StepLogs(h: History, e: Poll, ip: IpAddr)
    requires e.victim != Some(ip)
    ensures LogOf(Next(h, e).log, ip) == LogOf(h.log, ip) + (if e.ip == ip && Admitted(h, e) then [e.now] else [])
  {
  }

  lemma {:induction false} LogIsComplete(es: seq<Poll>, ip: IpAddr)
    requires NeverEvicted(es, ip)
    ensures LogOf(Run(es).log, ip) == AdmittedTimes(es, ip)
  {
    if es != [] {
      var last := |es| - 1;
      assert es[last] in es;
      LogIsComplete(es[..last], ip);
      StepLogs(Run(es[..last]), es[last], ip);
    }
  }

  /** On any nondecreasing clock, however long the idle times, an address that is not evicted never gets
      more than the burst plus one poll a second, over any stretch of its admitted polls. */
  lemma {:induction false} RateIsBounded(es: seq<Poll>, ip: IpAddr, i: nat, j: nat)
    requires Valid(es) && NeverEvicted(es, ip)
    requires i <= j < |AdmittedTimes(es, ip)|
    ensures
      var a := AdmittedTimes(es, ip);
      (j - i + 1) * 1_000 * 1_000_000 <= 30_000 * 1_000_000 + (a[j] - a[i])
  {
    LogIsComplete(es, ip);
    RunAgreesFor(es, ip);
    StretchIsBounded(AdmittedTimes(es, ip), i, j);
  }

  lemma {:induction false} StretchIsBounded(a: seq<int>, i: nat, j: nat)
    requires Steps(a) && i <= j < |a|
    ensures (j - i + 1) * 1_000 * 1_000_000 <= 30_000 * 1_000_000 + (a[j] - a[i])
  {
    if i < j {
      var front := a[..j];
      assert Conforms(front, a[j]) && a[j - 1] <= a[j];
      PrefixInOrder(a, j);
      TravelBounds(front, i);
      FlooredMs(a[j - 1], a[j]);
      assert 1_000 * (j - i + 1) <= 30_000 + Travel(front, i) + WholeMs(a[j - 1], a[j]);
    }
  }

  lemma {:induction false} PrefixInOrder(a: seq<int>, j: nat)
    requires Steps(a) && 0 < j < |a|
    ensures InOrder(a[..j], a[j - 1])
  {
  }

  // ---------------------------------------------------------------- Never refused

  ghost predicate ShortIdle(times: seq<int>) {
    forall k :: 0 < k < |times| ==> times[k] - times[k - 1] < MAX_IDLE
  }

  /** Each poll conforms to all before it. */
  ghost predicate Conforming(times: seq<int>) {
    forall k :: 0 <= k < |times| ==> Conforms(times[..k], times[k])
  }

  lemma {:induction false} ConformingPush(times: seq<int>, now: int)
    ensures Conforming(times + [now]) <==> Conforming(times) && Conforms(times, now)
  {
    var longer := times + [now];
    assert longer[..|times|] == times;
    forall k | 0 <= k < |times|
      ensures longer[..k] == times[..k] && longer[k] == times[k]
    {
    }
    if Conforming(times) && Conforms(times, now) {
      forall k | 0 <= k < |longer|
        ensures Conforms(longer[..k], longer[k])
      {
        assert k < |times| ==> Conforms(times[..k], times[k]);
      }
    }
    if Conforming(longer) {
      assert Conforms(longer[..|times|], longer[|times|]);
      forall k | 0 <= k < |times|
        ensures Conforms(times[..k], times[k])
      {
        assert Conforms(longer[..k], longer[k]);
      }
    }
  }

  lemma {:induction false} ShortIdlePush(times: seq<int>, now: int)
    requires ShortIdle(times + [now])
    ensures ShortIdle(times) && ShortGaps(times, now)
  {
    var longer := times + [now];
    assert forall k :: 0 <= k < |times| ==> longer[k] == times[k];
    assert times != [] ==> longer[|times|] - longer[|times| - 1] < MAX_IDLE;
  }

  lemma {:induction false} NeverEvictedBefore(es: seq<Poll>, ip: IpAddr)
    requires es != [] && NeverEvicted(es, ip)
    ensures NeverEvicted(es[..|es| - 1], ip)
  {
  }

  lemma {:induction false} ConformingIsAdmitted(es: seq<Poll>, ip: IpAddr)
    requires Valid(es) && NeverEvicted(es, ip)
    requires ShortIdle(PollTimes(es, ip)) && Conforming(PollTimes(es, ip))
    ensures AdmittedTimes(es, ip) == PollTimes(es, ip)
  {
    if es != [] {
      var before, e := es[..|es| - 1], es[|es| - 1];
      NeverEvictedBefore(es, ip);
      if e.ip == ip {
        assert PollTimes(es, ip) == PollTimes(before, ip) + [e.now];
        ShortIdlePush(PollTimes(before, ip), e.now);
        ConformingPush(PollTimes(before, ip), e.now);
        ConformingIsAdmitted(before, ip);
        LogIsComplete(before, ip);
        AdmittedIffConforms(before, e);
      } else {
        assert PollTimes(es, ip) == PollTimes(before, ip);
        ConformingIsAdmitted(before, ip);
      }
    }
  }

  lemma {:induction false} StepsAreConforming(log: seq<int>)
    requires Steps(log)
    ensures Conforming(log)
  {
  }

  /** Exactly which addresses are never refused, whatever other addresses do and on any nondecreasing
      clock: those whose polls each conform to all before them. */
  lemma {:induction false} NeverRefusedIff(es: seq<Poll>, ip: IpAddr)
    requires Valid(es) && NeverEvicted(es, ip) && ShortIdle(PollTimes(es, ip))
    ensures AdmittedTimes(es, ip) == PollTimes(es, ip) <==> Conforming(PollTimes(es, ip))
  {
    if Conforming(PollTimes(es, ip)) {
      ConformingIsAdmitted(es, ip);
    }
    if AdmittedTimes(es, ip) == PollTimes(es, ip) {
      LogIsComplete(es, ip);
      RunAgreesFor(es, ip);
      StepsAreConforming(AdmittedTimes(es, ip));
    }
  }

  /** More than a burst of polls takes the refill they need, and a millisecond for each poll but the
      first: each admitted poll may drop a part of a millisecond. */
  ghost predicate WithinRate(times: seq<int>) {
    forall i, k :: 0 <= i && i + 30 <= k < |times| ==>
      (1_000 * (k - i + 1) + (k - i)) * 1_000_000 <= 30_000 * 1_000_000 + (times[k] - times[i])
  }

  lemma {:induction false} AlmostMs(from: int, to: int)
    ensures WholeMs(from, to) * 1_000_000 >= to - from - 1_000_000
  {
  }

  lemma {:induction false} TravelLoses(log: seq<int>, i: nat)
    requires i < |log|
    ensures Travel(log, i) * 1_000_000 >= log[|log| - 1] - log[i] - (|log| - 1 - i) * 1_000_000
  {
    var last := |log| - 1;
    if i < last {
      TravelLoses(log[..last], i);
      AlmostMs(log[last - 1], log[last]);
    }
  }

  lemma {:induction false} WithinRateConforms(times: seq<int>)
    requires WithinRate(times)
    ensures Conforming(times)
  {
    forall k, i | 0 <= k < |times| && 0 <= i < |times[..k]|
      ensures 1_000 * (k - i + 1) <= 30_000 + Travel(times[..k], i) + WholeMs(times[..k][k - 1], times[k])
    {
      TravelLoses(times[..k], i);
      AlmostMs(times[k - 1], times[k]);
    }
  }

  /** On any clock, a nanosecond one among them: an address whose polls stay within that rate is never
      refused, unless it is evicted. */
  lemma {:induction false} WithinRateIsNeverRefused(es: seq<Poll>, ip: IpAddr)
    requires Valid(es) && NeverEvicted(es, ip)
    requires ShortIdle(PollTimes(es, ip)) && WithinRate(PollTimes(es, ip))
    ensures AdmittedTimes(es, ip) == PollTimes(es, ip)
  {
    WithinRateConforms(PollTimes(es, ip));
    ConformingIsAdmitted(es, ip);
  }

  /** The plain rate: the burst and one poll a second. */
  ghost predicate PlainlyConforming(times: seq<int>) {
    forall k :: 0 <= k < |times| ==> PlainlyConforms(times[..k], times[k])
  }

  lemma {:induction false} OrderPush(times: seq<int>, earlier: int, now: int)
    requires InOrder(times, earlier) && earlier <= now
    ensures InOrder(times, now) && InOrder(times + [now], now)
  {
  }

  lemma {:induction false} PollsInOrder(es: seq<Poll>, ip: IpAddr)
    requires Valid(es)
    ensures InOrder(PollTimes(es, ip), Run(es).now)
  {
    if es != [] {
      var before, e := es[..|es| - 1], es[|es| - 1];
      PollsInOrder(before, ip);
      OrderPush(PollTimes(before, ip), Run(before).now, e.now);
      PollTimesPush(es, ip);
    }
  }

  lemma {:induction false} PollTimesPush(es: seq<Poll>, ip: IpAddr)
    requires es != []
    ensures
      var before, e := es[..|es| - 1], es[|es| - 1];
      PollTimes(es, ip) == if e.ip == ip then PollTimes(before, ip) + [e.now] else PollTimes(before, ip)
  {
  }

  lemma {:induction false} OrderedPart(times: seq<int>, now: int, k: nat)
    requires InOrder(times, now) && WholeClock(times, 0) && k < |times|
    ensures InOrder(times[..k], times[k]) && WholeClock(times[..k], times[k])
  {
  }

  /** On a whole-millisecond clock that plain rate is enough, and needed. */
  lemma {:induction false} PlainRateOnWholeClock(es: seq<Poll>, ip: IpAddr)
    requires Valid(es) && NeverEvicted(es, ip)
    requires ShortIdle(PollTimes(es, ip)) && WholeClock(PollTimes(es, ip), 0)
    ensures AdmittedTimes(es, ip) == PollTimes(es, ip) <==> PlainlyConforming(PollTimes(es, ip))
  {
    var times := PollTimes(es, ip);
    NeverRefusedIff(es, ip);
    PollsInOrder(es, ip);
    forall k | 0 <= k < |times|
      ensures Conforms(times[..k], times[k]) <==> PlainlyConforms(times[..k], times[k])
    {
      OrderedPart(times, Run(es).now, k);
      ConformsOnWholeClock(times[..k], times[k]);
    }
  }

  // ------------------------------------------------------------ Where the rule fails

  /** The polls of a lone client. */
  function Stream(ip: IpAddr, times: seq<int>): seq<Poll> {
    seq(|times|, i requires 0 <= i < |times| => Poll(ip, times[i], None))
  }

  lemma {:induction false} StreamPush(ip: IpAddr, times: seq<int>, now: int)
    ensures Stream(ip, times + [now]) == Stream(ip, times) + [Poll(ip, now, None)]
  {
  }

  lemma {:induction false} PushPoll(es: seq<Poll>, e: Poll)
    ensures Run(es + [e]) == Next(Run(es), e)
    ensures Valid(es) && Possible(Run(es), e) ==> Valid(es + [e])
  {
    assert (es + [e])[..|es|] == es;
  }

  lemma {:induction false} AtMostOne<T>(s: set<T>, x: T)
    requires s <= {x}
    ensures |s| <= 1
  {
    if x in s {
      assert s == {x};
    } else {
      assert s == {};
    }
  }

  /** A lone client whose polls so far were all admitted. */
  ghost predicate AllAdmitted(ip: IpAddr, times: seq<int>) {
    var es := Stream(ip, times);
    && Valid(es) && Run(es).book.Keys <= {ip} && LogOf(Run(es).log, ip) == times
    && Run(es).now == (if times == [] then 0 else times[|times| - 1])
  }

  lemma {:induction false} LoneClient(h: History, ip: IpAddr, now: int)
    requires h.book.Keys <= {ip} && h.now <= now
    ensures Possible(h, Poll(ip, now, None))
    ensures Next(h, Poll(ip, now, None)).book.Keys <= {ip}
  {
    AtMostOne(h.book.Keys, ip);
  }

  lemma {:induction false} OneMore(ip: IpAddr, times: seq<int>, now: int)
    requires AllAdmitted(ip, times) && Run(Stream(ip, times)).now <= now && CountedHeld(times, now) >= 1_000
    ensures AllAdmitted(ip, times + [now])
  {
    var es, e := Stream(ip, times), Poll(ip, now, None);
    LoneClient(Run(es), ip, now);
    AdmittedIffCounted(es, e);
    PushPoll(es, e);
    StreamPush(ip, times, now);
    StepLogs(Run(es), e, ip);
  }

  function Zeros(n: nat): seq<int> {
    if n == 0 then [] else Zeros(n - 1) + [0]
  }

  lemma {:induction false} NothingCounted(held: int)
    ensures Counted(held, 0) == held
  {
    CountedIsLess(held, 0);
  }

  /** One more poll at the same instant. */
  lemma {:induction false} SameInstant(times: seq<int>, now: int)
    requires times != [] && times[|times| - 1] == now
    ensures Held(times, now) == Credit(times) && CountedHeld(times, now) == CountedCredit(times)
    ensures Credit(times + [now]) == Spent(Credit(times)) && CountedCredit(times + [now]) == Spent(CountedCredit(times))
  {
    NothingCounted(CountedCredit(times));
    CreditPush(times, now);
  }

  lemma {:induction false} FirstCredit(now: int)
    ensures Credit([now]) == CountedCredit([now]) == 29_000
  {
  }

  lemma {:induction false} BurstCredit(n: nat)
    requires 0 < n <= 30
    ensures |Zeros(n)| == n && Zeros(n)[n - 1] == 0
    ensures CountedCredit(Zeros(n)) == Credit(Zeros(n)) == 30_000 - 1_000 * n
  {
    if n == 1 {
      FirstCredit(0);
      assert Zeros(1) == [0];
    } else {
      BurstCredit(n - 1);
      SameInstant(Zeros(n - 1), 0);
    }
  }

  lemma {:induction false} BurstHolds(n: nat)
    requires n < 30
    ensures CountedHeld(Zeros(n), 0) >= 1_000
  {
    if n > 0 {
      BurstCredit(n);
      SameInstant(Zeros(n), 0);
    }
  }

  lemma {:induction false} BurstIsAdmitted(ip: IpAddr, n: nat)
    requires n <= 30
    ensures AllAdmitted(ip, Zeros(n)) && Run(Stream(ip, Zeros(n))).now == 0
  {
    if n > 0 {
      BurstIsAdmitted(ip, n - 1);
      BurstHolds(n - 1);
      OneMore(ip, Zeros(n - 1), 0);
    }
  }

  lemma {:induction false} LateGap(late: int)
    requires late == 4_294_967_297_000_000_000
    ensures WholeMs(0, late) == 4_294_967_297_000
    ensures Counted(0, WholeMs(0, late)) == 1_000
  {
  }

  lemma {:induction false} LateHolds(times: seq<int>, late: int)
    requires times != [] && times[|times| - 1] == 0 && CountedCredit(times) == Credit(times) == 0
    requires late == 4_294_967_297_000_000_000
    ensures CountedHeld(times, late) == 1_000 && Held(times, late) >= 30_000
  {
    LateGap(late);
  }

  lemma {:induction false} AfterLate(times: seq<int>, late: int)
    requires times != [] && CountedHeld(times, late) == 1_000 && Held(times, late) >= 30_000
    ensures CountedHeld(times + [late], late) == 0 && Held(times + [late], late) == 29_000
  {
    CreditPush(times, late);
    SameInstant(times + [late], late);
  }

  lemma {:induction false} RefusedNext(ip: IpAddr, times: seq<int>, now: int)
    requires AllAdmitted(ip, times) && Run(Stream(ip, times)).now <= now && CountedHeld(times, now) < 1_000
    ensures !Admitted(Run(Stream(ip, times)), Poll(ip, now, None))
  {
    LoneClient(Run(Stream(ip, times)), ip, now);
    AdmittedIffCounted(Stream(ip, times), Poll(ip, now, None));
  }

  lemma {:induction false} RefusedThough(ip: IpAddr, times: seq<int>, now: int)
    requires AllAdmitted(ip, times) && Run(Stream(ip, times)).now <= now
    requires CountedHeld(times, now) < 1_000 <= Held(times, now)
    ensures Conforms(times, now) && !Admitted(Run(Stream(ip, times)), Poll(ip, now, None))
  {
    LoneClient(Run(Stream(ip, times)), ip, now);
    AdmittedIffCounted(Stream(ip, times), Poll(ip, now, None));
    ConformsIsACell(times, now);
  }

  lemma {:induction false} RefusedAfter(ip: IpAddr, burst: seq<int>, late: int)
    requires AllAdmitted(ip, burst) && burst != [] && burst[|burst| - 1] == 0
    requires CountedCredit(burst) == Credit(burst) == 0 && late == 4_294_967_297_000_000_000
    ensures AllAdmitted(ip, burst + [late]) && Conforms(burst + [late], late)
    ensures !Admitted(Run(Stream(ip, burst + [late])), Poll(ip, late, None))
  {
    LateHolds(burst, late);
    AfterLate(burst, late);
    OneMore(ip, burst, late);
    RefusedThough(ip, burst + [late], late);
  }

  /** A burst, a poll 2^32 + 1 seconds later that is admitted on the one cell the cast leaves, and a poll
      at that same instant that conforms and is refused. */
  lemma {:induction false} LongIdleRefuses(ip: IpAddr, n: nat, late: int)
    requires n == BURST && late == 4_294_967_297_000_000_000
    ensures
      var times := Zeros(n) + [late];
      && AllAdmitted(ip, times) && Conforms(times, late)
      && !Admitted(Run(Stream(ip, times)), Poll(ip, late, None))
  {
    BurstCredit(n);
    BurstIsAdmitted(ip, n);
    RefusedAfter(ip, Zeros(n), late);
  }

  lemma {:induction false} ZerosAreZero(n: nat)
    ensures |Zeros(n)| == n && forall k :: 0 <= k < n ==> Zeros(n)[k] == 0
  {
    if n > 0 {
      ZerosAreZero(n - 1);
    }
  }

  lemma {:induction false} PlainAfterBurst(times: seq<int>, second: int, third: int)
    requires |times| == 32 && (forall k :: 0 <= k < 30 ==> times[k] == 0) && times[30] == second && times[31] == third
    requires 1_000 * 1_000_000 <= second <= third && 2_000 * 1_000_000 <= third
    ensures PlainlyConforming(times)
  {
    forall k, i | 0 <= k < 32 && 0 <= i < k
      ensures 1_000 * (k - i + 1) * 1_000_000 <= 30_000 * 1_000_000 + (times[k] - times[..k][i])
    {
    }
  }

  lemma {:induction false} DropsPart(times: seq<int>, second: int, third: int)
    requires times != [] && times[|times| - 1] == 0 && CountedCredit(times) == 0
    requires second == 1_000_900_000 && third == 2_000_000_000
    ensures CountedHeld(times, second) == 1_000 && CountedHeld(times + [second], third) == 999
  {
    ShortGap(second, third);
    CreditPush(times, second);
    LastOf(times, second);
  }

  lemma {:induction false} LastOf(times: seq<int>, now: int)
    ensures (times + [now])[|times + [now]| - 1] == now
  {
  }

  lemma {:induction false} ShortGap(second: int, third: int)
    requires second == 1_000_900_000 && third == 2_000_000_000
    ensures WholeMs(0, second) == 1_000 && WholeMs(second, third) == 999
    ensures Counted(0, 1_000) == 1_000 && Counted(0, 999) == 999 && Spent(1_000) == 0
  {
  }

  /** On a finer clock the plain rate is not enough: a burst, a poll 1000.9 ms later that is admitted and
      drops 0.9 ms, and one at 2000 ms that is refused. */
  lemma {:induction false} PlainRateMayBeRefused(ip: IpAddr, n: nat, second: int, third: int)
    requires n == BURST && second == 1_000_900_000 && third == 2_000_000_000
    ensures
      var times := Zeros(n) + [second];
      && AllAdmitted(ip, times) && PlainlyConforming(times + [third])
      && !Admitted(Run(Stream(ip, times)), Poll(ip, third, None))
  {
    var burst := Zeros(n);
    BurstCredit(n);
    BurstIsAdmitted(ip, n);
    ZerosAreZero(n);
    DropsPart(burst, second, third);
    OneMore(ip, burst, second);
    RefusedNext(ip, burst + [second], third);
    PlainAfterBurst(burst + [second] + [third], second, third);
  }

  // ----------------------------------------------------------------- Few addresses

  function AddressesOf(es: seq<Poll>): set<IpAddr> {
    if es == [] then {} else AddressesOf(es[..|es| - 1]) + {es[|es| - 1].ip}
  }

  lemma {:induction false} OnlyPolledAreHeld(es: seq<Poll>)
    requires Valid(es)
    ensures Run(es).book.Keys <= AddressesOf(es)
  {
    if es != [] {
      OnlyPolledAreHeld(es[..|es| - 1]);
    }
  }

  lemma {:induction false} SmallerSet<T>(a: set<T>, b: set<T>)
    requires a <= b
    ensures |a| <= |b|
  {
    assert b == a + (b - a);
  }

  /** No address is ever evicted in a run with at most 4096 of them. */
  lemma {:induction false} FewAddressesStay(es: seq<Poll>, ip: IpAddr)
    requires Valid(es) && |AddressesOf(es)| <= 4_096
    ensures NeverEvicted(es, ip)
  {
    if es != [] {
      var before, e := es[..|es| - 1], es[|es| - 1];
      SmallerSet(AddressesOf(before), AddressesOf(es));
      FewAddressesStay(before, ip);
      NoVictim(before, e, AddressesOf(es));
      NeverEvictedPush(es, ip);
    }
  }

  lemma {:induction false} NeverEvictedPush(es: seq<Poll>, ip: IpAddr)
    requires es != [] && NeverEvicted(es[..|es| - 1], ip) && es[|es| - 1].victim != Some(ip)
    ensures NeverEvicted(es, ip)
  {
    assert es == es[..|es| - 1] + [es[|es| - 1]];
  }

  lemma {:induction false} NoVictim(before: seq<Poll>, e: Poll, addresses: set<IpAddr>)
    requires Valid(before) && Possible(Run(before), e)
    requires AddressesOf(before) <= addresses && e.ip in addresses && |addresses| <= MAX_IPS
    ensures e.victim.None?
  {
    OnlyPolledAreHeld(before);
    var held := Run(before).book.Keys;
    SmallerSet(held + {e.ip}, addresses);
  }
}
