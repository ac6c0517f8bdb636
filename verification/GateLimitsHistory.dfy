/** The gate limits over every interleaving of admits, drops and messages, against
    logs that are never pruned. */
module GateLimitsHistory {
  import opened GateLimits
  import opened Net
  import opened SlidingWindow

  datatype Event =
    | Admit(ip: IpAddr, now: nat)
    | Message(ip: IpAddr, now: nat)
    | Drop(ip: IpAddr, now: nat)

  /** What really happened for one address: every connection attempt, the admitted ones, the
      allowed messages, and the number of slots handed out and not yet dropped. */
  datatype Facts = Facts(attempts: seq<nat>, admitted: seq<nat>, messages: seq<nat>, live: nat)

  datatype History = History(book: Book, facts: map<IpAddr, Facts>, now: nat)

  const START := History(map[], map[], 0)

  function FactsOf(h: History, ip: IpAddr): Facts {
    if ip in h.facts then h.facts[ip] else Facts([], [], [], 0)
  }

  /** The clock does not go back, and only a live slot can be dropped. */
  predicate Possible(h: History, e: Event) {
    h.now <= e.now && (e.Drop? ==> FactsOf(h, e.ip).live > 0)
  }

  function BookAfter(h: History, caps: Caps, e: Event): Book {
    match e
    case Admit(ip, now) => AfterAdmit(h.book, caps, ip, now).0
    case Message(ip, now) => AfterMessage(h.book, caps, ip, now).0
    case Drop(ip, now) => AfterDrop(h.book, caps, ip, now)
  }

  /** The gate's answer: admitted, or allowed. */
  predicate Answer(h: History, caps: Caps, e: Event) {
    match e
    case Admit(ip, now) => AfterAdmit(h.book, caps, ip, now).1
    case Message(ip, now) => AfterMessage(h.book, caps, ip, now).1
    case Drop(_, _) => true
  }

  function FactsAfter(facts: Facts, e: Event, answer: bool): Facts {
    match e
    case Admit(_, now) =>
      if answer
      then facts.(attempts := facts.attempts + [now], admitted := facts.admitted + [now], live := facts.live + 1)
      else facts.(attempts := facts.attempts + [now])
    case Message(_, now) => if answer then facts.(messages := facts.messages + [now]) else facts
    case Drop(_, _) => facts.(live := if facts.live == 0 then 0 else facts.live - 1)
  }

  function Next(h: History, caps: Caps, e: Event): History {
    History(
      BookAfter(h, caps, e),
      h.facts[e.ip := FactsAfter(FactsOf(h, e.ip), e, Answer(h, caps, e))],
      e.now)
  }

  function Run(caps: Caps, es: seq<Event>): History {
    if es == [] then START else Next(Run(caps, es[..|es| - 1]), caps, es[|es| - 1])
  }

  ghost predicate Valid(caps: Caps, es: seq<Event>) {
    es == [] || (Valid(caps, es[..|es| - 1]) && Possible(Run(caps, es[..|es| - 1]), es[|es| - 1]))
  }

  /** The answer that the unpruned facts call for. Both ends of a window belong to it. */
  predicate SpecAnswer(facts: Facts, caps: Caps, e: Event) {
    match e
    case Admit(_, now) =>
      && |Recent(facts.attempts + [now], now, caps.window + 1)| <= caps.maxNew
      && facts.live < caps.maxConnections
    case Message(_, now) => |Recent(facts.messages, now, caps.window + 1)| < caps.maxMessages
    case Drop(_, _) => true
  }

  // ------------------------------------------------------- Bucket against facts

  ghost predicate QueueAgrees(queue: seq<nat>, log: seq<nat>, caps: Caps, now: nat) {
    && Ordered(queue, now)
    && Ordered(log, now)
    && Recent(queue, now, caps.window + 1) == Recent(log, now, caps.window + 1)
  }

  ghost predicate BucketAgrees(bucket: Bucket, facts: Facts, caps: Caps, now: nat) {
    && bucket.connections == facts.live <= caps.maxConnections
    && QueueAgrees(bucket.connTimes, facts.attempts, caps, now)
    && QueueAgrees(bucket.msgTimes, facts.messages, caps, now)
  }

  ghost predicate FactsOk(facts: Facts, caps: Caps, now: nat) {
    && Ordered(facts.admitted, now)
    && Capped(facts.admitted, caps.maxNew, caps.window + 1)
    && Capped(facts.messages, caps.maxMessages, caps.window + 1)
    && Covered(facts.admitted, facts.attempts, caps.window + 1)
  }

  ghost predicate IpAgrees(h: History, caps: Caps, ip: IpAddr) {
    && BucketAgrees(BucketOf(h.book, ip), FactsOf(h, ip), caps, h.now)
    && FactsOk(FactsOf(h, ip), caps, h.now)
  }

  lemma {:induction false} QueueAgreesLater(queue: seq<nat>, log: seq<nat>, caps: Caps, earlier: nat, now: nat)
    requires QueueAgrees(queue, log, caps, earlier) && earlier <= now
    ensures QueueAgrees(queue, log, caps, now)
    ensures PopStale(queue, now, caps.window) == Recent(log, now, caps.window + 1)
    ensures QueueAgrees(PopStale(queue, now, caps.window), log, caps, now)
  {
    RecentAgreesLater(queue, log, earlier, now, caps.window + 1);
    PopStaleIsRecent(queue, now, caps.window);
    RecentOfRecent(log, now, now, caps.window + 1);
  }

  lemma {:induction false} QueuePush(queue: seq<nat>, log: seq<nat>, caps: Caps, now: nat)
    requires QueueAgrees(queue, log, caps, now)
    ensures QueueAgrees(queue + [now], log + [now], caps, now)
  {
    RecentPush(queue, now, now, caps.window + 1);
    RecentPush(log, now, now, caps.window + 1);
    OrderedPush(queue, now);
    OrderedPush(log, now);
  }

  lemma {:induction false} PrunedAgrees(bucket: Bucket, facts: Facts, caps: Caps, earlier: nat, now: nat)
    requires BucketAgrees(bucket, facts, caps, earlier) && earlier <= now
    ensures BucketAgrees(bucket, facts, caps, now)
    ensures BucketAgrees(Pruned(bucket, caps, now), facts, caps, now)
    ensures Pruned(bucket, caps, now).connTimes == Recent(facts.attempts, now, caps.window + 1)
    ensures Pruned(bucket, caps, now).msgTimes == Recent(facts.messages, now, caps.window + 1)
  {
    QueueAgreesLater(bucket.connTimes, facts.attempts, caps, earlier, now);
    QueueAgreesLater(bucket.msgTimes, facts.messages, caps, earlier, now);
  }

  /** The stamp of an attempt, before it is judged. */
  lemma {:induction false} StampAgrees(bucket: Bucket, facts: Facts, caps: Caps, earlier: nat, now: nat)
    requires BucketAgrees(bucket, facts, caps, earlier) && earlier <= now
    ensures
      var pruned := Pruned(bucket, caps, now);
      && BucketAgrees(pruned.(connTimes := pruned.connTimes + [now]), facts.(attempts := facts.attempts + [now]), caps, now)
      && pruned.connTimes + [now] == Recent(facts.attempts + [now], now, caps.window + 1)
  {
    PrunedAgrees(bucket, facts, caps, earlier, now);
    RecentPush(facts.attempts, now, now, caps.window + 1);
    QueuePush(Pruned(bucket, caps, now).connTimes, facts.attempts, caps, now);
  }

  lemma {:induction false} AdmitIsAnswered(h: History, caps: Caps, ip: IpAddr, now: nat)
    requires IpAgrees(h, caps, ip) && h.now <= now
    ensures Answer(h, caps, Admit(ip, now)) <==> SpecAnswer(FactsOf(h, ip), caps, Admit(ip, now))
  {
    StampAgrees(BucketOf(h.book, ip), FactsOf(h, ip), caps, h.now, now);
  }

  lemma {:induction false} AdmitAgrees(h: History, caps: Caps, ip: IpAddr, now: nat)
    requires IpAgrees(h, caps, ip) && h.now <= now
    ensures BucketAgrees(BucketOf(AfterAdmit(h.book, caps, ip, now).0, ip), FactsOf(Next(h, caps, Admit(ip, now)), ip), caps, now)
  {
    var facts, admitted := FactsOf(h, ip), AfterAdmit(h.book, caps, ip, now).1;
    StampAgrees(BucketOf(h.book, ip), facts, caps, h.now, now);
    assert FactsOf(Next(h, caps, Admit(ip, now)), ip) == FactsAfter(facts, Admit(ip, now), admitted);
  }

  lemma {:induction false} MessageAgrees(h: History, caps: Caps, ip: IpAddr, now: nat)
    requires IpAgrees(h, caps, ip) && h.now <= now
    ensures
      var e := Message(ip, now);
      && (Answer(h, caps, e) <==> SpecAnswer(FactsOf(h, ip), caps, e))
      && BucketAgrees(BucketOf(BookAfter(h, caps, e), ip), FactsOf(Next(h, caps, e), ip), caps, now)
  {
    var facts := FactsOf(h, ip);
    PrunedAgrees(BucketOf(h.book, ip), facts, caps, h.now, now);
    QueuePush(Pruned(BucketOf(h.book, ip), caps, now).msgTimes, facts.messages, caps, now);
  }

  lemma {:induction false} DropAgrees(h: History, caps: Caps, ip: IpAddr, now: nat)
    requires IpAgrees(h, caps, ip) && h.now <= now && FactsOf(h, ip).live > 0
    ensures BucketAgrees(BucketOf(AfterDrop(h.book, caps, ip, now), ip), FactsOf(Next(h, caps, Drop(ip, now)), ip), caps, now)
  {
    var bucket, facts := BucketOf(h.book, ip), FactsOf(h, ip);
    assert ip in h.book;
    PrunedAgrees(bucket.(connections := bucket.connections - 1), facts.(live := facts.live - 1), caps, h.now, now);
  }

  /** The address the event is about. */
  lemma {:induction false} StepAgrees(h: History, caps: Caps, e: Event)
    requires IpAgrees(h, caps, e.ip) && Possible(h, e)
    ensures Answer(h, caps, e) <==> SpecAnswer(FactsOf(h, e.ip), caps, e)
    ensures BucketAgrees(BucketOf(BookAfter(h, caps, e), e.ip), FactsOf(Next(h, caps, e), e.ip), caps, e.now)
  {
    match e
    case Admit(ip, now) =>
      AdmitIsAnswered(h, caps, ip, now);
      AdmitAgrees(h, caps, ip, now);
    case Message(ip, now) => MessageAgrees(h, caps, ip, now);
    case Drop(ip, now) => DropAgrees(h, caps, ip, now);
  }

  lemma {:induction false} FactsStayOk(facts: Facts, caps: Caps, e: Event, earlier: nat)
    requires FactsOk(facts, caps, earlier) && Ordered(facts.attempts, earlier) && earlier <= e.now
    ensures FactsOk(FactsAfter(facts, e, SpecAnswer(facts, caps, e)), caps, e.now)
  {
    var window := caps.window + 1;
    match e
    case Admit(_, now) =>
      CoveredPush(facts.admitted, facts.attempts, now, window);
      if SpecAnswer(facts, caps, e) {
        OrderedPush(facts.admitted, now);
        assert |Recent(facts.admitted + [now], now, window)| <= |Recent(facts.attempts + [now], now, window)|;
        CappedPush(facts.admitted, now, caps.maxNew, window);
      }
    case Message(_, now) =>
      if SpecAnswer(facts, caps, e) {
        RecentPush(facts.messages, now, now, window);
        CappedPush(facts.messages, now, caps.maxMessages, window);
      }
    case Drop(_, _) =>
  }

  lemma {:induction false} OthersAgree(h: History, caps: Caps, e: Event, ip: IpAddr)
    requires IpAgrees(h, caps, ip) && h.now <= e.now && ip != e.ip
    ensures IpAgrees(Next(h, caps, e), caps, ip)
  {
    PrunedAgrees(BucketOf(h.book, ip), FactsOf(h, ip), caps, h.now, e.now);
  }

  lemma {:induction false} RunAgrees(caps: Caps, es: seq<Event>, ip: IpAddr)
    requires Valid(caps, es)
    ensures IpAgrees(Run(caps, es), caps, ip)
  {
    if es != [] {
      var h, e := Run(caps, es[..|es| - 1]), es[|es| - 1];
      RunAgrees(caps, es[..|es| - 1], ip);
      if ip == e.ip {
        StepAgrees(h, caps, e);
        FactsStayOk(FactsOf(h, e.ip), caps, e, h.now);
      } else {
        OthersAgree(h, caps, e, ip);
      }
    }
  }

  // ------------------------------------------------------------- Main theorems

  /** In every interleaving the pruned buckets, with idle ones removed, answer as the full logs do. */
  lemma {:induction false} AnswersMatchLog(caps: Caps, es: seq<Event>, e: Event)
    requires Valid(caps, es) && Possible(Run(caps, es), e)
    ensures Answer(Run(caps, es), caps, e) <==> SpecAnswer(FactsOf(Run(caps, es), e.ip), caps, e)
  {
    RunAgrees(caps, es, e.ip);
    StepAgrees(Run(caps, es), caps, e);
  }

  /** The connection count is the number of live slots and within its cap, and giving back a slot
      always finds a bucket that counts it: the saturating subtraction never saturates. */
  lemma {:induction false} ConnectionsAreLiveSlots(caps: Caps, es: seq<Event>, ip: IpAddr)
    requires Valid(caps, es)
    ensures BucketOf(Run(caps, es).book, ip).connections == FactsOf(Run(caps, es), ip).live <= caps.maxConnections
    ensures FactsOf(Run(caps, es), ip).live > 0 ==> ip in Run(caps, es).book && Run(caps, es).book[ip].connections > 0
  {
    RunAgrees(caps, es, ip);
  }

  /** The slots that are live are those admitted and not dropped. */
  function Admits(caps: Caps, es: seq<Event>, ip: IpAddr): nat {
    if es == [] then 0 else
      var e, before := es[|es| - 1], es[..|es| - 1];
      Admits(caps, before, ip) + (if e.Admit? && e.ip == ip && Answer(Run(caps, before), caps, e) then 1 else 0)
  }

  function Drops(es: seq<Event>, ip: IpAddr): nat {
    if es == [] then 0 else
      Drops(es[..|es| - 1], ip) + (if es[|es| - 1].Drop? && es[|es| - 1].ip == ip then 1 else 0)
  }

  lemma {:induction false} LiveIsAdmitsLessDrops(caps: Caps, es: seq<Event>, ip: IpAddr)
    requires Valid(caps, es)
    ensures FactsOf(Run(caps, es), ip).live == Admits(caps, es, ip) - Drops(es, ip)
  {
    if es != [] {
      LiveIsAdmitsLessDrops(caps, es[..|es| - 1], ip);
    }
  }

  /** No closed window holds more admitted connections than its cap. */
  lemma {:induction false} AdmittedWithinCap(caps: Caps, es: seq<Event>, ip: IpAddr, i: nat, j: nat)
    requires Valid(caps, es)
    requires i <= j < |FactsOf(Run(caps, es), ip).admitted|
    requires FactsOf(Run(caps, es), ip).admitted[j] - FactsOf(Run(caps, es), ip).admitted[i] <= caps.window
    ensures j - i + 1 <= caps.maxNew
  {
    RunAgrees(caps, es, ip);
    CappedSpan(FactsOf(Run(caps, es), ip).admitted, caps.maxNew, caps.window + 1, Run(caps, es).now, i, j);
  }

  /** No closed window holds more allowed messages than its cap. */
  lemma {:induction false} MessagesWithinCap(caps: Caps, es: seq<Event>, ip: IpAddr, i: nat, j: nat)
    requires Valid(caps, es)
    requires i <= j < |FactsOf(Run(caps, es), ip).messages|
    requires FactsOf(Run(caps, es), ip).messages[j] - FactsOf(Run(caps, es), ip).messages[i] <= caps.window
    ensures j - i + 1 <= caps.maxMessages
  {
    RunAgrees(caps, es, ip);
    CappedSpan(FactsOf(Run(caps, es), ip).messages, caps.maxMessages, caps.window + 1, Run(caps, es).now, i, j);
  }

  /** A dropped slot leaves no idle bucket: what stays has a connection or a stamp of the closed window. */
  lemma {:induction false} DropLeavesNoIdle(caps: Caps, es: seq<Event>, ip: IpAddr, now: nat)
    requires Valid(caps, es) && Possible(Run(caps, es), Drop(ip, now))
    ensures
      var facts, after := FactsOf(Run(caps, es), ip), AfterDrop(Run(caps, es).book, caps, ip, now);
      ip in after <==> facts.live > 1 || Recent(facts.attempts, now, caps.window + 1) != []
                       || Recent(facts.messages, now, caps.window + 1) != []
  {
    var h := Run(caps, es);
    RunAgrees(caps, es, ip);
    var bucket, facts := BucketOf(h.book, ip), FactsOf(h, ip);
    assert ip in h.book;
    PrunedAgrees(bucket.(connections := bucket.connections - 1), facts.(live := facts.live - 1), caps, h.now, now);
  }
}
