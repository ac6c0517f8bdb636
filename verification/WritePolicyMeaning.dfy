/** Which events the write policy accepts, in terms of the events, the lists and the runs alone. */
module WritePolicyMeaning {
  import opened ReadPolicy
  import opened SlidingWindow
  import opened Text
  import opened WritePolicy
  import opened WritePolicyHistory
  import opened Wrappers

  // ---------------------------------------------------------------------- The rule

  predicate HasValue(tag: Tag, name: string) {
    |tag| >= 2 && tag[0] == name
  }

  /** Tag `i` is the first with this name and a value. */
  ghost predicate IsFirst(tags: seq<Tag>, name: string, i: int) {
    0 <= i < |tags| && HasValue(tags[i], name) && forall j :: 0 <= j < i ==> !HasValue(tags[j], name)
  }

  /** Tag `i` names a recipient on the allowlist. */
  predicate NamesMember(tags: seq<Tag>, allowlist: set<string>, i: nat)
    requires i < |tags|
  {
    HasValue(tags[i], "p") && Lower(tags[i][1]) in allowlist
  }

  ghost predicate IsFirstMember(tags: seq<Tag>, allowlist: set<string>, i: int) {
    0 <= i < |tags| && NamesMember(tags, allowlist, i) && forall j :: 0 <= j < i ==> !NamesMember(tags, allowlist, j)
  }

  /** A gift wrap goes to a member; anything else comes from one. */
  ghost predicate InvolvesMember(lists: Lists, event: EventInfo) {
    if event.kind == 1059 then exists i :: 0 <= i < |event.tags| && NamesMember(event.tags, lists.allowlist, i)
    else event.pubkey in lists.allowlist
  }

  /** A group that the event names has its author among its writers. */
  ghost predicate InGroup(lists: Lists, event: EventInfo) {
    forall i :: IsFirst(event.tags, "h", i) ==>
      event.tags[i][1] in lists.groups && event.pubkey in lists.groups[event.tags[i][1]]
  }

  ghost predicate MayPost(config: PolicyConfig, lists: Lists, event: EventInfo) {
    && event.kind != 4
    && event.kind in config.allowedKinds
    && InvolvesMember(lists, event)
    && (config.enforceGroups ==> InGroup(lists, event))
  }

  /** Who sends a gift wrap: the key the connection proved, when it is one, else the author. */
  ghost predicate IsSender(event: EventInfo, sender: string) {
    if event.authed.Some? && IsHex64(Lower(Trim(event.authed.value))) then sender == Lower(Trim(event.authed.value))
    else sender == Lower(event.pubkey)
  }

  /** The bucket the event counts in: its author's, or its sender's with the first member it names. */
  ghost predicate CountsIn(lists: Lists, event: EventInfo, key: string) {
    if event.kind == 1059 then
      exists i, sender :: && IsFirstMember(event.tags, lists.allowlist, i) && IsSender(event, sender)
                          && key == "gift:" + sender + ":" + Lower(event.tags[i][1])
    else key == event.pubkey
  }

  // ------------------------------------------------------------- The screen keeps it

  lemma {:induction false} FirstValueIsFirst(tags: seq<Tag>, name: string)
    ensures
      match FirstValue(tags, name)
      case None => forall i :: 0 <= i < |tags| ==> !HasValue(tags[i], name)
      case Some(v) => exists i :: IsFirst(tags, name, i) && tags[i][1] == v
  {
    if tags != [] {
      if HasValue(tags[0], name) {
        assert IsFirst(tags, name, 0);
      } else {
        var rest := tags[1..];
        FirstValueIsFirst(rest, name);
        assert forall i :: 0 <= i < |rest| ==> rest[i] == tags[i + 1];
        if FirstValue(rest, name).Some? {
          var i :| IsFirst(rest, name, i) && Some(rest[i][1]) == FirstValue(rest, name);
          assert IsFirst(tags, name, i + 1);
        } else {
          forall i | 0 <= i < |tags|
            ensures !HasValue(tags[i], name)
          {
            assert i > 0 ==> !HasValue(rest[i - 1], name);
          }
        }
      }
    }
  }

  lemma {:induction false} OneFirst(tags: seq<Tag>, name: string, i: int, j: int)
    requires IsFirst(tags, name, i) && IsFirst(tags, name, j)
    ensures i == j
  {
  }

  lemma {:induction false} OneFirstMember(tags: seq<Tag>, allowlist: set<string>, i: int, j: int)
    requires IsFirstMember(tags, allowlist, i) && IsFirstMember(tags, allowlist, j)
    ensures i == j
  {
  }

  lemma {:induction false} GroupMeaning(lists: Lists, event: EventInfo)
    ensures event.GroupId().None? ==> InGroup(lists, event)
    ensures event.GroupId().Some? ==>
      (InGroup(lists, event) <==> event.GroupId().value in lists.groups && event.pubkey in lists.groups[event.GroupId().value])
  {
    FirstValueIsFirst(event.tags, "h");
    if event.GroupId().Some? {
      var i :| IsFirst(event.tags, "h", i) && event.tags[i][1] == event.GroupId().value;
      forall j | IsFirst(event.tags, "h", j)
        ensures event.tags[j][1] == event.GroupId().value
      {
        OneFirst(event.tags, "h", i, j);
      }
    }
  }

  lemma {:induction false} MemberMeaning(lists: Lists, tags: seq<Tag>)
    ensures AllowlistedRecipient(tags, lists.allowlist).Some? <==>
      exists i :: 0 <= i < |tags| && NamesMember(tags, lists.allowlist, i)
    ensures forall i :: IsFirstMember(tags, lists.allowlist, i) ==>
      AllowlistedRecipient(tags, lists.allowlist) == Some(Lower(tags[i][1]))
    ensures AllowlistedRecipient(tags, lists.allowlist).Some? ==> exists i :: IsFirstMember(tags, lists.allowlist, i)
  {
    RecipientIsFirst(tags, lists.allowlist);
    assert forall i :: 0 <= i < |tags| ==> NamesMember(tags, lists.allowlist, i) == NamesRecipient(tags[i], lists.allowlist);
    if AllowlistedRecipient(tags, lists.allowlist).Some? {
      var i :| IsFirstRecipient(tags, lists.allowlist, i) && Some(Lower(tags[i][1])) == AllowlistedRecipient(tags, lists.allowlist);
      assert IsFirstMember(tags, lists.allowlist, i);
      forall j | IsFirstMember(tags, lists.allowlist, j)
        ensures j == i
      {
        OneFirstMember(tags, lists.allowlist, i, j);
      }
    }
  }

  lemma {:induction false} SenderMeaning(event: EventInfo, sender: string)
    ensures IsSender(event, sender) <==> sender == GiftSender(event)
  {
  }

  lemma {:induction false} KeyMeaning(config: PolicyConfig, lists: Lists, event: EventInfo)
    ensures RateKey(config, lists, event).Ok? <==>
      event.kind != 4 && event.kind in config.allowedKinds && InvolvesMember(lists, event)
    ensures RateKey(config, lists, event).Ok? ==>
      forall key :: CountsIn(lists, event, key) <==> key == RateKey(config, lists, event).value
  {
    if event.kind == 1059 {
      MemberMeaning(lists, event.tags);
      SenderMeaning(event, GiftSender(event));
      if RateKey(config, lists, event).Ok? {
        var i :| IsFirstMember(event.tags, lists.allowlist, i);
        forall key
          ensures CountsIn(lists, event, key) <==> key == RateKey(config, lists, event).value
        {
          WrapKeyMeaning(lists, event, i, key);
        }
      }
    }
  }

  lemma {:induction false} WrapKeyMeaning(lists: Lists, event: EventInfo, i: int, key: string)
    requires event.kind == 1059 && IsFirstMember(event.tags, lists.allowlist, i)
    ensures CountsIn(lists, event, key) <==> key == "gift:" + GiftSender(event) + ":" + Lower(event.tags[i][1])
  {
    SenderMeaning(event, GiftSender(event));
    forall j, sender | IsFirstMember(event.tags, lists.allowlist, j) && IsSender(event, sender)
      ensures j == i && sender == GiftSender(event)
    {
      OneFirstMember(event.tags, lists.allowlist, i, j);
      SenderMeaning(event, sender);
    }
    assert IsFirstMember(event.tags, lists.allowlist, i) && IsSender(event, GiftSender(event));
  }

  lemma {:induction false} ScreenMeaning(config: PolicyConfig, lists: Lists, event: EventInfo)
    ensures Screen(config, lists, event).Ok? <==> MayPost(config, lists, event)
    ensures Screen(config, lists, event).Ok? ==>
      forall key :: CountsIn(lists, event, key) <==> key == Screen(config, lists, event).value
  {
    KeyMeaning(config, lists, event);
    GroupMeaning(lists, event);
  }

  // ------------------------------------------------------------------ The whole run

  /** The lists that the last reload installed. */
  function ListsAt(steps: seq<Step>): Lists {
    if steps == [] then Lists({}, map[])
    else if steps[|steps| - 1].Reload? then steps[|steps| - 1].lists
    else ListsAt(steps[..|steps| - 1])
  }

  /** The instants of the events of the run that could be posted and count in this bucket. */
  ghost function Attempts(config: PolicyConfig, steps: seq<Step>, key: string): seq<nat> {
    if steps == [] then []
    else
      var front, step := steps[..|steps| - 1], steps[|steps| - 1];
      Attempts(config, front, key) +
      (if step.Evaluate? && MayPost(config, ListsAt(front), step.event) && CountsIn(ListsAt(front), step.event, key)
       then [step.now] else [])
  }

  lemma {:induction false} StepLogs(facts: Facts, config: PolicyConfig, step: Step, key: string)
    ensures
      At(FactsAfter(facts, config, step).attempts, key) == At(facts.attempts, key) +
        (if step.Evaluate? && MayPost(config, facts.lists, step.event) && CountsIn(facts.lists, step.event, key) then [step.now] else [])
  {
    if step.Evaluate? {
      ScreenMeaning(config, facts.lists, step.event);
    }
  }

  /** The log that decides is that of the run. */
  lemma {:induction false} LogIsAttempts(config: PolicyConfig, steps: seq<Step>, key: string)
    ensures Run(config, steps).facts.lists == ListsAt(steps)
    ensures At(Run(config, steps).facts.attempts, key) == Attempts(config, steps, key)
  {
    if steps != [] {
      var front, step := steps[..|steps| - 1], steps[|steps| - 1];
      LogIsAttempts(config, front, key);
      StepLogs(Run(config, front).facts, config, step, key);
    }
  }

  /** What the engine decides on `event` after the run. */
  function DecisionAfter(config: PolicyConfig, steps: seq<Step>, event: EventInfo, now: nat): Decision {
    var h := Run(config, steps);
    AfterEvaluate(h.buckets, config, h.facts.lists, event, now).1
  }

  ghost predicate HasRoom(config: PolicyConfig, steps: seq<Step>, event: EventInfo, now: nat) {
    forall key :: CountsIn(ListsAt(steps), event, key) ==>
      |Recent(Attempts(config, steps, key), now, config.window)| + 1 <= config.limit
  }

  /** Exactly what is accepted, in every run: an event that may be posted under the lists of the moment,
      while the attempts in its bucket, this one included, are within the limit. */
  lemma {:induction false} AcceptedExactly(config: PolicyConfig, steps: seq<Step>, event: EventInfo, now: nat)
    requires ClockRises(steps, now)
    ensures DecisionAfter(config, steps, event, now) == Accept <==>
      MayPost(config, ListsAt(steps), event) && HasRoom(config, steps, event, now)
  {
    var h := Run(config, steps);
    DecisionMatchesLog(config, steps, event, now);
    LogIsAttempts(config, steps, "");
    ScreenMeaning(config, ListsAt(steps), event);
    var screen := Screen(config, ListsAt(steps), event);
    if screen.Ok? {
      LogIsAttempts(config, steps, screen.value);
      assert CountsIn(ListsAt(steps), event, screen.value);
    }
  }

  /** And why the others are refused, in the order in which the engine looks. */
  lemma {:induction false} RefusedExactly(config: PolicyConfig, steps: seq<Step>, event: EventInfo, now: nat)
    requires ClockRises(steps, now)
    ensures
      var lists, decision := ListsAt(steps), DecisionAfter(config, steps, event, now);
      && (decision == Reject(PlainDm) <==> event.kind == 4)
      && (decision == Reject(RecipientNotAllowed) <==>
            event.kind == 1059 && 1059 in config.allowedKinds && !InvolvesMember(lists, event))
      && (decision == Reject(AuthorNotAllowed) <==> event.kind != 4 && event.kind != 1059 && !InvolvesMember(lists, event))
      && (decision == Reject(KindNotAllowed(event.kind)) <==>
            event.kind != 4 && event.kind !in config.allowedKinds && (event.kind != 1059 ==> InvolvesMember(lists, event)))
      && (decision == Reject(RateLimited) <==> MayPost(config, lists, event) && !HasRoom(config, steps, event, now))
  {
    var screen := Screen(config, ListsAt(steps), event);
    AcceptedExactly(config, steps, event, now);
    DecisionMatchesLog(config, steps, event, now);
    LogIsAttempts(config, steps, "");
    ScreenMeaning(config, ListsAt(steps), event);
    KeyMeaning(config, ListsAt(steps), event);
    MemberMeaning(ListsAt(steps), event.tags);
  }

  lemma {:induction false} RefusedForGroupExactly(config: PolicyConfig, steps: seq<Step>, event: EventInfo, now: nat, groupId: string)
    requires ClockRises(steps, now)
    ensures
      var lists, decision := ListsAt(steps), DecisionAfter(config, steps, event, now);
      var refusable := event.kind != 4 && event.kind in config.allowedKinds && InvolvesMember(lists, event)
        && config.enforceGroups && exists i :: IsFirst(event.tags, "h", i) && event.tags[i][1] == groupId;
      && (decision == Reject(UnknownGroup(groupId)) <==> refusable && groupId !in lists.groups)
      && (decision == Reject(NotInGroup(groupId)) <==> refusable && groupId in lists.groups && event.pubkey !in lists.groups[groupId])
  {
    DecisionMatchesLog(config, steps, event, now);
    LogIsAttempts(config, steps, "");
    KeyMeaning(config, ListsAt(steps), event);
    FirstValueIsFirst(event.tags, "h");
    if event.GroupId().Some? {
      var i :| IsFirst(event.tags, "h", i) && event.tags[i][1] == event.GroupId().value;
      forall j | IsFirst(event.tags, "h", j)
        ensures j == i
      {
        OneFirst(event.tags, "h", i, j);
      }
    }
  }

  // -------------------------------------------------------------------- The sweeper

  /** A sweep keeps exactly the stamps that are younger than the window, and no bucket without one. */
  lemma {:induction false} SweepExactly(buckets: Buckets, config: PolicyConfig, now: nat, key: string, t: nat)
    ensures key in AfterPrune(buckets, config, now) <==>
      key in buckets && exists u :: u in buckets[key] && Since(now, u) < config.window
    ensures key in AfterPrune(buckets, config, now) ==>
      (t in AfterPrune(buckets, config, now)[key] <==> t in buckets[key] && Since(now, t) < config.window)
  {
    if key in buckets {
      RecentMembers(buckets[key], now, config.window, t);
      RecentSome(buckets[key], now, config.window);
    }
  }

  lemma {:induction false} RecentSome(stamps: seq<nat>, now: nat, window: nat)
    ensures Recent(stamps, now, window) != [] <==> exists u :: u in stamps && Since(now, u) < window
  {
    if Recent(stamps, now, window) != [] {
      var u := Recent(stamps, now, window)[0];
      assert u in Recent(stamps, now, window);
      RecentMembers(stamps, now, window, u);
    }
    if u :| u in stamps && Since(now, u) < window {
      RecentMembers(stamps, now, window, u);
    }
  }
}
