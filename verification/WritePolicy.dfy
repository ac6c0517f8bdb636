/** The write-policy engine: kind, allowlist and roster checks, then a rate limit per
    author, or per sender and recipient for gift wraps. */
module WritePolicy {
  import opened Directory
  import opened GiftKeys
  import opened ReadPolicy
  import opened SlidingWindow
  import opened Text
  import opened Wrappers

  datatype Reason =
    | PlainDm
    | KindNotAllowed(kind: nat)
    | RecipientNotAllowed
    | AuthorNotAllowed
    | NotInGroup(groupId: string)
    | UnknownGroup(groupId: string)
    | RateLimited

  datatype Decision = Accept | Reject(reason: Reason)

  /** `window` is in nanoseconds. */
  datatype PolicyConfig = PolicyConfig(limit: nat, window: nat, allowedKinds: set<nat>, enforceGroups: bool)

  datatype EventInfo = EventInfo(id: string, pubkey: string, kind: nat, tags: seq<Tag>, authed: Option<string>) {

    /** The value of the first `h` tag that has one, as it stands. */
    function GroupId(): Option<string> {
      FirstValue(tags, "h")
    }
  }

  function FirstValue(tags: seq<Tag>, name: string): Option<string> {
    if tags == [] then None
    else if |tags[0]| >= 2 && tags[0][0] == name then Some(tags[0][1])
    else FirstValue(tags[1..], name)
  }

  function GiftSender(event: EventInfo): string {
    if event.authed.Some? && IsHex64(Canonical(event.authed.value)) then Canonical(event.authed.value)
    else Lower(event.pubkey)
  }

  function AllowlistedRecipient(tags: seq<Tag>, allowlist: set<string>): Option<string> {
    if tags == [] then None
    else if |tags[0]| >= 2 && tags[0][0] == "p" && Lower(tags[0][1]) in allowlist then Some(Lower(tags[0][1]))
    else AllowlistedRecipient(tags[1..], allowlist)
  }

  predicate NamesRecipient(tag: Tag, allowlist: set<string>) {
    |tag| >= 2 && tag[0] == "p" && Lower(tag[1]) in allowlist
  }

  /** The first `p` tag whose value, in lower case, is allowlisted. */
  ghost predicate IsFirstRecipient(tags: seq<Tag>, allowlist: set<string>, i: int) {
    0 <= i < |tags| && NamesRecipient(tags[i], allowlist) && forall j :: 0 <= j < i ==> !NamesRecipient(tags[j], allowlist)
  }

  /** The recipient is the one that this tag names, and there is none only where no tag names one. */
  lemma {:induction false} RecipientIsFirst(tags: seq<Tag>, allowlist: set<string>)
    ensures
      match AllowlistedRecipient(tags, allowlist)
      case None => forall i :: 0 <= i < |tags| ==> !NamesRecipient(tags[i], allowlist)
      case Some(recipient) => exists i :: IsFirstRecipient(tags, allowlist, i) && Lower(tags[i][1]) == recipient
  {
    if tags != [] {
      if NamesRecipient(tags[0], allowlist) {
        assert IsFirstRecipient(tags, allowlist, 0);
      } else {
        var rest := tags[1..];
        RecipientIsFirst(rest, allowlist);
        if AllowlistedRecipient(rest, allowlist).Some? {
          var i :| IsFirstRecipient(rest, allowlist, i) && Some(Lower(rest[i][1])) == AllowlistedRecipient(rest, allowlist);
          assert IsFirstRecipient(tags, allowlist, i + 1);
        }
      }
    }
  }

  /** The lists that a reload replaces. */
  datatype Lists = Lists(allowlist: set<string>, groups: GroupWriters)

  /** The bucket that an event is charged to, or why it is refused before it reaches one. */
  function RateKey(config: PolicyConfig, lists: Lists, event: EventInfo): Result<string, Reason> {
    if event.kind == PLAIN_DM_KIND then
      Err(PlainDm)
    else if event.kind == GIFT_WRAP_KIND then
      if event.kind !in config.allowedKinds then Err(KindNotAllowed(event.kind))
      else
        match AllowlistedRecipient(event.tags, lists.allowlist)
        case None => Err(RecipientNotAllowed)
        case Some(recipient) => Ok(GiftKey(GiftSender(event), recipient))
    else if event.pubkey !in lists.allowlist then Err(AuthorNotAllowed)
    else if event.kind !in config.allowedKinds then Err(KindNotAllowed(event.kind))
    else Ok(event.pubkey)
  }

  function Screen(config: PolicyConfig, lists: Lists, event: EventInfo): Result<string, Reason> {
    var key := RateKey(config, lists, event);
    if key.Err? || !config.enforceGroups || event.GroupId().None? then key
    else
      var groupId := event.GroupId().value;
      if groupId !in lists.groups then Err(UnknownGroup(groupId))
      else if event.pubkey !in lists.groups[groupId] then Err(NotInGroup(groupId))
      else key
  }

  /** The stamps strictly after `cutoff`. */
  function After(stamps: seq<nat>, cutoff: int): seq<nat> {
    if stamps == [] then []
    else
      var last := |stamps| - 1;
      After(stamps[..last], cutoff) + (if stamps[last] > cutoff then [stamps[last]] else [])
  }

  type Buckets = map<string, seq<nat>>

  function Charge(buckets: Buckets, config: PolicyConfig, key: string, now: nat): Buckets {
    buckets[key := After(At(buckets, key), now - config.window) + [now]]
  }

  function AfterEvaluate(buckets: Buckets, config: PolicyConfig, lists: Lists, event: EventInfo, now: nat): (Buckets, Decision) {
    match Screen(config, lists, event)
    case Err(reason) => (buckets, Reject(reason))
    case Ok(key) =>
      var charged := Charge(buckets, config, key, now);
      (charged, if |charged[key]| > config.limit then Reject(RateLimited) else Accept)
  }

  function AfterPrune(buckets: Buckets, config: PolicyConfig, now: nat): Buckets {
    map key | key in buckets && Recent(buckets[key], now, config.window) != [] ::
      Recent(buckets[key], now, config.window)
  }

  class PolicyEngine {
    const config: PolicyConfig
    var lists: Lists
    var rateBuckets: Buckets

    constructor (config: PolicyConfig)
      ensures this.config == config && lists == Lists({}, map[]) && rateBuckets == map[]
    {
      this.config := config;
      lists := Lists({}, map[]);
      rateBuckets := map[];
    }

    method UpdateAllowlist(pubkeys: set<string>)
      modifies this`lists
      ensures lists == old(lists).(allowlist := pubkeys)
    {
      lists := lists.(allowlist := pubkeys);
    }

    method UpdateGroupMembers(groups: GroupWriters)
      modifies this`lists
      ensures lists == old(lists).(groups := groups)
    {
      lists := lists.(groups := groups);
    }

    method Evaluate(event: EventInfo, now: nat) returns (decision: Decision)
      modifies this`rateBuckets
      ensures rateBuckets == AfterEvaluate(old(rateBuckets), config, lists, event, now).0
      ensures decision == AfterEvaluate(old(rateBuckets), config, lists, event, now).1
    {
      if event.kind == PLAIN_DM_KIND {
        return Reject(PlainDm);
      }
      var rateKey;
      if event.kind == GIFT_WRAP_KIND {
        if event.kind !in config.allowedKinds {
          return Reject(KindNotAllowed(event.kind));
        }
        var recipient := FindRecipient(event.tags);
        if recipient.None? {
          return Reject(RecipientNotAllowed);
        }
        rateKey := GiftKey(GiftSender(event), recipient.value);
      } else if event.pubkey !in lists.allowlist {
        return Reject(AuthorNotAllowed);
      } else if event.kind !in config.allowedKinds {
        return Reject(KindNotAllowed(event.kind));
      } else {
        rateKey := event.pubkey;
      }
      if config.enforceGroups {
        var groupId := FindGroupId(event.tags);
        if groupId.Some? {
          if groupId.value !in lists.groups {
            return Reject(UnknownGroup(groupId.value));
          }
          if event.pubkey !in lists.groups[groupId.value] {
            return Reject(NotInGroup(groupId.value));
          }
        }
      }
      assert Screen(config, lists, event) == Ok(rateKey);
      if rateKey !in rateBuckets {
        rateBuckets := rateBuckets[rateKey := []];
      }
      var stamps := After(rateBuckets[rateKey], now - config.window) + [now];
      rateBuckets := rateBuckets[rateKey := stamps];
      assert rateBuckets == Charge(old(rateBuckets), config, rateKey, now);
      if |stamps| > config.limit {
        return Reject(RateLimited);
      }
      decision := Accept;
    }

    method FindRecipient(tags: seq<Tag>) returns (recipient: Option<string>)
      ensures recipient == AllowlistedRecipient(tags, lists.allowlist)
    {
      assert tags[0..] == tags;
      for i := 0 to |tags|
        invariant AllowlistedRecipient(tags, lists.allowlist) == AllowlistedRecipient(tags[i..], lists.allowlist)
      {
        assert tags[i..][1..] == tags[i + 1..];
        if |tags[i]| >= 2 && tags[i][0] == "p" {
          var pubkey := Lower(tags[i][1]);
          if pubkey in lists.allowlist {
            return Some(pubkey);
          }
        }
      }
      recipient := None;
    }

    method FindGroupId(tags: seq<Tag>) returns (groupId: Option<string>)
      ensures groupId == FirstValue(tags, "h")
    {
      assert tags[0..] == tags;
      for i := 0 to |tags|
        invariant FirstValue(tags, "h") == FirstValue(tags[i..], "h")
      {
        assert tags[i..][1..] == tags[i + 1..];
        if |tags[i]| >= 2 && tags[i][0] == "h" {
          return Some(tags[i][1]);
        }
      }
      groupId := None;
    }

    method PruneRateBucketsAt(now: nat)
      modifies this`rateBuckets
      ensures rateBuckets == AfterPrune(old(rateBuckets), config, now)
    {
      var rest := rateBuckets.Keys;
      var kept: Buckets := map[];
      while rest != {}
        invariant rest <= rateBuckets.Keys && rateBuckets == old(rateBuckets)
        invariant forall key :: key in kept <==>
          key in rateBuckets && key !in rest && Recent(rateBuckets[key], now, config.window) != []
        invariant forall key :: key in kept ==> kept[key] == Recent(rateBuckets[key], now, config.window)
      {
        var key :| key in rest;
        rest := rest - {key};
        var stamps := Recent(rateBuckets[key], now, config.window);
        if stamps != [] {
          kept := kept[key := stamps];
        }
      }
      rateBuckets := kept;
    }
  }
}
