/** An author can read back a group event that the write policy accepted, although the
    two sides look up the group and the membership by different rules. */
module ReadYourWrites {
  import opened Directory
  import opened MembershipIndexes
  import opened ReadPolicy
  import opened Text
  import opened WritePolicy
  import opened Wrappers

  /** The same event as the read gate sees it. */
  function ViewOf(event: EventInfo): EventView {
    EventView(Canonical(event.pubkey), event.kind, event.tags)
  }

  predicate Accepted(config: PolicyConfig, allowlist: set<string>, rows: Rows, buckets: Buckets, event: EventInfo, now: nat) {
    AfterEvaluate(buckets, config, Lists(allowlist, GroupWritersOf(rows)), event, now).1 == Accept
  }

  predicate ReadableByAuthor(rows: Rows, event: EventInfo) {
    AllowEvent(Some(event.pubkey), ViewOf(event), DirectoryOf(rows)) == Ok(())
  }

  /** Neither a gift wrap nor group metadata, and in a group. */
  predicate IsGroupEvent(event: EventInfo) {
    && event.kind != GIFT_WRAP_KIND
    && !(GROUP_METADATA_KIND_MIN <= event.kind <= GROUP_METADATA_KIND_MAX)
    && event.GroupId().Some?
  }

  /** The write side takes the first value, the read side the first that is not blank: when the first
      is not blank they take the same tag. */
  lemma {:induction false} SameTag(tags: seq<Tag>, name: string)
    requires FirstValue(tags, name).Some? && Trim(FirstValue(tags, name).value) != ""
    ensures FirstTag(tags, name) == Some(Trim(FirstValue(tags, name).value))
  {
    if !(|tags[0]| >= 2 && tags[0][0] == name) {
      SameTag(tags[1..], name);
    }
  }

  /** An accepted group event's author is a member of the channel that the write side found. */
  lemma {:induction false} AuthorIsWriter(config: PolicyConfig, allowlist: set<string>, rows: Rows,
      buckets: Buckets, event: EventInfo, now: nat) returns (channel: ChannelRow)
    requires DistinctIds(rows.members) && config.enforceGroups && IsGroupEvent(event)
    requires Accepted(config, allowlist, rows, buckets, event, now)
    ensures Last(rows.channels, ActiveWithId(event.GroupId().value)) == Some(channel)
    ensures MayWrite(rows, channel, event.pubkey)
  {
    ListsExactly(rows, event.pubkey, event.GroupId().value);
    channel := Last(rows.channels, ActiveWithId(event.GroupId().value)).value;
  }

  lemma {:induction false} WriterKey(rows: Rows, channel: ChannelRow, key: string)
    requires MayWrite(rows, channel, key)
    ensures Canonical(key) == key && Trim(key) == key != ""
    ensures MayRead(rows, channel, key)
  {
    var row :| row in rows.members && row.pubkey.Some? && Lower(row.pubkey.value) == key && IsHex64(key)
      && Belongs(rows, row, channel);
    HexHasNoSpace(key);
    StoredKey(row.pubkey.value);
    LowerKeepsSpace(row.pubkey.value);
    assert HasKey(row, key);
  }

  /** What the read side says to an author whose key is canonical. */
  lemma {:induction false} ReadableIsAccepts(rows: Rows, event: EventInfo)
    requires IsGroupEvent(event) && Canonical(event.pubkey) == event.pubkey && Trim(event.pubkey) == event.pubkey != ""
    ensures ReadableByAuthor(rows, event) <==>
      FirstTag(event.tags, "h").Some? && Accepts(DirectoryOf(rows), event.pubkey, FirstTag(event.tags, "h").value)
  {
  }

  /** Exactly when an accepted group event is readable by its author, for any rows with distinct member
      ids: when its first `h` value that is not blank names, on the read side, a channel that the author
      belongs to. */
  lemma {:induction false} AcceptedIsReadableExactly(config: PolicyConfig, allowlist: set<string>, rows: Rows,
      buckets: Buckets, event: EventInfo, now: nat)
    requires DistinctIds(rows.members) && config.enforceGroups && IsGroupEvent(event)
    requires Accepted(config, allowlist, rows, buckets, event, now)
    ensures ReadableByAuthor(rows, event) <==>
      FirstTag(event.tags, "h").Some? &&
      var row := Last(rows.members, WithKey(event.pubkey));
      var channel := Last(rows.channels, WithId(FirstTag(event.tags, "h").value));
      row.Some? && channel.Some? && Belongs(rows, row.value, channel.value)
  {
    var channel := AuthorIsWriter(config, allowlist, rows, buckets, event, now);
    WriterKey(rows, channel, event.pubkey);
    ReadableIsAccepts(rows, event);
    if FirstTag(event.tags, "h").Some? {
      AcceptsExactly(rows, event.pubkey, FirstTag(event.tags, "h").value);
    }
  }

  /** Where keys and trimmed ids are unique: when some channel has that id and a team, and the author
      may read it. */
  lemma {:induction false} AcceptedIsReadableIff(config: PolicyConfig, allowlist: set<string>, rows: Rows,
      buckets: Buckets, event: EventInfo, now: nat)
    requires WellKeyed(rows) && config.enforceGroups && IsGroupEvent(event)
    requires Accepted(config, allowlist, rows, buckets, event, now)
    ensures ReadableByAuthor(rows, event) <==>
      exists channel :: && channel in rows.channels && channel.teamId != ""
                        && FirstTag(event.tags, "h") == Some(Trim(channel.groupId))
                        && MayRead(rows, channel, event.pubkey)
  {
    var writes := AuthorIsWriter(config, allowlist, rows, buckets, event, now);
    WriterKey(rows, writes, event.pubkey);
    ReadableIsAccepts(rows, event);
    var tag := FirstTag(event.tags, "h");
    if tag.Some? {
      FirstTagIsFirst(event.tags, "h", tag.value);
      AcceptsMeaning(rows, event.pubkey, tag.value);
      assert forall channel :: KnownAs(channel, tag.value) <==> channel.teamId != "" && tag == Some(Trim(channel.groupId));
    }
  }

  /** So with a group id that is not blank: when the channel has a team. */
  lemma {:induction false} NamedGroupIsReadableIff(config: PolicyConfig, allowlist: set<string>, rows: Rows,
      buckets: Buckets, event: EventInfo, now: nat)
    requires WellKeyed(rows) && config.enforceGroups && IsGroupEvent(event)
    requires Accepted(config, allowlist, rows, buckets, event, now)
    requires Trim(event.GroupId().value) != ""
    ensures exists channel :: && channel in rows.channels && channel.groupId == event.GroupId().value
                              && (ReadableByAuthor(rows, event) <==> channel.teamId != "")
  {
    var channel := AuthorIsWriter(config, allowlist, rows, buckets, event, now);
    LastIsOnly(rows.channels, ActiveWithId(event.GroupId().value), channel);
    WriterKey(rows, channel, event.pubkey);
    SameTag(event.tags, "h");
    AcceptedIsReadableIff(config, allowlist, rows, buckets, event, now);
    assert forall other :: other in rows.channels && Trim(other.groupId) == Trim(channel.groupId) ==> other == channel;
  }

  /** Read your writes: on tidy rows every accepted group event is readable by its author. */
  lemma {:induction false} AcceptedIsReadable(config: PolicyConfig, allowlist: set<string>, rows: Rows,
      buckets: Buckets, event: EventInfo, now: nat)
    requires Tidy(rows) && config.enforceGroups && IsGroupEvent(event)
    requires Accepted(config, allowlist, rows, buckets, event, now)
    ensures ReadableByAuthor(rows, event)
  {
    var channel := AuthorIsWriter(config, allowlist, rows, buckets, event, now);
    LastIsOnly(rows.channels, ActiveWithId(event.GroupId().value), channel);
    assert Named(channel);
    NamedGroupIsReadableIff(config, allowlist, rows, buckets, event, now);
  }

  // --------------------------------------------------------------- Blank group ids

  const CONFIG := PolicyConfig(30, 60, {9}, true)

  function Member(key: string): MemberRow {
    MemberRow("m", Some(key), false)
  }

  function BlankRows(key: string): Rows {
    Rows([Member(key)], [RosterPair("m", "t")], [ChannelRow("", "t", false, true), ChannelRow("g", "t", false, true)])
  }

  /** An event that names the blank group first. */
  function BlankEvent(key: string, more: seq<Tag>): EventInfo {
    EventInfo("e", key, 9, [["h", ""]] + more, None)
  }

  lemma {:induction false} BlankIsAccepted(key: string, more: seq<Tag>, now: nat)
    requires IsHex64(key) && Lower(key) == key
    ensures WellKeyed(BlankRows(key)) && IsGroupEvent(BlankEvent(key, more))
    ensures BlankEvent(key, more).GroupId() == Some("")
    ensures Accepted(CONFIG, {key}, BlankRows(key), map[], BlankEvent(key, more), now)
  {
    var rows, event := BlankRows(key), BlankEvent(key, more);
    assert event.tags[0] == ["h", ""];
    BlankIsListed(key);
  }

  lemma {:induction false} BlankIsListed(key: string)
    requires IsHex64(key) && Lower(key) == key
    ensures WellKeyed(BlankRows(key)) && Admits(GroupWritersOf(BlankRows(key)), key, "")
  {
    var rows := BlankRows(key);
    var blank := rows.channels[0];
    assert Member(key) in rows.members && RosterPair("m", "t") in rows.pairs && Belongs(rows, Member(key), blank);
    assert Trim("") == "" && Trim("g") == "g";
    WritesMeaning(rows, blank, key);
  }

  /** A blank first id may make an accepted event unreadable ... */
  lemma {:induction false} BlankGroupIsNotReadable(key: string, now: nat)
    requires IsHex64(key) && Lower(key) == key
    ensures Accepted(CONFIG, {key}, BlankRows(key), map[], BlankEvent(key, []), now)
    ensures !ReadableByAuthor(BlankRows(key), BlankEvent(key, []))
  {
    BlankIsAccepted(key, [], now);
    var tags := BlankEvent(key, []).tags;
    assert tags[1..] == [] && Trim(tags[0][1]) == "";
    assert FirstTag(tags, "h") == None;
    AcceptedIsReadableIff(CONFIG, {key}, BlankRows(key), map[], BlankEvent(key, []), now);
  }

  /** ... and need not: a later tag may name a channel of the author. */
  lemma {:induction false} BlankGroupMayBeReadable(key: string, now: nat)
    requires IsHex64(key) && Lower(key) == key
    ensures Accepted(CONFIG, {key}, BlankRows(key), map[], BlankEvent(key, [["h", "g"]]), now)
    ensures ReadableByAuthor(BlankRows(key), BlankEvent(key, [["h", "g"]]))
  {
    var rows, event := BlankRows(key), BlankEvent(key, [["h", "g"]]);
    BlankIsAccepted(key, [["h", "g"]], now);
    var tags := event.tags;
    assert tags[1..] == [["h", "g"]] && Trim(tags[0][1]) == "" && Trim("g") == "g";
    assert FirstTag(tags[1..], "h") == Some("g") == FirstTag(tags, "h");
    var channel := rows.channels[1];
    HexHasNoSpace(key);
    assert Member(key) in rows.members && HasKey(Member(key), key) && RosterPair("m", "t") in rows.pairs;
    assert MayRead(rows, channel, key);
    AcceptedIsReadableIff(CONFIG, {key}, rows, map[], event, now);
  }
}
