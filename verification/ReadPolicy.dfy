/** Who may receive a stored event: the rule that the WebSocket gate applies to every
    event before it is delivered. */
module ReadPolicy {
  import opened Text
  import opened Wrappers

  const GIFT_WRAP_KIND: nat := 1059
  const PLAIN_DM_KIND: nat := 4
  const GROUP_METADATA_KIND_MIN: nat := 39000
  const GROUP_METADATA_KIND_MAX: nat := 39003

  datatype MemberAcl = MemberAcl(pubkey: string, memberId: string, officer: bool, teams: set<string>)

  datatype GroupAcl = GroupAcl(teamId: string, officerOnly: bool)

  datatype ReadDirectory = ReadDirectory(readers: map<string, MemberAcl>, groups: map<string, GroupAcl>) {

    function Reader(pubkey: string): Option<MemberAcl> {
      if Canonical(pubkey) in readers then Some(readers[Canonical(pubkey)]) else None
    }
  }

  type Tag = seq<string>

  datatype EventView = EventView(pubkey: string, kind: nat, tags: seq<Tag>)

  datatype ReadDeny = SignedOut | NotMember | GiftWrapNotAddressed | TeamChat | OfficerChat | NotShared

  type Verdict = Result<(), ReadDeny>

  // ------------------------------------------------------------- The directory

  /** Readers under their canonical key; a malformed key is left out, a later reader replaces an
      earlier one with the same key. */
  function ReadersOf(members: seq<MemberAcl>): map<string, MemberAcl> {
    if members == [] then map[]
    else
      var last := members[|members| - 1];
      var readers := ReadersOf(members[..|members| - 1]);
      var pubkey := Canonical(last.pubkey);
      if IsHex64(pubkey) then readers[pubkey := last.(pubkey := pubkey)] else readers
  }

  function GroupsOf(groups: seq<(string, GroupAcl)>): map<string, GroupAcl> {
    if groups == [] then map[]
    else
      var (id, rule) := groups[|groups| - 1];
      var known := GroupsOf(groups[..|groups| - 1]);
      if Trim(id) != "" && rule.teamId != "" then known[Trim(id) := rule] else known
  }

  method FromParts(members: seq<MemberAcl>, groups: seq<(string, GroupAcl)>) returns (dir: ReadDirectory)
    ensures dir == ReadDirectory(ReadersOf(members), GroupsOf(groups))
  {
    var readers := map[];
    for i := 0 to |members|
      invariant readers == ReadersOf(members[..i])
    {
      assert members[..i + 1][..i] == members[..i];
      var pubkey := Canonical(members[i].pubkey);
      if |pubkey| != 64 || !IsHex64(pubkey) {
        continue;
      }
      readers := readers[pubkey := members[i].(pubkey := pubkey)];
    }
    assert members[..|members|] == members;
    var known := map[];
    for i := 0 to |groups|
      invariant known == GroupsOf(groups[..i])
    {
      assert groups[..i + 1][..i] == groups[..i];
      var id := Trim(groups[i].0);
      if id != "" && groups[i].1.teamId != "" {
        known := known[id := groups[i].1];
      }
    }
    assert groups[..|groups|] == groups;
    dir := ReadDirectory(readers, known);
  }

  // ------------------------------------------------------------------ Tag lookup

  /** The first non-empty value, trimmed, of a tag called `name`. */
  function FirstTag(tags: seq<Tag>, name: string): Option<string> {
    if tags == [] then None
    else if |tags[0]| >= 2 && tags[0][0] == name && Trim(tags[0][1]) != "" then Some(Trim(tags[0][1]))
    else FirstTag(tags[1..], name)
  }

  predicate AddressedTo(tags: seq<Tag>, pubkey: string) {
    exists i :: 0 <= i < |tags| && |tags[i]| >= 2 && tags[i][0] == "p" && EqualIgnoringCase(Trim(tags[i][1]), pubkey)
  }

  // -------------------------------------------------------------------- The rule

  function AllowGroup(reader: MemberAcl, groupId: string, dir: ReadDirectory): Verdict {
    if groupId !in dir.groups then
      Err(NotShared)
    else
      var group := dir.groups[groupId];
      var onTeam := group.teamId in reader.teams;
      if group.officerOnly then
        if reader.officer && onTeam then Ok(()) else Err(OfficerChat)
      else
        if onTeam then Ok(()) else Err(TeamChat)
  }

  function AllowEvent(authed: Option<string>, event: EventView, dir: ReadDirectory): Verdict {
    if authed.None? || Trim(authed.value) == "" then
      Err(SignedOut)
    else
      match dir.Reader(Trim(authed.value))
      case None => Err(NotMember)
      case Some(reader) =>
        if event.kind == GIFT_WRAP_KIND then
          if AddressedTo(event.tags, reader.pubkey) then Ok(()) else Err(GiftWrapNotAddressed)
        else if GROUP_METADATA_KIND_MIN <= event.kind <= GROUP_METADATA_KIND_MAX then
          match FirstTag(event.tags, "d")
          case None => Err(NotShared)
          case Some(groupId) => AllowGroup(reader, groupId, dir)
        else
          match FirstTag(event.tags, "h")
          case None => Err(NotShared)
          case Some(groupId) => AllowGroup(reader, groupId, dir)
  }

  /** Some tag called `name` has the trimmed, non-empty value `id`, and every earlier one is blank. */
  ghost predicate IsFirstTag(tags: seq<Tag>, name: string, id: string) {
    exists i :: 0 <= i < |tags| && TagIs(tags[i], name, id) && forall j :: 0 <= j < i ==> TagIsBlank(tags[j], name)
  }

  predicate TagIs(tag: Tag, name: string, id: string) {
    |tag| >= 2 && tag[0] == name && Trim(tag[1]) == id && id != ""
  }

  predicate TagIsBlank(tag: Tag, name: string) {
    |tag| >= 2 && tag[0] == name ==> Trim(tag[1]) == ""
  }

  lemma {:induction false} FirstTagIsFirst(tags: seq<Tag>, name: string, id: string)
    ensures FirstTag(tags, name) == Some(id) <==> IsFirstTag(tags, name, id)
  {
    if tags != [] {
      FirstTagIsFirst(tags[1..], name, id);
      if IsFirstTag(tags, name, id) && TagIsBlank(tags[0], name) {
        var i :| 0 <= i < |tags| && TagIs(tags[i], name, id) && forall j :: 0 <= j < i ==> TagIsBlank(tags[j], name);
        assert TagIs(tags[1..][i - 1], name, id);
      }
      if IsFirstTag(tags[1..], name, id) && TagIsBlank(tags[0], name) {
        var i :| 0 <= i < |tags[1..]| && TagIs(tags[1..][i], name, id)
          && forall j :: 0 <= j < i ==> TagIsBlank(tags[1..][j], name);
        assert TagIs(tags[i + 1], name, id);
        assert forall j :: 0 < j < i + 1 ==> tags[j] == tags[1..][j - 1];
      }
    }
  }

  /** Some `p` tag names this key, in any case and with any space around it. */
  ghost predicate Addressed(tags: seq<Tag>, key: string) {
    exists i :: 0 <= i < |tags| && |tags[i]| >= 2 && tags[i][0] == "p" && Lower(Trim(tags[i][1])) == key
  }

  /** Who may be sent an event: a member, to whom a wrap is addressed or who is on the team of the group of
      any other event; officer groups need the officer role too. */
  ghost predicate MayReceive(key: string, event: EventView, dir: ReadDirectory) {
    && Trim(key) != "" && Lower(Trim(key)) in dir.readers
    && var reader := dir.readers[Lower(Trim(key))];
       if event.kind == 1059 then Addressed(event.tags, Lower(reader.pubkey))
       else exists id :: && IsFirstTag(event.tags, if 39000 <= event.kind <= 39003 then "d" else "h", id)
                         && id in dir.groups && dir.groups[id].teamId in reader.teams
                         && (dir.groups[id].officerOnly ==> reader.officer)
  }

  lemma {:induction false} AddressedMeaning(tags: seq<Tag>, pubkey: string)
    ensures AddressedTo(tags, pubkey) <==> Addressed(tags, Lower(pubkey))
  {
  }

  lemma {:induction false} GroupRule(reader: MemberAcl, groupId: string, dir: ReadDirectory)
    ensures AllowGroup(reader, groupId, dir) == Ok(()) <==>
      groupId in dir.groups && dir.groups[groupId].teamId in reader.teams && (dir.groups[groupId].officerOnly ==> reader.officer)
  {
  }

  /** Exactly who receives an event. Kind 4 is nobody's inbox. */
  lemma {:induction false} DeliveredExactly(authed: Option<string>, event: EventView, dir: ReadDirectory)
    ensures AllowEvent(authed, event, dir) == Ok(()) <==> authed.Some? && MayReceive(authed.value, event, dir)
  {
    if authed.Some? && Lower(Trim(authed.value)) in dir.readers {
      TrimTrims(authed.value);
      var reader := dir.readers[Lower(Trim(authed.value))];
      AddressedMeaning(event.tags, reader.pubkey);
      var name := if 39000 <= event.kind <= 39003 then "d" else "h";
      var found := FirstTag(event.tags, name);
      if found.Some? {
        FirstTagIsFirst(event.tags, name, found.value);
        GroupRule(reader, found.value, dir);
      }
      forall id | IsFirstTag(event.tags, name, id)
        ensures found == Some(id)
      {
        FirstTagIsFirst(event.tags, name, id);
      }
    } else if authed.Some? {
      TrimTrims(authed.value);
    }
  }

  /** Why an event is withheld from a member: no group that is known, or a known group that
      the member is not in or, for an officer group, no officer of. */
  lemma {:induction false} WithheldExactly(authed: string, event: EventView, dir: ReadDirectory, id: string)
    requires Trim(authed) != "" && Lower(Trim(authed)) in dir.readers && event.kind != 1059
    ensures
      var reader, verdict := dir.readers[Lower(Trim(authed))], AllowEvent(Some(authed), event, dir);
      var name := if 39000 <= event.kind <= 39003 then "d" else "h";
      && ((forall i :: 0 <= i < |event.tags| ==> TagIsBlank(event.tags[i], name)) ==> verdict == Err(NotShared))
      && (IsFirstTag(event.tags, name, id) && id !in dir.groups ==> verdict == Err(NotShared))
      && (IsFirstTag(event.tags, name, id) && id in dir.groups && !MayReceive(authed, event, dir) ==>
            verdict == Err(if dir.groups[id].officerOnly then OfficerChat else TeamChat))
  {
    TrimTrims(authed);
    DeliveredExactly(Some(authed), event, dir);
    var name := if 39000 <= event.kind <= 39003 then "d" else "h";
    FirstTagIsFirst(event.tags, name, id);
    var found := FirstTag(event.tags, name);
    if found.Some? {
      FirstTagIsFirst(event.tags, name, found.value);
    }
  }

  // ------------------------------------------------------------------- Gift wraps

  /** Every reader is filed under its own key, in lower case. */
  ghost predicate KeyedByPubkey(dir: ReadDirectory) {
    forall key :: key in dir.readers ==> IsHex64(key) && Lower(key) == key && dir.readers[key].pubkey == key
  }

  lemma {:induction false} PartsAreKeyed(members: seq<MemberAcl>, groups: map<string, GroupAcl>)
    ensures KeyedByPubkey(ReadDirectory(ReadersOf(members), groups))
  {
    if members != [] {
      PartsAreKeyed(members[..|members| - 1], groups);
      LowerKeepsSpace(Trim(members[|members| - 1].pubkey));
    }
  }

  /** A wrap reaches exactly the members that it is addressed to: no other member is sent it. */
  lemma {:induction false} WrapsReachTheirRecipients(authed: string, event: EventView, dir: ReadDirectory)
    requires KeyedByPubkey(dir) && event.kind == 1059
    ensures AllowEvent(Some(authed), event, dir) == Ok(()) <==>
      Lower(Trim(authed)) in dir.readers && Addressed(event.tags, Lower(Trim(authed)))
    ensures (forall i :: 0 <= i < |event.tags| && |event.tags[i]| >= 2 && event.tags[i][0] == "p" ==>
        Lower(Trim(event.tags[i][1])) != Lower(Trim(authed)))
      ==> AllowEvent(Some(authed), event, dir) == Err(if Trim(authed) == "" then SignedOut
                                                      else if Lower(Trim(authed)) in dir.readers then GiftWrapNotAddressed else NotMember)
  {
    DeliveredExactly(Some(authed), event, dir);
    TrimTrims(authed);
  }
}
