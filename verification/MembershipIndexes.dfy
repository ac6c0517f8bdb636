/** The two membership indexes compute the same relation, and what follows from that
    for an author who reads back what was accepted. */
module MembershipIndexes {
  import opened Directory
  import opened ReadPolicy
  import opened Text
  import opened Wrappers

  /** No member id is listed twice. */
  ghost predicate DistinctIds(members: seq<MemberRow>) {
    forall i, j :: 0 <= i < j < |members| ==> members[i].id != members[j].id
  }

  ghost predicate UniqueKeys(members: seq<MemberRow>) {
    forall a, b | a in members && b in members && a.pubkey.Some? && b.pubkey.Some? ::
      Canonical(a.pubkey.value) == Canonical(b.pubkey.value) ==> a == b
  }

  ghost predicate UniqueGroups(channels: seq<ChannelRow>) {
    forall a, b :: a in channels && b in channels && Trim(a.groupId) == Trim(b.groupId) ==> a == b
  }

  /** Each member, key and group is named once. */
  ghost predicate WellKeyed(rows: Rows) {
    DistinctIds(rows.members) && UniqueKeys(rows.members) && UniqueGroups(rows.channels)
  }

  /** `row` is on the channel's team, and an officer where that is asked for. */
  predicate Belongs(rows: Rows, row: MemberRow, channel: ChannelRow) {
    && RosterPair(row.id, channel.teamId) in rows.pairs
    && (channel.officerOnly ==> row.officer)
  }

  /** The last element that satisfies `p`. */
  function Last<T>(s: seq<T>, p: T -> bool): Option<T> {
    if s == [] then None
    else if p(s[|s| - 1]) then Some(s[|s| - 1])
    else Last(s[..|s| - 1], p)
  }

  ghost predicate IsLastAt<T>(s: seq<T>, p: T -> bool, k: int) {
    0 <= k < |s| && p(s[k]) && forall j :: k < j < |s| ==> !p(s[j])
  }

  lemma {:induction false} LastIsLast<T>(s: seq<T>, p: T -> bool, x: T)
    ensures Last(s, p) == Some(x) <==> exists k :: IsLastAt(s, p, k) && s[k] == x
  {
    if s != [] {
      var n := |s| - 1;
      LastIsLast(s[..n], p, x);
      if p(s[n]) {
        assert IsLastAt(s, p, n);
      } else {
        assert forall k :: IsLastAt(s, p, k) <==> IsLastAt(s[..n], p, k);
      }
    }
  }

  /** Where no two elements satisfy `p`, the last is the one. */
  lemma {:induction false} LastIsOnly<T>(s: seq<T>, p: T -> bool, x: T)
    requires forall a, b :: a in s && b in s && p(a) && p(b) ==> a == b
    ensures Last(s, p) == Some(x) <==> x in s && p(x)
  {
    if s != [] {
      var front, last := s[..|s| - 1], s[|s| - 1];
      assert s == front + [last];
      LastIsOnly(front, p, x);
    }
  }

  // -------------------------------------------------------- The member-first index

  lemma {:induction false} TeamsMeaning(pairs: seq<RosterPair>, memberId: string, teamId: string)
    ensures (memberId in TeamsByMember(pairs) && teamId in TeamsByMember(pairs)[memberId])
       <==> RosterPair(memberId, teamId) in pairs
  {
    if pairs != [] {
      TeamsMeaning(pairs[..|pairs| - 1], memberId, teamId);
      assert pairs == pairs[..|pairs| - 1] + [pairs[|pairs| - 1]];
    }
  }

  function AclOf(row: MemberRow, teams: map<string, set<string>>): MemberAcl
    requires row.pubkey.Some?
  {
    MemberAcl(row.pubkey.value, row.id, row.officer, if row.id in teams then teams[row.id] else {})
  }

  /** With distinct ids, taking the teams out of the map costs no later member any. */
  lemma {:induction false} AclsInOrder(members: seq<MemberRow>, teams: map<string, set<string>>)
    requires DistinctIds(members) && members != []
    ensures
      var front, last := members[..|members| - 1], members[|members| - 1];
      Acls(members, teams) == Acls(front, teams) + (if last.pubkey.Some? then [AclOf(last, teams)] else [])
  {
    var n := |members| - 1;
    if n > 0 {
      var first, rest := members[0], members[1..];
      var left := if first.pubkey.Some? then teams - {first.id} else teams;
      AclsInOrder(rest, left);
      assert rest[..n - 1] == members[..n][1..];
      assert first.id != members[n].id;
    }
  }

  predicate HasKey(row: MemberRow, key: string) {
    row.pubkey.Some? && Canonical(row.pubkey.value) == key && IsHex64(key)
  }

  function WithKey(key: string): MemberRow -> bool {
    row => HasKey(row, key)
  }

  /** The reader found under a key is the last member with that key. */
  lemma {:induction false} ReadersExactly(members: seq<MemberRow>, teams: map<string, set<string>>, key: string)
    requires DistinctIds(members)
    ensures
      var readers, row := ReadersOf(Acls(members, teams)), Last(members, WithKey(key));
      && (key in readers <==> row.Some?)
      && (row.Some? ==> row.value.pubkey.Some? && readers[key] == AclOf(row.value, teams).(pubkey := key))
  {
    if members != [] {
      ReadersExactly(members[..|members| - 1], teams, key);
      ReadersPush(members, teams, key);
    }
  }

  lemma {:induction false} ReadersPush(members: seq<MemberRow>, teams: map<string, set<string>>, key: string)
    requires DistinctIds(members) && members != []
    ensures
      var n := |members| - 1;
      var readers, before := ReadersOf(Acls(members, teams)), ReadersOf(Acls(members[..n], teams));
      if HasKey(members[n], key) then key in readers && readers[key] == AclOf(members[n], teams).(pubkey := key)
      else (key in readers <==> key in before) && (key in readers ==> readers[key] == before[key])
  {
    var n := |members| - 1;
    AclsInOrder(members, teams);
    if members[n].pubkey.Some? {
      LastAcl(Acls(members[..n], teams), AclOf(members[n], teams), key);
    } else {
      assert Acls(members, teams) == Acls(members[..n], teams);
    }
  }

  lemma {:induction false} LastAcl(front: seq<MemberAcl>, acl: MemberAcl, key: string)
    ensures
      var readers := ReadersOf(front + [acl]);
      if Canonical(acl.pubkey) == key && IsHex64(key) then key in readers && readers[key] == acl.(pubkey := key)
      else (key in readers <==> key in ReadersOf(front)) && (key in readers ==> readers[key] == ReadersOf(front)[key])
  {
    assert (front + [acl])[..|front|] == front;
  }

  /** Known to the read side under this id. */
  predicate KnownAs(channel: ChannelRow, id: string) {
    Trim(channel.groupId) == id && id != "" && channel.teamId != ""
  }

  function WithId(id: string): ChannelRow -> bool {
    channel => KnownAs(channel, id)
  }

  /** The group found under an id is the last channel known under it. */
  lemma {:induction false} GroupsExactly(channels: seq<ChannelRow>, id: string)
    ensures
      var groups, channel := GroupsOf(GroupRules(channels)), Last(channels, WithId(id));
      && (id in groups <==> channel.Some?)
      && (channel.Some? ==> groups[id] == GroupAcl(channel.value.teamId, channel.value.officerOnly))
  {
    if channels != [] {
      GroupsExactly(channels[..|channels| - 1], id);
      GroupsPush(channels, id);
    }
  }

  lemma {:induction false} GroupsPush(channels: seq<ChannelRow>, id: string)
    requires channels != []
    ensures
      var n := |channels| - 1;
      var groups, before := GroupsOf(GroupRules(channels)), GroupsOf(GroupRules(channels[..n]));
      if KnownAs(channels[n], id) then id in groups && groups[id] == GroupAcl(channels[n].teamId, channels[n].officerOnly)
      else (id in groups <==> id in before) && (id in groups ==> groups[id] == before[id])
  {
    assert GroupRules(channels)[..|channels| - 1] == GroupRules(channels[..|channels| - 1]);
  }

  predicate Accepts(dir: ReadDirectory, pubkey: string, groupId: string) {
    dir.Reader(pubkey).Some? && AllowGroup(dir.Reader(pubkey).value, groupId, dir) == Ok(())
  }

  /** The read side, for any rows with distinct member ids and any group id: a key is accepted exactly
      when the last member with that key belongs to the last channel known under that id. */
  lemma {:induction false} AcceptsExactly(rows: Rows, pubkey: string, id: string)
    requires DistinctIds(rows.members)
    ensures
      var row, channel := Last(rows.members, WithKey(Canonical(pubkey))), Last(rows.channels, WithId(id));
      Accepts(DirectoryOf(rows), pubkey, id) <==> row.Some? && channel.Some? && Belongs(rows, row.value, channel.value)
  {
    var teams, key := TeamsByMember(rows.pairs), Canonical(pubkey);
    ReadersExactly(rows.members, teams, key);
    GroupsExactly(rows.channels, id);
    var row, channel := Last(rows.members, WithKey(key)), Last(rows.channels, WithId(id));
    if row.Some? && channel.Some? {
      TeamsMeaning(rows.pairs, row.value.id, channel.value.teamId);
    }
  }

  ghost predicate MayRead(rows: Rows, channel: ChannelRow, key: string) {
    exists row :: row in rows.members && HasKey(row, key) && Belongs(rows, row, channel)
  }

  /** Where keys and trimmed ids are unique there is no last one to speak of. */
  lemma {:induction false} AcceptsMeaning(rows: Rows, pubkey: string, id: string)
    requires WellKeyed(rows)
    ensures Accepts(DirectoryOf(rows), pubkey, id) <==>
      exists channel :: channel in rows.channels && KnownAs(channel, id) && MayRead(rows, channel, Canonical(pubkey))
  {
    var key := Canonical(pubkey);
    AcceptsExactly(rows, pubkey, id);
    forall row ensures Last(rows.members, WithKey(key)) == Some(row) <==> row in rows.members && HasKey(row, key) {
      LastIsOnly(rows.members, WithKey(key), row);
    }
    forall channel ensures Last(rows.channels, WithId(id)) == Some(channel) <==> channel in rows.channels && KnownAs(channel, id) {
      LastIsOnly(rows.channels, WithId(id), channel);
    }
  }

  /** A channel is known under its own id exactly when that id is trimmed and neither id is empty. */
  predicate Named(channel: ChannelRow) {
    KnownAs(channel, channel.groupId)
  }

  lemma {:induction false} AcceptsOwnId(rows: Rows, channel: ChannelRow, pubkey: string)
    requires WellKeyed(rows) && channel in rows.channels
    ensures Accepts(DirectoryOf(rows), pubkey, channel.groupId) <==>
      Named(channel) && MayRead(rows, channel, Canonical(pubkey))
  {
    AcceptsMeaning(rows, pubkey, channel.groupId);
    TrimTrims(channel.groupId);
    forall other | other in rows.channels && KnownAs(other, channel.groupId)
      ensures other == channel
    {
      TrimTrims(other.groupId);
    }
  }

  // ---------------------------------------------------------- The team-first index

  /** The row makes `writer` the writer of member `id`. */
  predicate MakesWriter(row: MemberRow, id: string, writer: Writer) {
    && row.id == id && row.pubkey.Some? && IsHex64(Lower(row.pubkey.value))
    && writer == Writer(Lower(row.pubkey.value), row.officer)
  }

  lemma {:induction false} WriterHasRow(members: seq<MemberRow>, id: string)
    requires id in WriterByMember(members)
    ensures exists row :: row in members && MakesWriter(row, id, WriterByMember(members)[id])
  {
    var last, front := members[|members| - 1], members[..|members| - 1];
    assert members == front + [last];
    var writer := WriterByMember(members)[id];
    if !MakesWriter(last, id, writer) {
      WriterHasRow(front, id);
      var row :| row in front && MakesWriter(row, id, WriterByMember(front)[id]);
      assert row in members;
    }
  }

  lemma {:induction false} RowHasWriter(members: seq<MemberRow>, k: nat, id: string, writer: Writer)
    requires DistinctIds(members) && k < |members| && MakesWriter(members[k], id, writer)
    ensures id in WriterByMember(members) && WriterByMember(members)[id] == writer
  {
    var last := |members| - 1;
    if k < last {
      assert members[k].id != members[last].id;
      RowHasWriter(members[..last], k, id, writer);
    }
  }

  function Roster(teams: map<string, TeamWriters>, teamId: string, officerOnly: bool): set<string> {
    if teamId !in teams then {} else if officerOnly then teams[teamId].officers else teams[teamId].roster
  }

  ghost predicate OnTeam(pairs: seq<RosterPair>, writers: map<string, Writer>, teamId: string, officerOnly: bool, key: string) {
    exists id :: RosterPair(id, teamId) in pairs && id in writers && writers[id].pubkey == key && (officerOnly ==> writers[id].officer)
  }

  lemma {:induction false} RosterMeaning(pairs: seq<RosterPair>, writers: map<string, Writer>, teamId: string, officerOnly: bool, key: string)
    ensures key in Roster(WritersByTeam(pairs, writers), teamId, officerOnly) <==> OnTeam(pairs, writers, teamId, officerOnly, key)
  {
    if pairs != [] {
      var last, front := pairs[|pairs| - 1], pairs[..|pairs| - 1];
      RosterMeaning(front, writers, teamId, officerOnly, key);
      assert pairs == front + [last];
      assert OnTeam(front, writers, teamId, officerOnly, key) ==> OnTeam(pairs, writers, teamId, officerOnly, key);
    }
  }

  function ActiveWithId(groupId: string): ChannelRow -> bool {
    (channel: ChannelRow) => channel.isActive && channel.groupId == groupId
  }

  lemma {:induction false} WritersMeaning(channels: seq<ChannelRow>, teams: map<string, TeamWriters>, groupId: string)
    ensures
      var groups, channel := WritersOf(channels, teams), Last(channels, ActiveWithId(groupId));
      && (groupId in groups <==> channel.Some?)
      && (channel.Some? ==> groups[groupId] == Roster(teams, channel.value.teamId, channel.value.officerOnly))
  {
    if channels != [] {
      WritersMeaning(channels[..|channels| - 1], teams, groupId);
    }
  }

  ghost predicate MayWrite(rows: Rows, channel: ChannelRow, key: string) {
    exists row ::
      row in rows.members && row.pubkey.Some? && Lower(row.pubkey.value) == key && IsHex64(key) && Belongs(rows, row, channel)
  }

  predicate Admits(groups: GroupWriters, key: string, groupId: string) {
    groupId in groups && key in groups[groupId]
  }

  lemma {:induction false} RosterIsWriters(rows: Rows, channel: ChannelRow, key: string)
    requires DistinctIds(rows.members)
    ensures
      var teams := WritersByTeam(rows.pairs, WriterByMember(rows.members));
      key in Roster(teams, channel.teamId, channel.officerOnly) <==> MayWrite(rows, channel, key)
  {
    var writers := WriterByMember(rows.members);
    RosterMeaning(rows.pairs, writers, channel.teamId, channel.officerOnly, key);
    if OnTeam(rows.pairs, writers, channel.teamId, channel.officerOnly, key) {
      var id :| RosterPair(id, channel.teamId) in rows.pairs && id in writers && writers[id].pubkey == key
        && (channel.officerOnly ==> writers[id].officer);
      WriterHasRow(rows.members, id);
    }
    if MayWrite(rows, channel, key) {
      var row :| row in rows.members && row.pubkey.Some? && Lower(row.pubkey.value) == key && IsHex64(key) && Belongs(rows, row, channel);
      var k :| 0 <= k < |rows.members| && rows.members[k] == row;
      RowHasWriter(rows.members, k, row.id, Writer(key, row.officer));
    }
  }

  /** The write side, for any rows with distinct member ids and any group id: a key is listed exactly
      when a member with that key belongs to the last active channel with that id. */
  lemma {:induction false} ListsExactly(rows: Rows, key: string, groupId: string)
    requires DistinctIds(rows.members)
    ensures
      var channel := Last(rows.channels, ActiveWithId(groupId));
      Admits(GroupWritersOf(rows), key, groupId) <==> channel.Some? && MayWrite(rows, channel.value, key)
  {
    WritersMeaning(rows.channels, WritersByTeam(rows.pairs, WriterByMember(rows.members)), groupId);
    var channel := Last(rows.channels, ActiveWithId(groupId));
    if channel.Some? {
      RosterIsWriters(rows, channel.value, key);
    }
  }

  lemma {:induction false} WritesMeaning(rows: Rows, channel: ChannelRow, key: string)
    requires WellKeyed(rows) && channel in rows.channels && channel.isActive
    ensures Admits(GroupWritersOf(rows), key, channel.groupId) <==> MayWrite(rows, channel, key)
  {
    ListsExactly(rows, key, channel.groupId);
    LastIsOnly(rows.channels, ActiveWithId(channel.groupId), channel);
  }

  // ------------------------------------------------------------------ Main theorems

  /** The member with this key has it stored with space around it. */
  ghost predicate Padded(rows: Rows, key: string) {
    exists row :: row in rows.members && row.pubkey.Some?
      && Canonical(row.pubkey.value) == key && Trim(row.pubkey.value) != row.pubkey.value
  }

  /** Exactly how the two indexes relate on an active channel. They differ only where an id is empty
      or untrimmed (the write side still lists the channel) or a stored key is padded (the read side
      still knows the member). */
  lemma {:induction false} IndexesRelate(rows: Rows, channel: ChannelRow, pubkey: string)
    requires WellKeyed(rows) && channel in rows.channels && channel.isActive
    ensures (Admits(GroupWritersOf(rows), Canonical(pubkey), channel.groupId) && Named(channel)) <==>
      (Accepts(DirectoryOf(rows), pubkey, channel.groupId) && !Padded(rows, Canonical(pubkey)))
  {
    var key := Canonical(pubkey);
    WritesMeaning(rows, channel, key);
    AcceptsOwnId(rows, channel, pubkey);
    forall row | row in rows.members && row.pubkey.Some?
      ensures Trim(row.pubkey.value) == row.pubkey.value ==> Canonical(row.pubkey.value) == Lower(row.pubkey.value)
      ensures IsHex64(Lower(row.pubkey.value)) ==> Trim(row.pubkey.value) == row.pubkey.value
    {
      StoredKey(row.pubkey.value);
    }
  }

  lemma {:induction false} StoredKey(pubkey: string)
    ensures Trim(pubkey) == pubkey ==> Canonical(pubkey) == Lower(pubkey)
    ensures IsHex64(Lower(pubkey)) ==> Trim(pubkey) == pubkey
  {
    LowerKeepsSpace(pubkey);
    if IsHex64(pubkey) {
      HexHasNoSpace(pubkey);
    }
  }

  /** Every id is trimmed and not empty, and every key is trimmed. */
  ghost predicate Tidy(rows: Rows) {
    && WellKeyed(rows)
    && (forall channel :: channel in rows.channels ==> Named(channel))
    && (forall row :: row in rows.members && row.pubkey.Some? ==> Trim(row.pubkey.value) == row.pubkey.value)
  }

  /** On tidy rows the two indexes are the same relation. */
  lemma {:induction false} IndexesAgree(rows: Rows, channel: ChannelRow, pubkey: string)
    requires Tidy(rows) && channel in rows.channels && channel.isActive
    ensures Admits(GroupWritersOf(rows), Canonical(pubkey), channel.groupId) <==>
      Accepts(DirectoryOf(rows), pubkey, channel.groupId)
  {
    IndexesRelate(rows, channel, pubkey);
    assert Named(channel);
  }

  lemma {:induction false} PaddedId()
    ensures Trim("g ") == "g"
  {
    assert TrimEnd("g ") == TrimEnd("g") == "g";
  }

  /** What the tables themselves keep unique, member ids and keys and group ids as stored, does not
      suffice: two ids that differ only in padding are one group to the read side. */
  lemma {:induction false} StoredUniquenessIsNotEnough(key: string)
    requires IsHex64(key) && Lower(key) == key
    ensures
      var rows := Rows([MemberRow("m", Some(key), false)], [RosterPair("m", "t")],
                       [ChannelRow("g", "t", false, true), ChannelRow("g ", "u", false, true)]);
      Admits(GroupWritersOf(rows), key, "g") && !Accepts(DirectoryOf(rows), key, "g")
  {
    var row, pair := MemberRow("m", Some(key), false), RosterPair("m", "t");
    var channel, other := ChannelRow("g", "t", false, true), ChannelRow("g ", "u", false, true);
    var rows := Rows([row], [pair], [channel, other]);
    assert row in rows.members && pair in rows.pairs && Belongs(rows, row, channel);
    assert rows.channels[..1] == [channel];
    assert Last(rows.channels, ActiveWithId("g")) == Last([channel], ActiveWithId("g")) == Some(channel);
    assert MayWrite(rows, channel, key);
    ListsExactly(rows, key, "g");
    AcceptsExactly(rows, key, "g");
    PaddedId();
    assert KnownAs(other, "g") && Last(rows.channels, WithId("g")) == Some(other);
    assert RosterPair("m", "u") !in rows.pairs;
  }
}
