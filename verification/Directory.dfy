/** The two membership indexes, built from the same rows in opposite directions: the
    read directory maps a member to teams, the write map a group to its writers. */
module Directory {
  import opened ReadPolicy
  import opened Text
  import opened Wrappers

  datatype MemberRow = MemberRow(id: string, pubkey: Option<string>, officer: bool)
  datatype RosterPair = RosterPair(memberId: string, teamId: string)
  datatype ChannelRow = ChannelRow(groupId: string, teamId: string, officerOnly: bool, isActive: bool)

  /** What the database holds when an index is loaded. */
  datatype Rows = Rows(members: seq<MemberRow>, pairs: seq<RosterPair>, channels: seq<ChannelRow>)

  type GroupWriters = map<string, set<string>>

  // ------------------------------------------------- Member first: the readers

  function TeamsByMember(pairs: seq<RosterPair>): map<string, set<string>> {
    if pairs == [] then map[]
    else
      var last := pairs[|pairs| - 1];
      var teams := TeamsByMember(pairs[..|pairs| - 1]);
      teams[last.memberId := (if last.memberId in teams then teams[last.memberId] else {}) + {last.teamId}]
  }

  /** Each member with a key takes its teams out of the map, so a second row of one id gets none. */
  function Acls(members: seq<MemberRow>, teams: map<string, set<string>>): seq<MemberAcl> {
    if members == [] then []
    else
      var row := members[0];
      match row.pubkey
      case None => Acls(members[1..], teams)
      case Some(pubkey) =>
        [MemberAcl(pubkey, row.id, row.officer, if row.id in teams then teams[row.id] else {})]
        + Acls(members[1..], teams - {row.id})
  }

  function GroupRules(channels: seq<ChannelRow>): seq<(string, GroupAcl)> {
    seq(|channels|, i requires 0 <= i < |channels| =>
      (channels[i].groupId, GroupAcl(channels[i].teamId, channels[i].officerOnly)))
  }

  function DirectoryOf(rows: Rows): ReadDirectory {
    ReadDirectory(ReadersOf(Acls(rows.members, TeamsByMember(rows.pairs))), GroupsOf(GroupRules(rows.channels)))
  }

  lemma {:induction false} NextTeam(pairs: seq<RosterPair>, i: nat)
    requires i < |pairs|
    ensures
      var teams, pair := TeamsByMember(pairs[..i]), pairs[i];
      TeamsByMember(pairs[..i + 1]) ==
        teams[pair.memberId := (if pair.memberId in teams then teams[pair.memberId] else {}) + {pair.teamId}]
  {
    assert pairs[..i + 1][..i] == pairs[..i];
  }

  lemma {:induction false} NextAcl(members: seq<MemberRow>, i: nat, teams: map<string, set<string>>)
    requires i < |members|
    ensures
      var row, rest := members[i], members[i + 1..];
      Acls(members[i..], teams) ==
        match row.pubkey
        case None => Acls(rest, teams)
        case Some(pubkey) =>
          [MemberAcl(pubkey, row.id, row.officer, if row.id in teams then teams[row.id] else {})] + Acls(rest, teams - {row.id})
  {
    assert members[i..][1..] == members[i + 1..];
  }

  method CollectTeams(pairs: seq<RosterPair>) returns (teamsByMember: map<string, set<string>>)
    ensures teamsByMember == TeamsByMember(pairs)
  {
    teamsByMember := map[];
    for i := 0 to |pairs|
      invariant teamsByMember == TeamsByMember(pairs[..i])
    {
      NextTeam(pairs, i);
      var pair := pairs[i];
      var teams := if pair.memberId in teamsByMember then teamsByMember[pair.memberId] else {};
      teamsByMember := teamsByMember[pair.memberId := teams + {pair.teamId}];
    }
    assert pairs[..|pairs|] == pairs;
  }

  /** Takes each member's teams out of the map. */
  method BuildAcls(members: seq<MemberRow>, teams: map<string, set<string>>) returns (acls: seq<MemberAcl>)
    ensures acls == Acls(members, teams)
  {
    var teamsByMember := teams;
    acls := [];
    assert members[0..] == members;
    for i := 0 to |members|
      invariant acls + Acls(members[i..], teamsByMember) == Acls(members, teams)
    {
      var row := members[i];
      NextAcl(members, i, teamsByMember);
      if row.pubkey.Some? {
        var own := if row.id in teamsByMember then teamsByMember[row.id] else {};
        teamsByMember := teamsByMember - {row.id};
        var acl := MemberAcl(row.pubkey.value, row.id, row.officer, own);
        JoinAcls(acls, acl, Acls(members[i + 1..], teamsByMember));
        acls := acls + [acl];
      }
    }
    assert members[|members|..] == [];
  }

  lemma {:induction false} JoinAcls(front: seq<MemberAcl>, acl: MemberAcl, rest: seq<MemberAcl>)
    ensures front + ([acl] + rest) == front + [acl] + rest
  {
  }

  method LoadReadDirectory(rows: Rows) returns (dir: ReadDirectory)
    ensures dir == DirectoryOf(rows)
  {
    var teamsByMember := CollectTeams(rows.pairs);
    var acls := BuildAcls(rows.members, teamsByMember);
    dir := FromParts(acls, GroupRules(rows.channels));
  }

  // ------------------------------------------------- Team first: the writers

  datatype Writer = Writer(pubkey: string, officer: bool)
  datatype TeamWriters = TeamWriters(roster: set<string>, officers: set<string>)

  function WriterByMember(members: seq<MemberRow>): map<string, Writer> {
    if members == [] then map[]
    else
      var row := members[|members| - 1];
      var writers := WriterByMember(members[..|members| - 1]);
      if row.pubkey.Some? && IsHex64(Lower(row.pubkey.value))
      then writers[row.id := Writer(Lower(row.pubkey.value), row.officer)]
      else writers
  }

  function WritersByTeam(pairs: seq<RosterPair>, writers: map<string, Writer>): map<string, TeamWriters> {
    if pairs == [] then map[]
    else
      var pair := pairs[|pairs| - 1];
      var teams := WritersByTeam(pairs[..|pairs| - 1], writers);
      if pair.memberId !in writers then teams
      else
        var writer := writers[pair.memberId];
        var team := if pair.teamId in teams then teams[pair.teamId] else TeamWriters({}, {});
        teams[pair.teamId := TeamWriters(
          team.roster + {writer.pubkey},
          if writer.officer then team.officers + {writer.pubkey} else team.officers)]
  }

  function WritersOf(channels: seq<ChannelRow>, teams: map<string, TeamWriters>): GroupWriters {
    if channels == [] then map[]
    else
      var channel := channels[|channels| - 1];
      var groups := WritersOf(channels[..|channels| - 1], teams);
      if !channel.isActive then groups
      else if channel.teamId !in teams then groups[channel.groupId := {}]
      else if channel.officerOnly then groups[channel.groupId := teams[channel.teamId].officers]
      else groups[channel.groupId := teams[channel.teamId].roster]
  }

  function GroupWritersOf(rows: Rows): GroupWriters {
    WritersOf(rows.channels, WritersByTeam(rows.pairs, WriterByMember(rows.members)))
  }

  method LoadGroupWriters(rows: Rows) returns (groups: GroupWriters)
    ensures groups == GroupWritersOf(rows)
  {
    var writerByMember: map<string, Writer> := map[];
    for i := 0 to |rows.members|
      invariant writerByMember == WriterByMember(rows.members[..i])
    {
      assert rows.members[..i + 1][..i] == rows.members[..i];
      var row := rows.members[i];
      if row.pubkey.None? {
        continue;
      }
      var pubkey := Lower(row.pubkey.value);
      if |pubkey| == 64 && IsHex64(pubkey) {
        writerByMember := writerByMember[row.id := Writer(pubkey, row.officer)];
      }
    }
    assert rows.members[..|rows.members|] == rows.members;
    var writersByTeam: map<string, TeamWriters> := map[];
    for i := 0 to |rows.pairs|
      invariant writersByTeam == WritersByTeam(rows.pairs[..i], writerByMember)
    {
      assert rows.pairs[..i + 1][..i] == rows.pairs[..i];
      var pair := rows.pairs[i];
      if pair.memberId !in writerByMember {
        continue;
      }
      var writer := writerByMember[pair.memberId];
      var entry := if pair.teamId in writersByTeam then writersByTeam[pair.teamId] else TeamWriters({}, {});
      entry := entry.(roster := entry.roster + {writer.pubkey});
      if writer.officer {
        entry := entry.(officers := entry.officers + {writer.pubkey});
      }
      writersByTeam := writersByTeam[pair.teamId := entry];
    }
    assert rows.pairs[..|rows.pairs|] == rows.pairs;
    groups := map[];
    for i := 0 to |rows.channels|
      invariant groups == WritersOf(rows.channels[..i], writersByTeam)
    {
      assert rows.channels[..i + 1][..i] == rows.channels[..i];
      var channel := rows.channels[i];
      if !channel.isActive {
        continue;
      }
      if channel.teamId !in writersByTeam {
        groups := groups[channel.groupId := {}];
        continue;
      }
      var team := writersByTeam[channel.teamId];
      groups := groups[channel.groupId := if channel.officerOnly then team.officers else team.roster];
    }
    assert rows.channels[..|rows.channels|] == rows.channels;
  }
}
