/** The key-rotation pass: every encrypted field of three tables is sealed again under
    the current key, row by row, stopping at the first error. */
module Rewrap {
  import opened Crypto
  import opened Wrappers

  /** A stored field that may hold an encrypted blob. */
  datatype Stored = NoValue | Null | Corrupt | Held(blob: EncryptedBlob)

  datatype UserRow = UserRow(id: Option<string>, provider: string, providerIdEncrypted: Stored)

  datatype MemberRow = MemberRow(id: Option<string>, serverManaged: bool, pubkey: Option<string>, secretKeyEncrypted: Stored)

  /** The content of a message: plain text, or the "enc1:" prefix and what follows it. */
  datatype Content = PlainText(text: string) | Encrypted(stored: Stored)

  datatype DmRow = DmRow(id: Option<string>, giftWrapId: string, conversationKey: string, content: Content)

  datatype RewrapStats = RewrapStats(scanned: nat, rewrapped: nat, skippedCurrent: nat, errors: nat)

  datatype RewrapError = NotConfigured | MissingId | CorruptBlob | RewrapFailed(error: CryptoError) | UpdateFailed

  /** What is not in the program's hands at one row: the nonce drawn, and whether the database takes
      the update. */
  datatype Draw = Draw(nonce: Option<Nonce>, updateTaken: bool)

  type Draws = nat -> Draw

  // ------------------------------------------------------------------ One field

  /** What the three loops have in common: the associated data of a field, whether its row has an id,
      and what it holds. `NoValue` and `Null` fields are not looked at. */
  datatype Cell = Cell(aad: string, hasId: bool, stored: Stored)

  function UserCell(row: UserRow): Cell {
    Cell(OauthProviderId(if row.id.Some? then row.id.value else "", row.provider), row.id.Some?, row.providerIdEncrypted)
  }

  /** Only server-managed keys of members with a public key are looked at. */
  function MemberCell(row: MemberRow): Cell {
    Cell(NostrSecretKey(if row.pubkey.Some? then row.pubkey.value else ""), row.id.Some?,
         if row.serverManaged && row.pubkey.Some? then row.secretKeyEncrypted else NoValue)
  }

  /** After the prefix anything that is no blob is corrupt. */
  function DmCell(row: DmRow): Cell {
    Cell(DmContent(row.giftWrapId, row.conversationKey), row.id.Some?,
         match row.content
         case PlainText(_) => NoValue
         case Encrypted(stored) => if stored.Held? then stored else Corrupt)
  }

  datatype Outcome = Skipped | Current | Fresh(blob: EncryptedBlob) | Failed(error: RewrapError)

  function OutcomeOf(service: CryptoService, cell: Cell, draw: Draw): Outcome {
    if cell.stored.NoValue? || cell.stored.Null? then Skipped
    else if !cell.hasId then Failed(MissingId)
    else if cell.stored.Corrupt? then Failed(CorruptBlob)
    else if cell.stored.blob.keyVersion == service.currentVersion then Current
    else
      match RewrapBlob(service, cell.stored.blob, cell.aad, draw.nonce)
      case Err(error) => Failed(RewrapFailed(error))
      case Ok(resealed) => if draw.updateTaken then Fresh(resealed) else Failed(UpdateFailed)
  }

  function AfterOutcome(stored: Stored, outcome: Outcome): Stored {
    if outcome.Fresh? then Held(outcome.blob) else stored
  }

  function Count(stats: RewrapStats, outcome: Outcome): RewrapStats {
    match outcome
    case Skipped => stats
    case Current => stats.(scanned := stats.scanned + 1, skippedCurrent := stats.skippedCurrent + 1)
    case Fresh(_) => stats.(scanned := stats.scanned + 1, rewrapped := stats.rewrapped + 1)
    case Failed(_) => stats.(scanned := stats.scanned + 1)
  }

  // -------------------------------------------------------------------- A table

  function OutcomesOf(service: CryptoService, cells: seq<Cell>, draws: Draws): seq<Outcome> {
    seq(|cells|, i requires 0 <= i < |cells| => OutcomeOf(service, cells[i], draws(i)))
  }

  function CountAll(stats: RewrapStats, outcomes: seq<Outcome>): RewrapStats {
    if outcomes == [] then stats
    else Count(CountAll(stats, outcomes[..|outcomes| - 1]), outcomes[|outcomes| - 1])
  }

  /** The pass went through the first `n` fields without an error. */
  ghost predicate PassedTo(service: CryptoService, cells: seq<Cell>, draws: Draws, n: nat) {
    n <= |cells| && forall i :: 0 <= i < n ==> !OutcomeOf(service, cells[i], draws(i)).Failed?
  }

  /** The fields when the pass has dealt with the first `n` of them. */
  function CellsAt(service: CryptoService, cells: seq<Cell>, draws: Draws, n: nat): seq<Cell> {
    seq(|cells|, i requires 0 <= i < |cells| =>
      if i < n then cells[i].(stored := AfterOutcome(cells[i].stored, OutcomeOf(service, cells[i], draws(i)))) else cells[i])
  }

  /** How a pass over a table ends: at the end, or at the first error. */
  ghost predicate EndsAt(service: CryptoService, before: seq<Cell>, draws: Draws, n: nat,
      stats: RewrapStats, stats': RewrapStats, error: Option<RewrapError>)
  {
    && PassedTo(service, before, draws, n)
    && (error.None? ==> n == |before| && stats' == CountAll(stats, OutcomesOf(service, before, draws)))
    && (error.Some? ==> n < |before|)
    && (error.Some? ==> OutcomeOf(service, before[n], draws(n)) == Failed(error.value))
    && (error.Some? ==> stats' == CountAll(stats, OutcomesOf(service, before, draws)[..n + 1]))
  }

  // The three tables differ in what a row's field is and in how it is written.

  function PutUser(row: UserRow, blob: EncryptedBlob): UserRow {
    row.(providerIdEncrypted := Held(blob))
  }

  function PutMember(row: MemberRow, blob: EncryptedBlob): MemberRow {
    row.(secretKeyEncrypted := Held(blob))
  }

  function PutDm(row: DmRow, blob: EncryptedBlob): DmRow {
    row.(content := Encrypted(Held(blob)))
  }

  function CellsOf<Row>(rows: seq<Row>, cell: Row -> Cell): seq<Cell> {
    seq(|rows|, i requires 0 <= i < |rows| => cell(rows[i]))
  }

  /** The rows when the pass has dealt with the first `n` of them: only encrypted fields are written. */
  function RowsAt<Row>(service: CryptoService, rows: seq<Row>, cell: Row -> Cell, put: (Row, EncryptedBlob) -> Row,
      draws: Draws, n: nat): seq<Row>
  {
    seq(|rows|, i requires 0 <= i < |rows| => if i < n then Written(service, rows[i], cell, put, draws(i)) else rows[i])
  }

  function Written<Row>(service: CryptoService, row: Row, cell: Row -> Cell, put: (Row, EncryptedBlob) -> Row, draw: Draw): Row {
    match OutcomeOf(service, cell(row), draw)
    case Fresh(blob) => put(row, blob)
    case _ => row
  }

  /** Writing a held field changes that field and nothing else that the pass looks at. */
  ghost predicate PutsCell<Row(!new)>(cell: Row -> Cell, put: (Row, EncryptedBlob) -> Row) {
    forall row, blob :: cell(row).stored.Held? ==> cell(put(row, blob)) == cell(row).(stored := Held(blob))
  }

  lemma {:induction false} RowsNext<Row>(service: CryptoService, rows: seq<Row>, cell: Row -> Cell,
      put: (Row, EncryptedBlob) -> Row, draws: Draws, i: nat)
    requires i < |rows|
    ensures RowsAt(service, rows, cell, put, draws, i + 1)
         == RowsAt(service, rows, cell, put, draws, i)[i := Written(service, rows[i], cell, put, draws(i))]
  {
  }

  lemma {:induction false} NoRows<Row>(service: CryptoService, rows: seq<Row>, cell: Row -> Cell,
      put: (Row, EncryptedBlob) -> Row, draws: Draws)
    ensures RowsAt(service, rows, cell, put, draws, 0) == rows
  {
  }

  lemma {:induction false} RowIsCell<Row(!new)>(service: CryptoService, row: Row, cell: Row -> Cell,
      put: (Row, EncryptedBlob) -> Row, draw: Draw)
    requires PutsCell(cell, put)
    ensures cell(Written(service, row, cell, put, draw))
         == cell(row).(stored := AfterOutcome(cell(row).stored, OutcomeOf(service, cell(row), draw)))
  {
  }

  lemma {:induction false} RowsAreCells<Row(!new)>(service: CryptoService, rows: seq<Row>, cell: Row -> Cell,
      put: (Row, EncryptedBlob) -> Row, draws: Draws, n: nat)
    requires PutsCell(cell, put)
    ensures CellsOf(RowsAt(service, rows, cell, put, draws, n), cell) == CellsAt(service, CellsOf(rows, cell), draws, n)
  {
    forall i | 0 <= i < |rows|
      ensures CellsOf(RowsAt(service, rows, cell, put, draws, n), cell)[i] == CellsAt(service, CellsOf(rows, cell), draws, n)[i]
    {
      RowIsCell(service, rows[i], cell, put, draws(i));
    }
  }

  lemma {:induction false} CountNext(service: CryptoService, cells: seq<Cell>, draws: Draws, i: nat, stats: RewrapStats)
    requires i < |cells|
    ensures
      var outcomes := OutcomesOf(service, cells, draws);
      CountAll(stats, outcomes[..i + 1]) == Count(CountAll(stats, outcomes[..i]), OutcomeOf(service, cells[i], draws(i)))
  {
    var outcomes := OutcomesOf(service, cells, draws);
    assert outcomes[..i + 1][..i] == outcomes[..i];
  }

  lemma {:induction false} PassedNext(service: CryptoService, cells: seq<Cell>, draws: Draws, i: nat)
    requires PassedTo(service, cells, draws, i) && i < |cells|
    ensures PassedTo(service, cells, draws, i + 1) <==> !OutcomeOf(service, cells[i], draws(i)).Failed?
  {
  }

  /** The pass ends at a field whose outcome is an error. */
  lemma {:induction false} StopsAt(service: CryptoService, cells: seq<Cell>, draws: Draws, i: nat,
      stats: RewrapStats, stats': RewrapStats, error: RewrapError)
    requires i < |cells| && PassedTo(service, cells, draws, i) && OutcomeOf(service, cells[i], draws(i)) == Failed(error)
    requires stats' == Count(CountAll(stats, OutcomesOf(service, cells, draws)[..i]), Failed(error))
    ensures EndsAt(service, cells, draws, i, stats, stats', Some(error))
  {
    CountNext(service, cells, draws, i, stats);
  }

  class Database {
    var users: seq<UserRow>
    var members: seq<MemberRow>
    var dms: seq<DmRow>
    var crypto: Option<CryptoService>

    constructor (users: seq<UserRow>, members: seq<MemberRow>, dms: seq<DmRow>, crypto: Option<CryptoService>)
      ensures this.users == users && this.members == members && this.dms == dms && this.crypto == crypto
    {
      this.users, this.members, this.dms, this.crypto := users, members, dms, crypto;
    }

    method RewrapUsers(service: CryptoService, draws: Draws, stats: RewrapStats)
      returns (stats': RewrapStats, error: Option<RewrapError>, ghost n: nat)
      modifies this`users
      ensures EndsAt(service, CellsOf(old(users), UserCell), draws, n, stats, stats', error)
      ensures users == RowsAt(service, old(users), UserCell, PutUser, draws, n)
    {
      var rows := users;
      ghost var cells := CellsOf(rows, UserCell);
      ghost var outcomes := OutcomesOf(service, cells, draws);
      stats', n := stats, 0;
      for i := 0 to |rows|
        invariant n == i && PassedTo(service, cells, draws, i)
        invariant users == RowsAt(service, rows, UserCell, PutUser, draws, i)
        invariant stats' == CountAll(stats, outcomes[..i])
      {
        RowsNext(service, rows, UserCell, PutUser, draws, i);
        CountNext(service, cells, draws, i, stats);
        PassedNext(service, cells, draws, i);
        n := i + 1;
        var row := rows[i];
        assert cells[i] == UserCell(row);
        if row.providerIdEncrypted.NoValue? || row.providerIdEncrypted.Null? {
          continue;
        }
        stats' := stats'.(scanned := stats'.scanned + 1);
        if row.id.None? {
          StopsAt(service, cells, draws, i, stats, stats', MissingId);
          return stats', Some(MissingId), i;
        }
        if row.providerIdEncrypted.Corrupt? {
          StopsAt(service, cells, draws, i, stats, stats', CorruptBlob);
          return stats', Some(CorruptBlob), i;
        }
        var blob := row.providerIdEncrypted.blob;
        if blob.keyVersion == service.currentVersion {
          stats' := stats'.(skippedCurrent := stats'.skippedCurrent + 1);
          continue;
        }
        var resealed := RewrapBlob(service, blob, OauthProviderId(row.id.value, row.provider), draws(i).nonce);
        if resealed.Err? {
          StopsAt(service, cells, draws, i, stats, stats', RewrapFailed(resealed.error));
          return stats', Some(RewrapFailed(resealed.error)), i;
        }
        if !draws(i).updateTaken {
          StopsAt(service, cells, draws, i, stats, stats', UpdateFailed);
          return stats', Some(UpdateFailed), i;
        }
        users := users[i := row.(providerIdEncrypted := Held(resealed.value))];
        stats' := stats'.(rewrapped := stats'.rewrapped + 1);
      }
      assert outcomes[..|rows|] == outcomes;
      error := None;
    }

    method RewrapMembers(service: CryptoService, draws: Draws, stats: RewrapStats)
      returns (stats': RewrapStats, error: Option<RewrapError>, ghost n: nat)
      modifies this`members
      ensures EndsAt(service, CellsOf(old(members), MemberCell), draws, n, stats, stats', error)
      ensures members == RowsAt(service, old(members), MemberCell, PutMember, draws, n)
    {
      var rows := members;
      ghost var cells := CellsOf(rows, MemberCell);
      ghost var outcomes := OutcomesOf(service, cells, draws);
      stats', n := stats, 0;
      for i := 0 to |rows|
        invariant n == i && PassedTo(service, cells, draws, i)
        invariant members == RowsAt(service, rows, MemberCell, PutMember, draws, i)
        invariant stats' == CountAll(stats, outcomes[..i])
      {
        RowsNext(service, rows, MemberCell, PutMember, draws, i);
        CountNext(service, cells, draws, i, stats);
        PassedNext(service, cells, draws, i);
        n := i + 1;
        var row := rows[i];
        assert cells[i] == MemberCell(row);
        if !row.serverManaged || row.secretKeyEncrypted.NoValue? || row.pubkey.None? {
          continue;
        }
        if row.secretKeyEncrypted.Null? {
          continue;
        }
        stats' := stats'.(scanned := stats'.scanned + 1);
        if row.id.None? {
          StopsAt(service, cells, draws, i, stats, stats', MissingId);
          return stats', Some(MissingId), i;
        }
        if row.secretKeyEncrypted.Corrupt? {
          StopsAt(service, cells, draws, i, stats, stats', CorruptBlob);
          return stats', Some(CorruptBlob), i;
        }
        var blob := row.secretKeyEncrypted.blob;
        if blob.keyVersion == service.currentVersion {
          stats' := stats'.(skippedCurrent := stats'.skippedCurrent + 1);
          continue;
        }
        var resealed := RewrapBlob(service, blob, NostrSecretKey(row.pubkey.value), draws(i).nonce);
        if resealed.Err? {
          StopsAt(service, cells, draws, i, stats, stats', RewrapFailed(resealed.error));
          return stats', Some(RewrapFailed(resealed.error)), i;
        }
        if !draws(i).updateTaken {
          StopsAt(service, cells, draws, i, stats, stats', UpdateFailed);
          return stats', Some(UpdateFailed), i;
        }
        members := members[i := row.(secretKeyEncrypted := Held(resealed.value))];
        stats' := stats'.(rewrapped := stats'.rewrapped + 1);
      }
      assert outcomes[..|rows|] == outcomes;
      error := None;
    }

    method RewrapDmMessages(service: CryptoService, draws: Draws, stats: RewrapStats)
      returns (stats': RewrapStats, error: Option<RewrapError>, ghost n: nat)
      modifies this`dms
      ensures EndsAt(service, CellsOf(old(dms), DmCell), draws, n, stats, stats', error)
      ensures dms == RowsAt(service, old(dms), DmCell, PutDm, draws, n)
    {
      var rows := dms;
      ghost var cells := CellsOf(rows, DmCell);
      ghost var outcomes := OutcomesOf(service, cells, draws);
      stats', n := stats, 0;
      for i := 0 to |rows|
        invariant n == i && PassedTo(service, cells, draws, i)
        invariant dms == RowsAt(service, rows, DmCell, PutDm, draws, i)
        invariant stats' == CountAll(stats, outcomes[..i])
      {
        RowsNext(service, rows, DmCell, PutDm, draws, i);
        CountNext(service, cells, draws, i, stats);
        PassedNext(service, cells, draws, i);
        n := i + 1;
        var row := rows[i];
        assert cells[i] == DmCell(row);
        if row.content.PlainText? {
          continue;
        }
        stats' := stats'.(scanned := stats'.scanned + 1);
        if row.id.None? {
          StopsAt(service, cells, draws, i, stats, stats', MissingId);
          return stats', Some(MissingId), i;
        }
        if !row.content.stored.Held? {
          StopsAt(service, cells, draws, i, stats, stats', CorruptBlob);
          return stats', Some(CorruptBlob), i;
        }
        var blob := row.content.stored.blob;
        if blob.keyVersion == service.currentVersion {
          stats' := stats'.(skippedCurrent := stats'.skippedCurrent + 1);
          continue;
        }
        var resealed := RewrapBlob(service, blob, DmContent(row.giftWrapId, row.conversationKey), draws(i).nonce);
        if resealed.Err? {
          StopsAt(service, cells, draws, i, stats, stats', RewrapFailed(resealed.error));
          return stats', Some(RewrapFailed(resealed.error)), i;
        }
        if !draws(i).updateTaken {
          StopsAt(service, cells, draws, i, stats, stats', UpdateFailed);
          return stats', Some(UpdateFailed), i;
        }
        dms := dms[i := row.(content := Encrypted(Held(resealed.value)))];
        stats' := stats'.(rewrapped := stats'.rewrapped + 1);
      }
      assert outcomes[..|rows|] == outcomes;
      error := None;
    }

    /** Users, then members, then messages; an error in one table leaves the later ones alone. */
    method RewrapAllEncryptedFields(draws: (Draws, Draws, Draws)) returns (result: Result<RewrapStats, RewrapError>, ghost reach: (nat, nat, nat))
      modifies this`users, this`members, this`dms
      ensures crypto.None? ==> result == Err(NotConfigured) && users == old(users) && members == old(members) && dms == old(dms)
      ensures crypto.Some? ==> RunsTo(crypto.value, AllCells(old(users), old(members), old(dms)), AllCells(users, members, dms), draws, reach, result)
      ensures crypto.Some? ==>
        && users == RowsAt(crypto.value, old(users), UserCell, PutUser, draws.0, reach.0)
        && members == RowsAt(crypto.value, old(members), MemberCell, PutMember, draws.1, reach.1)
        && dms == RowsAt(crypto.value, old(dms), DmCell, PutDm, draws.2, reach.2)
    {
      reach := (0, 0, 0);
      if crypto.None? {
        return Err(NotConfigured), reach;
      }
      var service := crypto.value;
      NoRows(service, members, MemberCell, PutMember, draws.1);
      NoRows(service, dms, DmCell, PutDm, draws.2);
      ghost var before := AllCells(users, members, dms);
      ghost var was := (users, members, dms);
      var stats, usersError, usersDone := RewrapUsers(service, draws.0, NO_STATS);
      reach := (usersDone, 0, 0);
      RowsAreCells(service, was.0, UserCell, PutUser, draws.0, usersDone);
      if usersError.Some? {
        UsersFail(service, before, draws, usersDone, stats, usersError);
        return Err(usersError.value), reach;
      }
      var stats', membersError, membersDone := RewrapMembers(service, draws.1, stats);
      reach := (usersDone, membersDone, 0);
      RowsAreCells(service, was.1, MemberCell, PutMember, draws.1, membersDone);
      if membersError.Some? {
        MembersFail(service, before, draws, stats, membersDone, stats', membersError);
        return Err(membersError.value), reach;
      }
      var stats'', dmsError, dmsDone := RewrapDmMessages(service, draws.2, stats');
      reach := (usersDone, membersDone, dmsDone);
      RowsAreCells(service, was.2, DmCell, PutDm, draws.2, dmsDone);
      DmsEnd(service, before, draws, stats, stats', dmsDone, stats'', dmsError);
      if dmsError.Some? {
        return Err(dmsError.value), reach;
      }
      result := Ok(stats'');
    }
  }

  const NO_STATS := RewrapStats(0, 0, 0, 0)

  lemma {:induction false} UsersFail(service: CryptoService, before: Cells, draws: (Draws, Draws, Draws),
      n: nat, stats: RewrapStats, error: Option<RewrapError>)
    requires EndsAt(service, before.users, draws.0, n, NO_STATS, stats, error) && error.Some?
    ensures RunsTo(service, before, Cells(CellsAt(service, before.users, draws.0, n), before.members, before.dms),
                   draws, (n, 0, 0), Err(error.value))
  {
    Untouched(service, before.members, draws.1);
    Untouched(service, before.dms, draws.2);
  }

  lemma {:induction false} MembersFail(service: CryptoService, before: Cells, draws: (Draws, Draws, Draws),
      users: RewrapStats, n: nat, stats: RewrapStats, error: Option<RewrapError>)
    requires EndsAt(service, before.users, draws.0, |before.users|, NO_STATS, users, None)
    requires EndsAt(service, before.members, draws.1, n, users, stats, error) && error.Some?
    ensures RunsTo(service, before,
                   Cells(CellsAt(service, before.users, draws.0, |before.users|), CellsAt(service, before.members, draws.1, n), before.dms),
                   draws, (|before.users|, n, 0), Err(error.value))
  {
    Untouched(service, before.dms, draws.2);
  }

  lemma {:induction false} DmsEnd(service: CryptoService, before: Cells, draws: (Draws, Draws, Draws),
      users: RewrapStats, members: RewrapStats, n: nat, stats: RewrapStats, error: Option<RewrapError>)
    requires EndsAt(service, before.users, draws.0, |before.users|, NO_STATS, users, None)
    requires EndsAt(service, before.members, draws.1, |before.members|, users, members, None)
    requires EndsAt(service, before.dms, draws.2, n, members, stats, error)
    ensures RunsTo(service, before,
                   Cells(CellsAt(service, before.users, draws.0, |before.users|),
                         CellsAt(service, before.members, draws.1, |before.members|),
                         CellsAt(service, before.dms, draws.2, n)),
                   draws, (|before.users|, |before.members|, n),
                   if error.Some? then Err(error.value) else Ok(stats))
  {
  }

  datatype Cells = Cells(users: seq<Cell>, members: seq<Cell>, dms: seq<Cell>)

  function AllCells(users: seq<UserRow>, members: seq<MemberRow>, dms: seq<DmRow>): Cells {
    Cells(CellsOf(users, UserCell), CellsOf(members, MemberCell), CellsOf(dms, DmCell))
  }

  lemma {:induction false} Untouched(service: CryptoService, cells: seq<Cell>, draws: Draws)
    ensures CellsAt(service, cells, draws, 0) == cells
    ensures PassedTo(service, cells, draws, 0)
  {
  }

  /** A whole run: each table is dealt with up to its reach, a later one only when the earlier are done;
      without an error all are, and the statistics count every field. */
  ghost predicate RunsTo(service: CryptoService, before: Cells, after: Cells, draws: (Draws, Draws, Draws),
      reach: (nat, nat, nat), result: Result<RewrapStats, RewrapError>)
  {
    && PassedTo(service, before.users, draws.0, reach.0)
    && PassedTo(service, before.members, draws.1, reach.1)
    && PassedTo(service, before.dms, draws.2, reach.2)
    && after.users == CellsAt(service, before.users, draws.0, reach.0)
    && after.members == CellsAt(service, before.members, draws.1, reach.1)
    && after.dms == CellsAt(service, before.dms, draws.2, reach.2)
    && (reach.1 > 0 ==> reach.0 == |before.users|)
    && (reach.2 > 0 ==> reach.0 == |before.users| && reach.1 == |before.members|)
    && (result.Ok? ==>
          && reach == (|before.users|, |before.members|, |before.dms|)
          && result.value == CountAll(CountAll(CountAll(RewrapStats(0, 0, 0, 0),
               OutcomesOf(service, before.users, draws.0)),
               OutcomesOf(service, before.members, draws.1)),
               OutcomesOf(service, before.dms, draws.2)))
    && (result.Err? ==>
          || (reach.0 < |before.users| && OutcomeOf(service, before.users[reach.0], draws.0(reach.0)) == Failed(result.error))
          || (reach.1 < |before.members| && OutcomeOf(service, before.members[reach.1], draws.1(reach.1)) == Failed(result.error))
          || (reach.2 < |before.dms| && OutcomeOf(service, before.dms[reach.2], draws.2(reach.2)) == Failed(result.error)))
  }
}
