/** The rotation, row by row: every field keeps its text under the data that its own row gives. */
module RewrapRows {
  import opened Crypto
  import opened Rewrap
  import opened RewrapRuns
  import opened Wrappers

  // ------------------------------------------------------------------ What a row holds

  predicate HasText(service: CryptoService, stored: Stored, data: string, plain: Bytes) {
    stored.Held? && DecryptBytes(service, stored.blob, data) == Ok(plain)
  }

  predicate IsCurrent(service: CryptoService, stored: Stored) {
    stored.Held? && stored.blob.keyVersion == service.currentVersion
  }

  /** A provider id is bound to the user and the provider. */
  predicate UserHolds(service: CryptoService, row: UserRow, plain: Bytes) {
    row.id.Some? && HasText(service, row.providerIdEncrypted, "oauth_pid|user:" + row.id.value + "|provider:" + row.provider, plain)
  }

  /** A secret key is bound to the public key. */
  predicate MemberHolds(service: CryptoService, row: MemberRow, plain: Bytes) {
    row.pubkey.Some? && HasText(service, row.secretKeyEncrypted, "nostr_sk|pk:" + row.pubkey.value, plain)
  }

  /** A message is bound to its gift wrap and its conversation. */
  predicate DmHolds(service: CryptoService, row: DmRow, plain: Bytes) {
    row.content.Encrypted? && HasText(service, row.content.stored, "dm|gw:" + row.giftWrapId + "|ck:" + row.conversationKey, plain)
  }

  // ------------------------------------------------------------------ Row and cell

  lemma {:induction false} UserIsCell(service: CryptoService, row: UserRow, plain: Bytes)
    ensures UserHolds(service, row, plain) <==> row.id.Some? && OpensTo(service, UserCell(row), plain)
  {
  }

  lemma {:induction false} MemberIsCell(service: CryptoService, row: MemberRow, plain: Bytes)
    ensures row.serverManaged ==> (MemberHolds(service, row, plain) <==> OpensTo(service, MemberCell(row), plain))
    ensures !row.serverManaged ==> MemberCell(row).stored.NoValue?
  {
  }

  lemma {:induction false} DmIsCell(service: CryptoService, row: DmRow, plain: Bytes)
    ensures DmHolds(service, row, plain) <==> OpensTo(service, DmCell(row), plain)
  {
  }

  /** A row that the pass has dealt with, or not. */
  lemma {:induction false} CellKeepsText<Row(!new)>(service: CryptoService, rows: seq<Row>, cell: Row -> Cell,
      put: (Row, EncryptedBlob) -> Row, draws: Draws, n: nat, i: nat, plain: Bytes)
    requires PutsCell(cell, put) && i < |rows| && n <= |rows| && OpensTo(service, cell(rows[i]), plain)
    ensures OpensTo(service, cell(RowsAt(service, rows, cell, put, draws, n)[i]), plain)
    ensures PassedTo(service, CellsOf(rows, cell), draws, n) && i < n ==>
      IsCurrent(service, cell(RowsAt(service, rows, cell, put, draws, n)[i]).stored)
  {
    var cells := CellsOf(rows, cell);
    RowsAreCells(service, rows, cell, put, draws, n);
    EveryPointKeepsPlaintexts(service, cells, draws, n, i);
    assert CellsOf(RowsAt(service, rows, cell, put, draws, n), cell)[i] == cell(RowsAt(service, rows, cell, put, draws, n)[i]);
    if PassedTo(service, cells, draws, n) && i < n {
      PassedIsCurrent(service, cells, draws, n, i, plain);
    }
  }

  lemma {:induction false} PassedIsCurrent(service: CryptoService, cells: seq<Cell>, draws: Draws, n: nat, i: nat, plain: Bytes)
    requires PassedTo(service, cells, draws, n) && i < n && OpensTo(service, cells[i], plain)
    ensures IsCurrent(service, CellsAt(service, cells, draws, n)[i].stored)
  {
    var outcome := OutcomeOf(service, cells[i], draws(i));
    if outcome.Fresh? {
      RewrapKeepsPlaintext(service, cells[i].stored.blob, cells[i].aad, draws(i).nonce);
    }
  }

  lemma {:induction false} PutsAreCells()
    ensures PutsCell(UserCell, PutUser) && PutsCell(MemberCell, PutMember) && PutsCell(DmCell, PutDm)
  {
  }

  // --------------------------------------------------------------------- One table

  lemma {:induction false} UserStays(service: CryptoService, rows: seq<UserRow>, draws: Draws, n: nat, i: nat)
    requires i < |rows|
    ensures
      var after := RowsAt(service, rows, UserCell, PutUser, draws, n)[i];
      after.id == rows[i].id && after.provider == rows[i].provider
  {
    var outcome := OutcomeOf(service, UserCell(rows[i]), draws(i));
    assert Written(service, rows[i], UserCell, PutUser, draws(i)) == if outcome.Fresh? then PutUser(rows[i], outcome.blob) else rows[i];
  }

  /** The users when the pass has dealt with the first `n` of them: each keeps its id, its provider and,
      under them, its text; those dealt with are at the current version. */
  lemma {:induction false} UsersKeepTexts(service: CryptoService, rows: seq<UserRow>, draws: Draws, n: nat, i: nat, plain: Bytes)
    requires i < |rows| && n <= |rows| && UserHolds(service, rows[i], plain)
    ensures
      var after := RowsAt(service, rows, UserCell, PutUser, draws, n)[i];
      && after.id == rows[i].id && after.provider == rows[i].provider && UserHolds(service, after, plain)
      && (PassedTo(service, CellsOf(rows, UserCell), draws, n) && i < n ==> IsCurrent(service, after.providerIdEncrypted))
  {
    var after := RowsAt(service, rows, UserCell, PutUser, draws, n)[i];
    PutsAreCells();
    UserStays(service, rows, draws, n, i);
    UserIsCell(service, rows[i], plain);
    CellKeepsText(service, rows, UserCell, PutUser, draws, n, i, plain);
    UserIsCell(service, after, plain);
  }

  lemma {:induction false} MemberStays(service: CryptoService, rows: seq<MemberRow>, draws: Draws, n: nat, i: nat)
    requires i < |rows|
    ensures
      var after := RowsAt(service, rows, MemberCell, PutMember, draws, n)[i];
      && after.id == rows[i].id && after.serverManaged == rows[i].serverManaged && after.pubkey == rows[i].pubkey
      && (!rows[i].serverManaged ==> after == rows[i])
  {
    var outcome := OutcomeOf(service, MemberCell(rows[i]), draws(i));
    assert !rows[i].serverManaged ==> outcome.Skipped?;
  }

  /** The same for members' keys; those that the server does not manage stay as they are. */
  lemma {:induction false} MembersKeepTexts(service: CryptoService, rows: seq<MemberRow>, draws: Draws, n: nat, i: nat, plain: Bytes)
    requires i < |rows| && n <= |rows| && MemberHolds(service, rows[i], plain)
    ensures
      var after := RowsAt(service, rows, MemberCell, PutMember, draws, n)[i];
      && after.id == rows[i].id && after.pubkey == rows[i].pubkey && MemberHolds(service, after, plain)
      && (rows[i].serverManaged && PassedTo(service, CellsOf(rows, MemberCell), draws, n) && i < n ==>
            IsCurrent(service, after.secretKeyEncrypted))
      && (!rows[i].serverManaged ==> after == rows[i])
  {
    var after := RowsAt(service, rows, MemberCell, PutMember, draws, n)[i];
    MemberIsCell(service, rows[i], plain);
    MemberStays(service, rows, draws, n, i);
    if rows[i].serverManaged {
      PutsAreCells();
      CellKeepsText(service, rows, MemberCell, PutMember, draws, n, i, plain);
      MemberIsCell(service, after, plain);
    }
  }

  lemma {:induction false} DmStays(service: CryptoService, rows: seq<DmRow>, draws: Draws, n: nat, i: nat)
    requires i < |rows|
    ensures
      var after := RowsAt(service, rows, DmCell, PutDm, draws, n)[i];
      && after.id == rows[i].id && after.giftWrapId == rows[i].giftWrapId && after.conversationKey == rows[i].conversationKey
      && (rows[i].content.Encrypted? ==> after.content.Encrypted?)
  {
    var outcome := OutcomeOf(service, DmCell(rows[i]), draws(i));
    assert Written(service, rows[i], DmCell, PutDm, draws(i)) == if outcome.Fresh? then PutDm(rows[i], outcome.blob) else rows[i];
  }

  /** The same for messages. */
  lemma {:induction false} DmsKeepTexts(service: CryptoService, rows: seq<DmRow>, draws: Draws, n: nat, i: nat, plain: Bytes)
    requires i < |rows| && n <= |rows| && DmHolds(service, rows[i], plain)
    ensures
      var after := RowsAt(service, rows, DmCell, PutDm, draws, n)[i];
      && after.id == rows[i].id && after.giftWrapId == rows[i].giftWrapId && after.conversationKey == rows[i].conversationKey
      && DmHolds(service, after, plain)
      && (PassedTo(service, CellsOf(rows, DmCell), draws, n) && i < n ==> IsCurrent(service, after.content.stored))
  {
    var after := RowsAt(service, rows, DmCell, PutDm, draws, n)[i];
    PutsAreCells();
    DmStays(service, rows, draws, n, i);
    DmIsCell(service, rows[i], plain);
    CellKeepsText(service, rows, DmCell, PutDm, draws, n, i, plain);
    DmIsCell(service, after, plain);
  }

  // ----------------------------------------------------------------------- A run

  /** Rows that a rotation has no reason to stop at: nothing to reseal, or a blob that is current or opens. */
  ghost predicate UserIsFine(service: CryptoService, row: UserRow) {
    || row.providerIdEncrypted.NoValue? || row.providerIdEncrypted.Null?
    || (row.id.Some? && (IsCurrent(service, row.providerIdEncrypted) || exists plain :: UserHolds(service, row, plain)))
  }

  ghost predicate MemberIsFine(service: CryptoService, row: MemberRow) {
    || !row.serverManaged || row.pubkey.None? || row.secretKeyEncrypted.NoValue? || row.secretKeyEncrypted.Null?
    || (row.id.Some? && (IsCurrent(service, row.secretKeyEncrypted) || exists plain :: MemberHolds(service, row, plain)))
  }

  ghost predicate DmIsFine(service: CryptoService, row: DmRow) {
    || row.content.PlainText?
    || (row.id.Some? && (IsCurrent(service, row.content.stored) || exists plain :: DmHolds(service, row, plain)))
  }

  ghost predicate CellIsFine(service: CryptoService, cell: Cell) {
    || cell.stored.NoValue? || cell.stored.Null?
    || (cell.hasId && (IsCurrent(service, cell.stored) || exists plain :: OpensTo(service, cell, plain)))
  }

  /** A nonce can be drawn and the update is taken at every row. */
  ghost predicate NothingFails(draws: Draws) {
    forall i :: draws(i).nonce.Some? && draws(i).updateTaken
  }

  lemma {:induction false} FineCellPasses(service: CryptoService, cell: Cell, draw: Draw)
    requires service.currentVersion in service.keys
    requires CellIsFine(service, cell) ==> draw.nonce.Some? && draw.updateTaken
    ensures !OutcomeOf(service, cell, draw).Failed? <==> CellIsFine(service, cell)
  {
    if cell.stored.Held? && DecryptBytes(service, cell.stored.blob, cell.aad).Ok? {
      assert OpensTo(service, cell, DecryptBytes(service, cell.stored.blob, cell.aad).value);
    }
  }

  lemma {:induction false} FineTablePasses<Row>(service: CryptoService, rows: seq<Row>, cell: Row -> Cell, draws: Draws)
    requires service.currentVersion in service.keys && NothingFails(draws)
    ensures PassedTo(service, CellsOf(rows, cell), draws, |rows|) <==> forall row :: row in rows ==> CellIsFine(service, cell(row))
  {
    var cells := CellsOf(rows, cell);
    forall i | 0 <= i < |rows|
      ensures !OutcomeOf(service, cells[i], draws(i)).Failed? <==> CellIsFine(service, cell(rows[i]))
    {
      FineCellPasses(service, cell(rows[i]), draws(i));
    }
    if PassedTo(service, cells, draws, |rows|) {
      forall row | row in rows
        ensures CellIsFine(service, cell(row))
      {
        var i :| 0 <= i < |rows| && rows[i] == row;
        assert !OutcomeOf(service, cells[i], draws(i)).Failed?;
      }
    }
  }

  lemma {:induction false} UserIsFineCell(service: CryptoService, row: UserRow)
    ensures UserIsFine(service, row) <==> CellIsFine(service, UserCell(row))
  {
    forall plain
      ensures UserHolds(service, row, plain) <==> row.id.Some? && OpensTo(service, UserCell(row), plain)
    {
      UserIsCell(service, row, plain);
    }
  }

  lemma {:induction false} MemberIsFineCell(service: CryptoService, row: MemberRow)
    ensures MemberIsFine(service, row) <==> CellIsFine(service, MemberCell(row))
  {
    forall plain
      ensures row.serverManaged ==> (MemberHolds(service, row, plain) <==> OpensTo(service, MemberCell(row), plain))
    {
      MemberIsCell(service, row, plain);
    }
  }

  lemma {:induction false} DmIsFineCell(service: CryptoService, row: DmRow)
    ensures DmIsFine(service, row) <==> CellIsFine(service, DmCell(row))
  {
    forall plain
      ensures DmHolds(service, row, plain) <==> OpensTo(service, DmCell(row), plain)
    {
      DmIsCell(service, row, plain);
    }
  }

  /** The three tables. */
  datatype Tables = Tables(users: seq<UserRow>, members: seq<MemberRow>, dms: seq<DmRow>)

  /** What `RewrapAllEncryptedFields` leaves. */
  ghost predicate Rotates(service: CryptoService, before: Tables, after: Tables, draws: (Draws, Draws, Draws),
      reach: (nat, nat, nat), result: Result<RewrapStats, RewrapError>)
  {
    && RunsTo(service, AllCells(before.users, before.members, before.dms), AllCells(after.users, after.members, after.dms), draws, reach, result)
    && after.users == RowsAt(service, before.users, UserCell, PutUser, draws.0, reach.0)
    && after.members == RowsAt(service, before.members, MemberCell, PutMember, draws.1, reach.1)
    && after.dms == RowsAt(service, before.dms, DmCell, PutDm, draws.2, reach.2)
  }

  ghost predicate AllFine(service: CryptoService, tables: Tables) {
    && (forall row :: row in tables.users ==> UserIsFine(service, row))
    && (forall row :: row in tables.members ==> MemberIsFine(service, row))
    && (forall row :: row in tables.dms ==> DmIsFine(service, row))
  }

  /** With nothing else failing, a rotation ends well if and only if it meets no row that it must stop at:
      one without an id, a blob that is none, or one of an old version that does not open. */
  lemma {:induction false} RotationEndsOkIff(service: CryptoService, before: Tables, after: Tables, draws: (Draws, Draws, Draws),
      reach: (nat, nat, nat), result: Result<RewrapStats, RewrapError>)
    requires Rotates(service, before, after, draws, reach, result) && service.currentVersion in service.keys
    requires NothingFails(draws.0) && NothingFails(draws.1) && NothingFails(draws.2)
    ensures result.Ok? <==> AllFine(service, before)
  {
    forall row: UserRow
      ensures UserIsFine(service, row) <==> CellIsFine(service, UserCell(row))
    {
      UserIsFineCell(service, row);
    }
    forall row: MemberRow
      ensures MemberIsFine(service, row) <==> CellIsFine(service, MemberCell(row))
    {
      MemberIsFineCell(service, row);
    }
    forall row: DmRow
      ensures DmIsFine(service, row) <==> CellIsFine(service, DmCell(row))
    {
      DmIsFineCell(service, row);
    }
    FineTablePasses(service, before.users, UserCell, draws.0);
    FineTablePasses(service, before.members, MemberCell, draws.1);
    FineTablePasses(service, before.dms, DmCell, draws.2);
  }

  /** In every rotation, ended or failed, no row loses its text or what it is bound to. */
  lemma {:induction false} RotationKeepsTexts(service: CryptoService, before: Tables, after: Tables, draws: (Draws, Draws, Draws),
      reach: (nat, nat, nat), result: Result<RewrapStats, RewrapError>, i: nat, plain: Bytes)
    requires Rotates(service, before, after, draws, reach, result)
    ensures i < |before.users| && UserHolds(service, before.users[i], plain) ==>
      UserHolds(service, after.users[i], plain) && after.users[i].id == before.users[i].id
    ensures i < |before.members| && MemberHolds(service, before.members[i], plain) ==>
      MemberHolds(service, after.members[i], plain) && after.members[i].pubkey == before.members[i].pubkey
    ensures i < |before.dms| && DmHolds(service, before.dms[i], plain) ==>
      DmHolds(service, after.dms[i], plain) && after.dms[i].giftWrapId == before.dms[i].giftWrapId
  {
    if i < |before.users| && UserHolds(service, before.users[i], plain) {
      UsersKeepTexts(service, before.users, draws.0, reach.0, i, plain);
    }
    if i < |before.members| && MemberHolds(service, before.members[i], plain) {
      MembersKeepTexts(service, before.members, draws.1, reach.1, i, plain);
    }
    if i < |before.dms| && DmHolds(service, before.dms[i], plain) {
      DmsKeepTexts(service, before.dms, draws.2, reach.2, i, plain);
    }
  }

  /** And in one that ends well each is then at the current version, members' keys if the server manages
      them. */
  lemma {:induction false} RotationRenews(service: CryptoService, before: Tables, after: Tables, draws: (Draws, Draws, Draws),
      reach: (nat, nat, nat), result: Result<RewrapStats, RewrapError>, i: nat, plain: Bytes)
    requires Rotates(service, before, after, draws, reach, result) && result.Ok?
    ensures i < |before.users| && UserHolds(service, before.users[i], plain) ==> IsCurrent(service, after.users[i].providerIdEncrypted)
    ensures i < |before.members| && before.members[i].serverManaged && MemberHolds(service, before.members[i], plain) ==>
      IsCurrent(service, after.members[i].secretKeyEncrypted)
    ensures i < |before.dms| && DmHolds(service, before.dms[i], plain) ==>
      after.dms[i].content.Encrypted? && IsCurrent(service, after.dms[i].content.stored)
  {
    if i < |before.users| && UserHolds(service, before.users[i], plain) {
      UsersKeepTexts(service, before.users, draws.0, reach.0, i, plain);
    }
    if i < |before.members| && MemberHolds(service, before.members[i], plain) {
      MembersKeepTexts(service, before.members, draws.1, reach.1, i, plain);
    }
    if i < |before.dms| && DmHolds(service, before.dms[i], plain) {
      DmsKeepTexts(service, before.dms, draws.2, reach.2, i, plain);
    }
  }
}
