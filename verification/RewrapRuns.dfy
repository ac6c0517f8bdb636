/** What the key-rotation pass guarantees at every point of a run, at its end, and when
    it is run again. */
module RewrapRuns {
  import opened Crypto
  import opened Rewrap
  import opened Wrappers

  /** The field opens to this plaintext under its own associated data. */
  predicate OpensTo(service: CryptoService, cell: Cell, plain: Bytes) {
    cell.stored.Held? && DecryptBytes(service, cell.stored.blob, cell.aad) == Ok(plain)
  }

  /** At every point of a pass each field opens exactly as before; one that was rewrapped is at the
      current version and opens in strict mode too. */
  lemma {:induction false} EveryPointKeepsPlaintexts(service: CryptoService, cells: seq<Cell>, draws: Draws, n: nat, i: nat)
    requires n <= |cells| && i < |cells|
    ensures |CellsAt(service, cells, draws, n)| == |cells|
    ensures forall plain :: OpensTo(service, CellsAt(service, cells, draws, n)[i], plain) <==> OpensTo(service, cells[i], plain)
    ensures CellsAt(service, cells, draws, n)[i] != cells[i] ==>
      var cell := CellsAt(service, cells, draws, n)[i];
      && cell.aad == cells[i].aad
      && cell.stored.Held? && cell.stored.blob.keyVersion == service.currentVersion
      && exists plain :: OpensTo(Strict(service), cell, plain) && OpensTo(service, cells[i], plain)
  {
    var outcome := OutcomeOf(service, cells[i], draws(i));
    if i < n && outcome.Fresh? {
      RewrapKeepsPlaintext(service, cells[i].stored.blob, cells[i].aad, draws(i).nonce);
      var plain := DecryptBytes(service, cells[i].stored.blob, cells[i].aad).value;
      assert OpensTo(Strict(service), CellsAt(service, cells, draws, n)[i], plain) && OpensTo(service, cells[i], plain);
    }
  }

  /** A field that the pass looks at, and that holds a blob. */
  predicate Targeted(cell: Cell) {
    !cell.stored.NoValue? && !cell.stored.Null?
  }

  /** After a pass without an error every targeted field holds a blob of the current version. */
  lemma {:induction false} AllCurrentAfterOk(service: CryptoService, cells: seq<Cell>, draws: Draws, i: nat)
    requires PassedTo(service, cells, draws, |cells|) && i < |cells| && Targeted(cells[i])
    ensures
      var cell := CellsAt(service, cells, draws, |cells|)[i];
      cell.stored.Held? && cell.stored.blob.keyVersion == service.currentVersion
  {
    var outcome := OutcomeOf(service, cells[i], draws(i));
    assert !outcome.Failed?;
    if outcome.Fresh? {
      RewrapKeepsPlaintext(service, cells[i].stored.blob, cells[i].aad, draws(i).nonce);
    }
  }

  /** What opens strictly after a pass without an error: what the pass sealed again, and what did before.
      A blob of the current version that was sealed with no associated data is left as it is. */
  lemma {:induction false} StrictAfterOk(service: CryptoService, cells: seq<Cell>, draws: Draws, i: nat, plain: Bytes)
    requires PassedTo(service, cells, draws, |cells|) && i < |cells|
    ensures OpensTo(Strict(service), CellsAt(service, cells, draws, |cells|)[i], plain) <==>
      || OpensTo(Strict(service), cells[i], plain)
      || (OpensTo(service, cells[i], plain) && cells[i].stored.blob.keyVersion != service.currentVersion)
  {
    var outcome := OutcomeOf(service, cells[i], draws(i));
    if outcome.Fresh? {
      RewrapKeepsPlaintext(service, cells[i].stored.blob, cells[i].aad, draws(i).nonce);
    }
    if cells[i].stored.Held? {
      OpensExactly(service, cells[i].stored.blob, cells[i].aad, plain);
      OpensExactly(Strict(service), cells[i].stored.blob, cells[i].aad, plain);
    }
  }

  // ------------------------------------------------------------------ Statistics

  /** How many of the first `n` fields are looked at. */
  function TargetedIn(cells: seq<Cell>): nat {
    if cells == [] then 0
    else TargetedIn(cells[..|cells| - 1]) + (if Targeted(cells[|cells| - 1]) then 1 else 0)
  }

  /** Over any fields: the errors counter stays, every targeted field is scanned, and each scanned field
      is rewrapped, skipped as current, or the one that failed. */
  lemma {:induction false} CountsAddUp(service: CryptoService, cells: seq<Cell>, draws: Draws, stats: RewrapStats)
    ensures
      var after := CountAll(stats, OutcomesOf(service, cells, draws));
      && after.errors == stats.errors
      && after.scanned == stats.scanned + TargetedIn(cells)
      && (PassedTo(service, cells, draws, |cells|) ==>
            after.scanned - stats.scanned == (after.rewrapped - stats.rewrapped) + (after.skippedCurrent - stats.skippedCurrent))
  {
    if cells != [] {
      var last := |cells| - 1;
      CountsAddUp(service, cells[..last], draws, stats);
      assert OutcomesOf(service, cells, draws)[..last] == OutcomesOf(service, cells[..last], draws);
      if PassedTo(service, cells, draws, |cells|) {
        assert PassedTo(service, cells[..last], draws, last);
        assert !OutcomeOf(service, cells[last], draws(last)).Failed?;
      }
    }
  }

  /** The service once every key but the current one is thrown away. */
  function CurrentOnly(service: CryptoService): CryptoService {
    service.(keys := map version | version in service.keys && version == service.currentVersion :: service.keys[version])
  }

  /** What a rotation is for: after a pass without an error the old keys can go. Every targeted field
      opens with the current key alone to exactly what it held before the pass. */
  lemma {:induction false} OldKeysCanGo(service: CryptoService, cells: seq<Cell>, draws: Draws, i: nat, plain: Bytes)
    requires PassedTo(service, cells, draws, |cells|) && i < |cells| && Targeted(cells[i])
    ensures OpensTo(CurrentOnly(service), CellsAt(service, cells, draws, |cells|)[i], plain) <==> OpensTo(service, cells[i], plain)
  {
    AllCurrentAfterOk(service, cells, draws, i);
    EveryPointKeepsPlaintexts(service, cells, draws, |cells|, i);
  }

  /** On Ok the statistics balance, and count every targeted field of the three tables. */
  lemma {:induction false} StatsBalanceOnOk(service: CryptoService, before: Cells, after: Cells, draws: (Draws, Draws, Draws),
      reach: (nat, nat, nat), result: Result<RewrapStats, RewrapError>)
    requires RunsTo(service, before, after, draws, reach, result) && result.Ok?
    ensures result.value.scanned == result.value.rewrapped + result.value.skippedCurrent
    ensures result.value.scanned == TargetedIn(before.users) + TargetedIn(before.members) + TargetedIn(before.dms)
    ensures result.value.errors == 0
  {
    var zero := RewrapStats(0, 0, 0, 0);
    var one := CountAll(zero, OutcomesOf(service, before.users, draws.0));
    var two := CountAll(one, OutcomesOf(service, before.members, draws.1));
    CountsAddUp(service, before.users, draws.0, zero);
    CountsAddUp(service, before.members, draws.1, one);
    CountsAddUp(service, before.dms, draws.2, two);
  }

  // -------------------------------------------------------------------- Second run

  lemma {:induction false} NothingLeft(service: CryptoService, cells: seq<Cell>, draws: Draws, again: Draws, stats: RewrapStats)
    requires PassedTo(service, cells, draws, |cells|)
    ensures
      var done := CellsAt(service, cells, draws, |cells|);
      && PassedTo(service, done, again, |done|)
      && CellsAt(service, done, again, |done|) == done
      && CountAll(stats, OutcomesOf(service, done, again)).rewrapped == stats.rewrapped
  {
    var done := CellsAt(service, cells, draws, |cells|);
    forall i | 0 <= i < |done|
      ensures var outcome := OutcomeOf(service, done[i], again(i)); outcome.Skipped? || outcome.Current?
    {
      assert !OutcomeOf(service, cells[i], draws(i)).Failed?;
      if Targeted(cells[i]) {
        AllCurrentAfterOk(service, cells, draws, i);
      }
    }
    QuietCounts(service, done, again, stats);
  }

  lemma {:induction false} QuietCounts(service: CryptoService, cells: seq<Cell>, draws: Draws, stats: RewrapStats)
    requires forall i :: 0 <= i < |cells| ==>
      OutcomeOf(service, cells[i], draws(i)).Skipped? || OutcomeOf(service, cells[i], draws(i)).Current?
    ensures CountAll(stats, OutcomesOf(service, cells, draws)).rewrapped == stats.rewrapped
  {
    if cells != [] {
      var last := |cells| - 1;
      QuietCounts(service, cells[..last], draws, stats);
      assert OutcomesOf(service, cells, draws)[..last] == OutcomesOf(service, cells[..last], draws);
    }
  }

  /** A second run, whatever it draws, rewraps nothing, changes nothing and cannot fail. */
  lemma {:induction false} SecondRunRewrapsNothing(service: CryptoService, before: Cells, done: Cells, after: Cells,
      draws: (Draws, Draws, Draws), again: (Draws, Draws, Draws), reach: (nat, nat, nat), reach': (nat, nat, nat),
      first: Result<RewrapStats, RewrapError>, second: Result<RewrapStats, RewrapError>)
    requires RunsTo(service, before, done, draws, reach, first) && first.Ok?
    requires RunsTo(service, done, after, again, reach', second)
    ensures second.Ok? && second.value.rewrapped == 0
    ensures after == done
  {
    var zero := RewrapStats(0, 0, 0, 0);
    var one := CountAll(zero, OutcomesOf(service, done.users, again.0));
    var two := CountAll(one, OutcomesOf(service, done.members, again.1));
    NothingLeft(service, before.users, draws.0, again.0, zero);
    NothingLeft(service, before.members, draws.1, again.1, one);
    NothingLeft(service, before.dms, draws.2, again.2, two);
    assert forall i :: 0 <= i < |done.users| ==> !OutcomeOf(service, done.users[i], again.0(i)).Failed?;
  }

  /** After an error the fields already dealt with are not rewrapped again: a repeated run takes up
      where the failed one stopped. */
  lemma {:induction false} RepeatedRunResumes(service: CryptoService, cells: seq<Cell>, draws: Draws, again: Draws, n: nat, i: nat)
    requires PassedTo(service, cells, draws, n) && i < |cells|
    ensures
      var cell := CellsAt(service, cells, draws, n)[i];
      if i < n then !OutcomeOf(service, cell, again(i)).Fresh? && !OutcomeOf(service, cell, again(i)).Failed?
      else cell == cells[i]
  {
    if i < n {
      var outcome := OutcomeOf(service, cells[i], draws(i));
      assert !outcome.Failed?;
      if outcome.Fresh? {
        RewrapKeepsPlaintext(service, cells[i].stored.blob, cells[i].aad, draws(i).nonce);
      }
    }
  }

  /** A whole run, whether it ends well or stops at an error: in all three tables every field opens
      exactly as it did. */
  lemma {:induction false} RunKeepsPlaintexts(service: CryptoService, before: Cells, after: Cells, draws: (Draws, Draws, Draws),
      reach: (nat, nat, nat), result: Result<RewrapStats, RewrapError>, plain: Bytes)
    requires RunsTo(service, before, after, draws, reach, result)
    ensures |after.users| == |before.users| && |after.members| == |before.members| && |after.dms| == |before.dms|
    ensures forall i :: 0 <= i < |before.users| ==> (OpensTo(service, after.users[i], plain) <==> OpensTo(service, before.users[i], plain))
    ensures forall i :: 0 <= i < |before.members| ==> (OpensTo(service, after.members[i], plain) <==> OpensTo(service, before.members[i], plain))
    ensures forall i :: 0 <= i < |before.dms| ==> (OpensTo(service, after.dms[i], plain) <==> OpensTo(service, before.dms[i], plain))
  {
    TableKeepsPlaintexts(service, before.users, draws.0, reach.0, plain);
    TableKeepsPlaintexts(service, before.members, draws.1, reach.1, plain);
    TableKeepsPlaintexts(service, before.dms, draws.2, reach.2, plain);
  }

  lemma {:induction false} TableKeepsPlaintexts(service: CryptoService, cells: seq<Cell>, draws: Draws, n: nat, plain: Bytes)
    requires n <= |cells|
    ensures
      var after := CellsAt(service, cells, draws, n);
      |after| == |cells| && forall i :: 0 <= i < |cells| ==> (OpensTo(service, after[i], plain) <==> OpensTo(service, cells[i], plain))
  {
    forall i | 0 <= i < |cells|
      ensures OpensTo(service, CellsAt(service, cells, draws, n)[i], plain) <==> OpensTo(service, cells[i], plain)
    {
      EveryPointKeepsPlaintexts(service, cells, draws, n, i);
    }
  }
}
