/** What a board shows, read off the rows of the matches: who is on it, with what figures, in what order. */
module LeaderboardReading {
  import opened Leaderboard
  import opened LeaderboardMeaning
  import opened Wrappers

  // -------------------------------------------------------------------- The tallies

  /** A row of a member in which games were played, on the hero asked for, or on any for "". */
  predicate IsRow(row: HeroRow, hero: string, id: string) {
    row.agg.games > 0 && (hero == "" || row.hero == hero) && row.agg.memberId == id
  }

  function Tally(rows: seq<HeroRow>, hero: string, id: string, c: Counter): nat {
    if rows == [] then 0
    else
      var last := rows[|rows| - 1];
      Tally(rows[..|rows| - 1], hero, id, c) + (if IsRow(last, hero, id) then Get(last.agg, c) as nat else 0)
  }

  /** The counters stop at the largest 32-bit number. */
  function Total(rows: seq<HeroRow>, hero: string, id: string, c: Counter): nat {
    var tally := Tally(rows, hero, id, c);
    if tally < 0xFFFF_FFFF then tally else 0xFFFF_FFFF
  }

  /** The first row of the member. */
  ghost predicate IsFirstRow(rows: seq<HeroRow>, hero: string, id: string, k: int) {
    0 <= k < |rows| && IsRow(rows[k], hero, id) && forall j :: 0 <= j < k ==> !IsRow(rows[j], hero, id)
  }

  // ---------------------------------------------------------------------- The board

  /** Who is listed: who has played, five games at least for a rate, and five that count for K/D. */
  predicate Qualified(rows: seq<HeroRow>, metric: string, hero: string, id: string) {
    && Total(rows, hero, id, Games) >= 1
    && (metric == "winrate" ==> Total(rows, hero, id, Games) >= 5)
    && (metric == "kd" ==> Total(rows, hero, id, Games) >= 5 && Total(rows, hero, id, KdGames) >= 5)
  }

  /** The figures of a member: games, wins over games, and kills over deaths, over one when there are none. */
  ghost predicate Shows(row: BoardRow, rows: seq<HeroRow>, hero: string, id: string, rates: Rates) {
    && row.memberId == id
    && row.games == Total(rows, hero, id, Games)
    && row.winrate == rates.winrate(Total(rows, hero, id, Wins), Total(rows, hero, id, Games))
    && row.kd == rates.kd(Total(rows, hero, id, Elims),
                          if Total(rows, hero, id, Deaths) == 0 then 1 else Total(rows, hero, id, Deaths))
  }

  /** The figure that a metric sorts by, and the one that breaks its ties. */
  function First(row: BoardRow, metric: string): real {
    if metric == "kd" then row.kd else if metric == "games" then row.games as real else row.winrate
  }

  function Second(row: BoardRow, metric: string): real {
    if metric == "games" then row.winrate else row.games as real
  }

  /** The first difference decides, and a word goes before its extensions. */
  ghost predicate Alphabetical(a: string, b: string) {
    exists k :: DiffersAt(a, b, k)
  }

  ghost predicate DiffersAt(a: string, b: string, k: int) {
    && 0 <= k <= |a| && k <= |b| && a[..k] == b[..k]
    && ((k == |a| && k < |b|) || (k < |a| && k < |b| && a[k] < b[k]))
  }

  /** Larger figures first, then smaller ids. */
  ghost predicate RanksBefore(a: BoardRow, b: BoardRow, metric: string) {
    || First(a, metric) > First(b, metric)
    || (&& First(a, metric) == First(b, metric)
        && (|| Second(a, metric) > Second(b, metric)
            || (Second(a, metric) == Second(b, metric) && Alphabetical(a.memberId, b.memberId))))
  }

  lemma {:induction false} DiffersLater(a: string, b: string, k: int)
    requires a != [] && b != [] && a[0] == b[0]
    ensures DiffersAt(a[1..], b[1..], k) <==> k >= 0 && DiffersAt(a, b, k + 1)
    ensures !DiffersAt(a, b, 0)
  {
    if 0 <= k < |a| && k < |b| {
      assert a[..k + 1] == [a[0]] + a[1..][..k] && b[..k + 1] == [b[0]] + b[1..][..k];
    }
  }

  lemma {:induction false} LexIsAlphabetical(a: string, b: string)
    ensures LexLess(a, b) <==> Alphabetical(a, b)
  {
    forall k | DiffersAt(a, b, k) && k > 0
      ensures a != [] && b != [] && a[0] == b[0]
    {
      assert a[..k][0] == b[..k][0];
    }
    if a != [] && b != [] && a[0] == b[0] {
      LexIsAlphabetical(a[1..], b[1..]);
      if k :| DiffersAt(a[1..], b[1..], k) {
        DiffersLater(a, b, k);
      }
      if k :| DiffersAt(a, b, k) {
        DiffersLater(a, b, k - 1);
      }
    } else if LexLess(a, b) {
      assert DiffersAt(a, b, 0);
    }
  }

  lemma {:induction false} AboveIsRank(a: BoardRow, b: BoardRow, metric: string)
    ensures Above(a, b, metric) <==> RanksBefore(a, b, metric)
  {
    LexIsAlphabetical(a.memberId, b.memberId);
  }

  // ------------------------------------------------------------ Totals and tallies

  function HeroOf(hero: string): Option<string> {
    if hero == "" then None else Some(hero)
  }

  lemma {:induction false} SumIsTally(rows: seq<HeroRow>, hero: string, id: string, c: Counter)
    ensures Sum(Played(rows, HeroOf(hero)), id, c) == Tally(rows, hero, id, c)
  {
    if rows != [] {
      var front, last := rows[..|rows| - 1], rows[|rows| - 1];
      SumIsTally(front, hero, id, c);
      assert rows == front + [last];
      SumPush(front, last, HeroOf(hero), id, c);
    }
  }

  lemma {:induction false} TotalsAreTallies(rows: seq<HeroRow>, hero: string, id: string, c: Counter)
    requires id in GroupBy(Played(rows, HeroOf(hero)))
    ensures Get(GroupBy(Played(rows, HeroOf(hero)))[id], c) == Total(rows, hero, id, c)
    ensures GroupBy(Played(rows, HeroOf(hero)))[id].memberId == id
  {
    CountersAreCappedSums(Played(rows, HeroOf(hero)), id, c);
    SumIsTally(rows, hero, id, c);
  }

  lemma {:induction false} PlayersAreGrouped(rows: seq<HeroRow>, hero: string, id: string)
    requires Tally(rows, hero, id, Games) > 0
    ensures id in GroupBy(Played(rows, HeroOf(hero)))
  {
    CountersAreCappedSums(Played(rows, HeroOf(hero)), id, Games);
    SumIsTally(rows, hero, id, Games);
  }

  /** The totals of one member, as the snapshot has them. */
  lemma {:induction false} TotalsShow(rows: seq<HeroRow>, hero: string, id: string, metric: string, rates: Rates)
    requires id in GroupBy(Played(rows, HeroOf(hero)))
    ensures
      var agg := GroupBy(Played(rows, HeroOf(hero)))[id];
      && Shows(RowOf(agg, rates), rows, hero, id, rates)
      && (Qualifies(agg, metric) <==> Qualified(rows, metric, hero, id))
  {
    TotalsAreTallies(rows, hero, id, Games);
    TotalsAreTallies(rows, hero, id, Wins);
    TotalsAreTallies(rows, hero, id, Elims);
    TotalsAreTallies(rows, hero, id, Deaths);
    TotalsAreTallies(rows, hero, id, KdGames);
  }

  lemma {:induction false} ListedAreTotals(list: seq<Agg>, totals: Totals, agg: Agg)
    requires Lists(list, totals) && KeyedById(totals)
    ensures agg in list <==> agg.memberId in totals && totals[agg.memberId] == agg
  {
    assert agg in list <==> agg in multiset(list);
    assert agg in multiset(totals.Values) <==> agg in totals.Values;
  }

  /** A row is a candidate exactly when it shows the figures of a qualified member. */
  lemma {:induction false} CandidatesExactly(rows: seq<HeroRow>, snap: Snapshot, metric: string, hero: string, rates: Rates, row: BoardRow)
    requires IsSnapshot(snap, rows)
    ensures row in Candidates(Source(snap, hero), metric, rates) <==>
      && Qualified(rows, metric, hero, row.memberId)
      && row.memberId in GroupBy(Played(rows, HeroOf(hero)))
      && row == RowOf(GroupBy(Played(rows, HeroOf(hero)))[row.memberId], rates)
  {
    var source, totals := Source(snap, hero), GroupBy(Played(rows, HeroOf(hero)));
    SourceListsTotals(snap, rows, hero);
    GroupByIsKeyed(Played(rows, HeroOf(hero)));
    CandidatesAreSources(source, metric, rates, row);
    if agg :| agg in source && Qualifies(agg, metric) && row == RowOf(agg, rates) {
      ListedAreTotals(source, totals, agg);
      TotalsShow(rows, hero, row.memberId, metric, rates);
    }
    if row.memberId in totals {
      ListedAreTotals(source, totals, totals[row.memberId]);
      TotalsShow(rows, hero, row.memberId, metric, rates);
    }
  }

  // --------------------------------------------------------------------- The names

  lemma {:induction false} NameIsFirst(rows: seq<HeroRow>, hero: string, id: string)
    requires id in GroupBy(Played(rows, HeroOf(hero)))
    ensures exists k :: IsFirstRow(rows, hero, id, k) && rows[k].agg.displayName == GroupBy(Played(rows, HeroOf(hero)))[id].displayName
  {
    var front, last := rows[..|rows| - 1], rows[|rows| - 1];
    assert rows == front + [last];
    PlayedPush(front, last, HeroOf(hero));
    var before := Played(front, HeroOf(hero));
    if Counts(last, HeroOf(hero)) {
      GroupByPush(before, last.agg);
      MergeKeepsName(GroupBy(before), last.agg, id);
      CountersAreCappedSums(before + [last.agg], id, Games);
    }
    if id in GroupBy(before) {
      NameIsFirst(front, hero, id);
      var k :| IsFirstRow(front, hero, id, k) && front[k].agg.displayName == GroupBy(before)[id].displayName;
      assert IsFirstRow(rows, hero, id, k);
    } else {
      NoRowBefore(front, hero, id);
      OnlyNewIsLast(GroupBy(before), last.agg, id);
      assert IsFirstRow(rows, hero, id, |rows| - 1);
    }
  }

  lemma {:induction false} OnlyNewIsLast(totals: Totals, agg: Agg, id: string)
    requires id !in totals && id in MergeOne(totals, agg)
    ensures agg.memberId == id && MergeOne(totals, agg)[id] == agg
  {
  }

  lemma {:induction false} NoRowBefore(rows: seq<HeroRow>, hero: string, id: string)
    requires id !in GroupBy(Played(rows, HeroOf(hero)))
    ensures forall k :: 0 <= k < |rows| ==> !IsRow(rows[k], hero, id)
  {
    CountersAreCappedSums(Played(rows, HeroOf(hero)), id, Games);
    SumIsTally(rows, hero, id, Games);
    NoTallyNoRow(rows, hero, id);
  }

  lemma {:induction false} NoTallyNoRow(rows: seq<HeroRow>, hero: string, id: string)
    requires Tally(rows, hero, id, Games) == 0
    ensures forall k :: 0 <= k < |rows| ==> !IsRow(rows[k], hero, id)
  {
    if rows != [] {
      NoTallyNoRow(rows[..|rows| - 1], hero, id);
      forall k | 0 <= k < |rows|
        ensures !IsRow(rows[k], hero, id)
      {
        assert k < |rows| - 1 ==> rows[k] == rows[..|rows| - 1][k];
      }
    }
  }

  // ------------------------------------------------------------------ Main theorems

  /** Each line of a board is a qualified member's, with that member's figures and first name; the larger
      figure of the metric stands first, then the larger of its tie-break, then the smaller id. */
  lemma {:induction false} LinesExactly(rows: seq<HeroRow>, snap: Snapshot, metric: string, hero: string, limit: nat,
      rates: Rates, out: seq<BoardRow>)
    requires IsSnapshot(snap, rows) && IsProjection(out, snap, metric, hero, limit, rates)
    ensures |out| <= limit
    ensures forall i, j :: 0 <= i < j < |out| ==> RanksBefore(out[i], out[j], metric)
    ensures forall row :: row in out ==> IsLine(rows, metric, hero, rates, row)
  {
    var full :| IsBoard(full, Source(snap, hero), metric, rates) && out == Cut(full, limit);
    SourceListsTotals(snap, rows, hero);
    BoardIsStrict(full, Source(snap, hero), metric, rates);
    forall i, j | 0 <= i < j < |out|
      ensures RanksBefore(out[i], out[j], metric)
    {
      assert out[i] == full[i] && out[j] == full[j];
      AboveIsRank(full[i], full[j], metric);
    }
    forall row | row in out
      ensures IsLine(rows, metric, hero, rates, row)
    {
      assert row in full && row in multiset(full);
      CandidateIsLine(rows, snap, metric, hero, rates, row);
    }
  }

  ghost predicate IsLine(rows: seq<HeroRow>, metric: string, hero: string, rates: Rates, row: BoardRow) {
    && Qualified(rows, metric, hero, row.memberId) && Shows(row, rows, hero, row.memberId, rates)
    && exists k :: IsFirstRow(rows, hero, row.memberId, k) && rows[k].agg.displayName == row.displayName
  }

  lemma {:induction false} CandidateIsLine(rows: seq<HeroRow>, snap: Snapshot, metric: string, hero: string, rates: Rates, row: BoardRow)
    requires IsSnapshot(snap, rows) && row in Candidates(Source(snap, hero), metric, rates)
    ensures IsLine(rows, metric, hero, rates, row)
  {
    CandidatesExactly(rows, snap, metric, hero, rates, row);
    TotalsShow(rows, hero, row.memberId, metric, rates);
    NameIsFirst(rows, hero, row.memberId);
  }

  lemma {:induction false} SameFigures(row: BoardRow, a: BoardRow, b: BoardRow, metric: string)
    requires a.memberId == b.memberId && a.games == b.games && a.winrate == b.winrate && a.kd == b.kd
    ensures RanksBefore(row, a, metric) <==> RanksBefore(row, b, metric)
  {
  }

  /** The member's own line is on the board before it is cut. */
  lemma {:induction false} QualifiedAreLined(rows: seq<HeroRow>, snap: Snapshot, metric: string, hero: string,
      rates: Rates, full: seq<BoardRow>, id: string) returns (p: nat)
    requires IsSnapshot(snap, rows) && IsBoard(full, Source(snap, hero), metric, rates) && Qualified(rows, metric, hero, id)
    ensures p < |full| && Shows(full[p], rows, hero, id, rates)
  {
    PlayersAreGrouped(rows, hero, id);
    var own := RowOf(GroupBy(Played(rows, HeroOf(hero)))[id], rates);
    TotalsShow(rows, hero, id, metric, rates);
    CandidatesExactly(rows, snap, metric, hero, rates, own);
    assert own in multiset(full) && own in full;
    p :| 0 <= p < |full| && full[p] == own;
  }

  /** And nobody is passed over: a qualified member is on the board, or the board is as long as the limit
      and every line of it ranks before the member's figures. */
  lemma {:induction false} NobodyIsPassedOver(rows: seq<HeroRow>, snap: Snapshot, metric: string, hero: string, limit: nat,
      rates: Rates, out: seq<BoardRow>, id: string, line: BoardRow)
    requires IsSnapshot(snap, rows) && IsProjection(out, snap, metric, hero, limit, rates)
    requires Qualified(rows, metric, hero, id) && Shows(line, rows, hero, id, rates)
    ensures (exists i :: 0 <= i < |out| && out[i].memberId == id)
      || (|out| == limit && forall i :: 0 <= i < |out| ==> RanksBefore(out[i], line, metric))
  {
    var full :| IsBoard(full, Source(snap, hero), metric, rates) && out == Cut(full, limit);
    var p := QualifiedAreLined(rows, snap, metric, hero, rates, full, id);
    if p < |out| {
      assert out[p].memberId == id;
    } else {
      SourceListsTotals(snap, rows, hero);
      RanksBeforeCut(full, Source(snap, hero), metric, rates, |out|, p, line);
      assert forall i :: 0 <= i < |out| ==> out[i] == full[i];
    }
  }

  lemma {:induction false} RanksBeforeCut(full: seq<BoardRow>, source: seq<Agg>, metric: string, rates: Rates, n: nat, p: nat, line: BoardRow)
    requires IsBoard(full, source, metric, rates) && DistinctAggs(source) && n <= p < |full|
    requires full[p].memberId == line.memberId && full[p].games == line.games && full[p].winrate == line.winrate && full[p].kd == line.kd
    ensures forall i :: 0 <= i < n ==> RanksBefore(full[i], line, metric)
  {
    BoardIsStrict(full, source, metric, rates);
    forall i | 0 <= i < n
      ensures RanksBefore(full[i], line, metric)
    {
      AboveIsRank(full[i], full[p], metric);
      SameFigures(full[i], full[p], line, metric);
    }
  }
}
