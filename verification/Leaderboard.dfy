/** The leaderboard snapshot: one pass over the rows into saturating totals per member,
    for all heroes and for each, then a filter, a sort on several keys and a cut. */
module Leaderboard {
  import opened Wrappers


  const U32_MAX: nat := 0xFFFF_FFFF

  type U32 = n: nat | n <= 0xFFFF_FFFF

  const MIN_GAMES: nat := 5

  datatype Agg = Agg(memberId: string, displayName: string, games: U32, wins: U32, elims: U32, deaths: U32, kdGames: U32)

  datatype HeroRow = HeroRow(hero: string, agg: Agg)

  type Totals = map<string, Agg>

  /** The lists come out of hash maps, in whatever order those give. */
  datatype Snapshot = Snapshot(all: seq<Agg>, byHero: map<string, seq<Agg>>)

  datatype BoardRow = BoardRow(memberId: string, displayName: string, games: U32, winrate: real, kd: real)

  /** The two ratios, from exact counters to whatever precision the program keeps: any functions,
      exact division and rounded division among them. */
  datatype Rates = Rates(winrate: (nat, nat) -> real, kd: (nat, nat) -> real)

  function Capped(n: nat): U32 {
    if n <= U32_MAX then n else U32_MAX
  }

  function SaturatingAdd(a: U32, b: U32): U32 {
    Capped(a + b)
  }

  // ---------------------------------------------------------------------- Totals

  function MergeOne(totals: Totals, agg: Agg): Totals {
    if agg.memberId !in totals then totals[agg.memberId := agg]
    else
      var prior := totals[agg.memberId];
      totals[agg.memberId := prior.(
        games := SaturatingAdd(prior.games, agg.games),
        wins := SaturatingAdd(prior.wins, agg.wins),
        elims := SaturatingAdd(prior.elims, agg.elims),
        deaths := SaturatingAdd(prior.deaths, agg.deaths),
        kdGames := SaturatingAdd(prior.kdGames, agg.kdGames))]
  }

  function GroupBy(aggs: seq<Agg>): Totals {
    if aggs == [] then map[] else MergeOne(GroupBy(aggs[..|aggs| - 1]), aggs[|aggs| - 1])
  }

  /** Whether a row counts towards one hero, or towards all of them. */
  predicate Counts(row: HeroRow, hero: Option<string>) {
    row.agg.games > 0 && (hero.None? || hero.value == row.hero)
  }

  function Played(rows: seq<HeroRow>, hero: Option<string>): seq<Agg> {
    if rows == [] then []
    else
      var row := rows[|rows| - 1];
      Played(rows[..|rows| - 1], hero) + (if Counts(row, hero) then [row.agg] else [])
  }

  /** `list` holds each value of `totals` once. */
  ghost predicate Lists(list: seq<Agg>, totals: Totals) {
    multiset(list) == multiset(totals.Values)
  }

  ghost predicate KeyedById(totals: Totals) {
    forall id :: id in totals ==> totals[id].memberId == id
  }

  ghost predicate IsSnapshot(snap: Snapshot, rows: seq<HeroRow>) {
    && Lists(snap.all, GroupBy(Played(rows, None)))
    && (forall hero :: hero in snap.byHero <==> Played(rows, Some(hero)) != [])
    && (forall hero :: hero in snap.byHero ==> Lists(snap.byHero[hero], GroupBy(Played(rows, Some(hero)))))
  }

  lemma {:induction false} GroupByIsKeyed(aggs: seq<Agg>)
    ensures KeyedById(GroupBy(aggs))
  {
    if aggs != [] {
      GroupByIsKeyed(aggs[..|aggs| - 1]);
    }
  }

  method IntoValues(totals: Totals) returns (list: seq<Agg>)
    requires KeyedById(totals)
    ensures Lists(list, totals)
  {
    list := [];
    var rest := totals.Keys;
    ghost var done: set<Agg> := {};
    while rest != {}
      invariant rest <= totals.Keys
      invariant multiset(list) == multiset(done)
      invariant done == set id | id in totals && id !in rest :: totals[id]
    {
      var id :| id in rest;
      assert totals[id] !in done;
      rest := rest - {id};
      list := list + [totals[id]];
      done := done + {totals[id]};
    }
    assert done == totals.Values;
  }

  /** The two maps after some rows. */
  ghost predicate Collects(byHero: map<string, Totals>, all: Totals, rows: seq<HeroRow>) {
    && all == GroupBy(Played(rows, None))
    && (forall hero :: HeroCollects(byHero, rows, hero))
  }

  ghost predicate HeroCollects(byHero: map<string, Totals>, rows: seq<HeroRow>, hero: string) {
    && (hero in byHero <==> Played(rows, Some(hero)) != [])
    && (hero in byHero ==> byHero[hero] == GroupBy(Played(rows, Some(hero))))
  }

  method FromRows(rows: seq<HeroRow>) returns (snap: Snapshot)
    ensures IsSnapshot(snap, rows)
  {
    var byHero: map<string, Totals> := map[];
    var all: Totals := map[];
    for i := 0 to |rows|
      invariant Collects(byHero, all, rows[..i])
    {
      assert rows[..i + 1] == rows[..i] + [rows[i]];
      var hero, agg := rows[i].hero, rows[i].agg;
      if agg.games == 0 {
        IdleCollects(byHero, all, rows[..i], rows[i]);
        continue;
      }
      RowCollects(byHero, all, rows[..i], rows[i]);
      var members: Totals := if hero in byHero then byHero[hero] else map[];
      byHero := byHero[hero := MergeOne(members, agg)];
      all := MergeOne(all, agg);
    }
    assert rows[..|rows|] == rows;
    GroupByIsKeyed(Played(rows, None));
    var allList := IntoValues(all);
    var lists := ListHeroes(byHero, all, rows);
    snap := Snapshot(allList, lists);
  }

  lemma {:induction false} IdleCollects(byHero: map<string, Totals>, all: Totals, rows: seq<HeroRow>, row: HeroRow)
    requires Collects(byHero, all, rows) && row.agg.games == 0
    ensures Collects(byHero, all, rows + [row])
  {
    PlayedPush(rows, row, None);
    forall hero
      ensures HeroCollects(byHero, rows + [row], hero)
    {
      assert HeroCollects(byHero, rows, hero);
      PlayedPush(rows, row, Some(hero));
    }
  }

  lemma {:induction false} RowCollects(byHero: map<string, Totals>, all: Totals, rows: seq<HeroRow>, row: HeroRow)
    requires Collects(byHero, all, rows) && row.agg.games > 0
    ensures
      var members: Totals := if row.hero in byHero then byHero[row.hero] else map[];
      Collects(byHero[row.hero := MergeOne(members, row.agg)], MergeOne(all, row.agg), rows + [row])
  {
    PlayedPush(rows, row, None);
    GroupByPush(Played(rows, None), row.agg);
    var members: Totals := if row.hero in byHero then byHero[row.hero] else map[];
    var after, more := byHero[row.hero := MergeOne(members, row.agg)], rows + [row];
    forall hero
      ensures HeroCollects(after, more, hero)
    {
      assert HeroCollects(byHero, rows, hero);
      HeroGains(byHero, rows, row, hero);
    }
  }

  lemma {:induction false} HeroGains(byHero: map<string, Totals>, rows: seq<HeroRow>, row: HeroRow, hero: string)
    requires HeroCollects(byHero, rows, hero) && row.agg.games > 0
    ensures
      var members: Totals := if row.hero in byHero then byHero[row.hero] else map[];
      HeroCollects(byHero[row.hero := MergeOne(members, row.agg)], rows + [row], hero)
  {
    PlayedPush(rows, row, Some(hero));
    if hero == row.hero {
      GroupByPush(Played(rows, Some(hero)), row.agg);
    }
  }

  method ListHeroes(byHero: map<string, Totals>, ghost all: Totals, ghost rows: seq<HeroRow>)
    returns (lists: map<string, seq<Agg>>)
    requires Collects(byHero, all, rows)
    ensures forall hero :: hero in lists <==> Played(rows, Some(hero)) != []
    ensures forall hero :: hero in lists ==> Lists(lists[hero], GroupBy(Played(rows, Some(hero))))
  {
    lists := map[];
    var rest := byHero.Keys;
    while rest != {}
      invariant rest <= byHero.Keys
      invariant lists.Keys == byHero.Keys - rest
      invariant forall hero :: hero in lists ==> Lists(lists[hero], byHero[hero])
    {
      var hero :| hero in rest;
      rest := rest - {hero};
      assert HeroCollects(byHero, rows, hero);
      GroupByIsKeyed(Played(rows, Some(hero)));
      var list := IntoValues(byHero[hero]);
      lists := lists[hero := list];
    }
    forall hero
      ensures hero in lists <==> Played(rows, Some(hero)) != []
      ensures hero in lists ==> Lists(lists[hero], GroupBy(Played(rows, Some(hero))))
    {
      assert HeroCollects(byHero, rows, hero);
    }
  }

  lemma {:induction false} PlayedPush(rows: seq<HeroRow>, row: HeroRow, hero: Option<string>)
    ensures Played(rows + [row], hero) == if Counts(row, hero) then Played(rows, hero) + [row.agg] else Played(rows, hero)
  {
    assert (rows + [row])[..|rows|] == rows;
  }

  lemma {:induction false} GroupByPush(aggs: seq<Agg>, agg: Agg)
    ensures GroupBy(aggs + [agg]) == MergeOne(GroupBy(aggs), agg)
  {
    assert (aggs + [agg])[..|aggs|] == aggs;
  }

  // ------------------------------------------------------------------- Projection

  predicate Qualifies(agg: Agg, metric: string) {
    && agg.games != 0
    && (metric == "winrate" || metric == "kd" ==> agg.games >= MIN_GAMES)
    && (metric == "kd" ==> agg.kdGames >= MIN_GAMES)
  }

  function RowOf(agg: Agg, rates: Rates): BoardRow {
    BoardRow(agg.memberId, agg.displayName, agg.games,
             rates.winrate(agg.wins, agg.games),
             rates.kd(agg.elims, if agg.deaths >= 1 then agg.deaths else 1))
  }

  function Candidates(source: seq<Agg>, metric: string, rates: Rates): seq<BoardRow> {
    if source == [] then []
    else
      var last := source[|source| - 1];
      Candidates(source[..|source| - 1], metric, rates) + (if Qualifies(last, metric) then [RowOf(last, rates)] else [])
  }

  /** Strings in the order of their scalar values. */
  predicate LexLess(a: string, b: string) {
    b != [] && (a == [] || a[0] < b[0] || (a[0] == b[0] && LexLess(a[1..], b[1..])))
  }

  /** `a` is listed above `b`: by the metric, then its tie-break, then the member id. Any metric that
      is neither "kd" nor "games" sorts by win rate. */
  predicate Above(a: BoardRow, b: BoardRow, metric: string) {
    if metric == "kd" then
      a.kd > b.kd || (a.kd == b.kd && (a.games > b.games || (a.games == b.games && LexLess(a.memberId, b.memberId))))
    else if metric == "games" then
      a.games > b.games || (a.games == b.games && (a.winrate > b.winrate || (a.winrate == b.winrate && LexLess(a.memberId, b.memberId))))
    else
      a.winrate > b.winrate || (a.winrate == b.winrate && (a.games > b.games || (a.games == b.games && LexLess(a.memberId, b.memberId))))
  }

  ghost predicate InOrder(rows: seq<BoardRow>, metric: string) {
    forall i, j :: 0 <= i < j < |rows| ==> !Above(rows[j], rows[i], metric)
  }

  function Source(snap: Snapshot, hero: string): seq<Agg> {
    if hero == "" then snap.all else if hero in snap.byHero then snap.byHero[hero] else []
  }

  /** `full` is a sorted list of all the qualifying rows. */
  ghost predicate IsBoard(full: seq<BoardRow>, source: seq<Agg>, metric: string, rates: Rates) {
    multiset(full) == multiset(Candidates(source, metric, rates)) && InOrder(full, metric)
  }

  function Cut(full: seq<BoardRow>, limit: nat): seq<BoardRow> {
    if |full| > limit then full[..limit] else full
  }

  ghost predicate IsProjection(out: seq<BoardRow>, snap: Snapshot, metric: string, hero: string, limit: nat, rates: Rates) {
    exists full :: IsBoard(full, Source(snap, hero), metric, rates) && out == Cut(full, limit)
  }

  method Project(snap: Snapshot, metric: string, hero: string, limit: U32, rates: Rates) returns (out: seq<BoardRow>)
    ensures IsProjection(out, snap, metric, hero, limit, rates)
  {
    var source := Source(snap, hero);
    out := [];
    for i := 0 to |source|
      invariant out == Candidates(source[..i], metric, rates)
    {
      assert source[..i + 1][..i] == source[..i];
      var agg := source[i];
      if agg.games == 0 {
        continue;
      }
      if (metric == "winrate" || metric == "kd") && agg.games < MIN_GAMES {
        continue;
      }
      if metric == "kd" && agg.kdGames < MIN_GAMES {
        continue;
      }
      out := out + [RowOf(agg, rates)];
    }
    assert source[..|source|] == source;
    out := Sort(out, metric);
    assert IsBoard(out, source, metric, rates);
    if |out| > limit {
      out := out[..limit];
    }
  }

  /** A stable sort: each row goes below those it is not above. */
  method Sort(rows: seq<BoardRow>, metric: string) returns (sorted: seq<BoardRow>)
    ensures multiset(sorted) == multiset(rows) && InOrder(sorted, metric)
  {
    sorted := [];
    for i := 0 to |rows|
      invariant multiset(sorted) == multiset(rows[..i])
      invariant InOrder(sorted, metric)
    {
      var k := 0;
      while k < |sorted| && !Above(rows[i], sorted[k], metric)
        invariant k <= |sorted|
        invariant forall j :: 0 <= j < k ==> !Above(rows[i], sorted[j], metric)
      {
        k := k + 1;
      }
      InsertKeepsOrder(sorted, rows[i], k, metric);
      InsertKeepsRows(sorted, rows, i, k);
      sorted := sorted[..k] + [rows[i]] + sorted[k..];
    }
    assert rows[..|rows|] == rows;
  }

  lemma {:induction false} InsertKeepsRows(sorted: seq<BoardRow>, rows: seq<BoardRow>, i: nat, k: nat)
    requires i < |rows| && k <= |sorted| && multiset(sorted) == multiset(rows[..i])
    ensures multiset(sorted[..k] + [rows[i]] + sorted[k..]) == multiset(rows[..i + 1])
  {
    assert rows[..i + 1] == rows[..i] + [rows[i]];
    assert sorted == sorted[..k] + sorted[k..];
  }

  lemma {:induction false} InsertKeepsOrder(sorted: seq<BoardRow>, row: BoardRow, k: nat, metric: string)
    requires InOrder(sorted, metric) && k <= |sorted|
    requires forall j :: 0 <= j < k ==> !Above(row, sorted[j], metric)
    requires k < |sorted| ==> Above(row, sorted[k], metric)
    ensures InOrder(sorted[..k] + [row] + sorted[k..], metric)
  {
    var longer := sorted[..k] + [row] + sorted[k..];
    forall i, j | 0 <= i < j < |longer|
      ensures !Above(longer[j], longer[i], metric)
    {
      if i == k {
        assert longer[j] == sorted[j - 1];
        AboveIsIrreflexive(sorted[k], metric);
        assert j - 1 == k || !Above(sorted[j - 1], sorted[k], metric);
        if Above(longer[j], row, metric) {
          AboveIsTransitive(longer[j], row, sorted[k], metric);
          assert false;
        }
      } else if j == k {
        assert longer[i] == sorted[i];
      } else {
        assert longer[i] == sorted[if i < k then i else i - 1];
        assert longer[j] == sorted[if j < k then j else j - 1];
      }
    }
  }

  // ------------------------------------------------------------- A strict order

  lemma {:induction false} LexLessIsStrict(a: string, b: string, c: string)
    ensures !LexLess(a, a)
    ensures LexLess(a, b) && LexLess(b, c) ==> LexLess(a, c)
    decreases |a| + |b| + |c|
  {
    if a != [] {
      LexLessIsStrict(a[1..], if b == [] then [] else b[1..], if c == [] then [] else c[1..]);
    }
  }

  lemma {:induction false} LexLessIsTotal(a: string, b: string)
    ensures a == b || LexLess(a, b) || LexLess(b, a)
  {
    if a != [] && b != [] && a[0] == b[0] {
      LexLessIsTotal(a[1..], b[1..]);
      assert a == [a[0]] + a[1..] && b == [b[0]] + b[1..];
    }
  }

  lemma {:induction false} AboveIsTransitive(a: BoardRow, b: BoardRow, c: BoardRow, metric: string)
    requires Above(a, b, metric) && Above(b, c, metric)
    ensures Above(a, c, metric)
  {
    LexLessIsStrict(a.memberId, b.memberId, c.memberId);
  }

  lemma {:induction false} AboveIsIrreflexive(a: BoardRow, metric: string)
    ensures !Above(a, a, metric)
  {
    LexLessIsStrict(a.memberId, a.memberId, a.memberId);
  }

  lemma {:induction false} AboveIsTotal(a: BoardRow, b: BoardRow, metric: string)
    requires a.memberId != b.memberId
    ensures Above(a, b, metric) || Above(b, a, metric)
  {
    LexLessIsTotal(a.memberId, b.memberId);
  }
}
