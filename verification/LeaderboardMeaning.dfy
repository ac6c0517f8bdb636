/** What a leaderboard is: a group-by with capped sums, independent of the order of the
    rows, of the hash maps and of the limit. */
module LeaderboardMeaning {
  import opened Leaderboard
  import opened Wrappers

  datatype Counter = Games | Wins | Elims | Deaths | KdGames

  function Get(agg: Agg, c: Counter): U32 {
    match c
    case Games => agg.games
    case Wins => agg.wins
    case Elims => agg.elims
    case Deaths => agg.deaths
    case KdGames => agg.kdGames
  }

  /** The true sum of one counter over one member's rows. */
  function Sum(aggs: seq<Agg>, id: string, c: Counter): nat {
    if aggs == [] then 0
    else
      var last := aggs[|aggs| - 1];
      Sum(aggs[..|aggs| - 1], id, c) + (if last.memberId == id then Get(last, c) as nat else 0)
  }

  ghost predicate Appears(aggs: seq<Agg>, id: string) {
    exists i :: 0 <= i < |aggs| && aggs[i].memberId == id
  }

  /** The display name is a function of the member id. */
  ghost predicate OneNameEach(aggs: seq<Agg>) {
    forall i, j :: 0 <= i < |aggs| && 0 <= j < |aggs| && aggs[i].memberId == aggs[j].memberId ==>
      aggs[i].displayName == aggs[j].displayName
  }

  // ------------------------------------------------------------ Group-by, as sums

  /** A member is listed iff it has a row, under its own id, and each counter is its true sum capped at
      the largest 32-bit number. */
  lemma {:induction false} CountersAreCappedSums(aggs: seq<Agg>, id: string, c: Counter)
    ensures id in GroupBy(aggs) <==> Appears(aggs, id)
    ensures id in GroupBy(aggs) ==> Get(GroupBy(aggs)[id], c) == Capped(Sum(aggs, id, c)) && GroupBy(aggs)[id].memberId == id
    ensures id !in GroupBy(aggs) ==> Sum(aggs, id, c) == 0
  {
    GroupByIsKeyed(aggs);
    if aggs != [] {
      var last, front := aggs[|aggs| - 1], aggs[..|aggs| - 1];
      CountersAreCappedSums(front, id, c);
      if Appears(front, id) {
        var i :| 0 <= i < |front| && front[i].memberId == id;
        assert aggs[i].memberId == id;
      }
      if Appears(aggs, id) && last.memberId != id {
        var i :| 0 <= i < |aggs| && aggs[i].memberId == id;
        assert front[i].memberId == id;
      }
      if last.memberId == id {
        assert aggs[|aggs| - 1].memberId == id;
      }
    }
  }

  lemma {:induction false} OneNameInFront(aggs: seq<Agg>)
    requires OneNameEach(aggs) && aggs != []
    ensures OneNameEach(aggs[..|aggs| - 1])
  {
  }

  lemma {:induction false} MergeKeepsName(totals: Totals, agg: Agg, id: string)
    ensures id in totals ==> id in MergeOne(totals, agg) && MergeOne(totals, agg)[id].displayName == totals[id].displayName
    ensures id !in totals && agg.memberId == id ==> id in MergeOne(totals, agg) && MergeOne(totals, agg)[id] == agg
  {
  }

  lemma {:induction false} NameIsTheMembers(aggs: seq<Agg>, k: nat)
    requires OneNameEach(aggs) && k < |aggs|
    ensures aggs[k].memberId in GroupBy(aggs)
    ensures GroupBy(aggs)[aggs[k].memberId].displayName == aggs[k].displayName
  {
    var last, id := |aggs| - 1, aggs[k].memberId;
    var front := aggs[..last];
    OneNameInFront(aggs);
    MergeKeepsName(GroupBy(front), aggs[last], id);
    if k < last {
      NameIsTheMembers(front, k);
    } else {
      CountersAreCappedSums(front, id, Games);
      if id in GroupBy(front) {
        var i :| 0 <= i < |front| && front[i].memberId == id;
        NameIsTheMembers(front, i);
        assert aggs[i].displayName == aggs[k].displayName;
      }
    }
  }

  // --------------------------------------------------------------- Permutations

  lemma {:induction false} FindLast<T>(a: seq<T>, b: seq<T>) returns (i: nat)
    requires a != [] && multiset(a) == multiset(b)
    ensures i < |b| && b[i] == a[|a| - 1]
    ensures multiset(a[..|a| - 1]) == multiset(b[..i] + b[i + 1..])
    ensures |b[..i] + b[i + 1..]| < |b|
  {
    var x := a[|a| - 1];
    assert x in multiset(b);
    i :| 0 <= i < |b| && b[i] == x;
    assert a == a[..|a| - 1] + [x];
    assert b == b[..i] + [x] + b[i + 1..];
    assert multiset(a) == multiset(a[..|a| - 1]) + multiset{x};
    assert multiset(b) == multiset(b[..i] + b[i + 1..]) + multiset{x};
    assert multiset(a[..|a| - 1]) == multiset(a) - multiset{x};
  }

  lemma {:induction false} SumConcat(a: seq<Agg>, b: seq<Agg>, id: string, c: Counter)
    ensures Sum(a + b, id, c) == Sum(a, id, c) + Sum(b, id, c)
  {
    if b == [] {
      assert a + b == a;
    } else {
      assert (a + b)[..|a + b| - 1] == a + b[..|b| - 1];
      SumConcat(a, b[..|b| - 1], id, c);
    }
  }

  lemma {:induction false} SumPermutes(a: seq<Agg>, b: seq<Agg>, id: string, c: Counter)
    requires multiset(a) == multiset(b)
    ensures Sum(a, id, c) == Sum(b, id, c)
    decreases |a|
  {
    if a == [] {
      assert |multiset(b)| == 0;
      assert b == [];
    } else {
      var i := FindLast(a, b);
      SumPermutes(a[..|a| - 1], b[..i] + b[i + 1..], id, c);
      assert b == b[..i] + ([b[i]] + b[i + 1..]);
      SumConcat(b[..i], b[i + 1..], id, c);
      SumConcat([b[i]], b[i + 1..], id, c);
      SumConcat(b[..i], [b[i]] + b[i + 1..], id, c);
      assert Sum([b[i]], id, c) == if b[i].memberId == id then Get(b[i], c) as nat else 0;
    }
  }

  lemma {:induction false} PlayedConcat(a: seq<HeroRow>, b: seq<HeroRow>, hero: Option<string>)
    ensures Played(a + b, hero) == Played(a, hero) + Played(b, hero)
  {
    if b == [] {
      assert a + b == a;
    } else {
      assert (a + b)[..|a + b| - 1] == a + b[..|b| - 1];
      PlayedConcat(a, b[..|b| - 1], hero);
    }
  }

  lemma {:induction false} PlayedPermutes(a: seq<HeroRow>, b: seq<HeroRow>, hero: Option<string>)
    requires multiset(a) == multiset(b)
    ensures multiset(Played(a, hero)) == multiset(Played(b, hero))
    decreases |a|
  {
    if a == [] {
      assert |multiset(b)| == 0;
      assert b == [];
    } else {
      var i := FindLast(a, b);
      PlayedPermutes(a[..|a| - 1], b[..i] + b[i + 1..], hero);
      PlayedInserts(b, i, hero);
    }
  }

  lemma {:induction false} PlayedInserts(b: seq<HeroRow>, i: nat, hero: Option<string>)
    requires i < |b|
    ensures multiset(Played(b, hero)) == multiset(Played(b[..i] + b[i + 1..], hero))
      + multiset(if Counts(b[i], hero) then [b[i].agg] else [])
  {
    assert b == b[..i] + ([b[i]] + b[i + 1..]);
    PlayedConcat(b[..i], b[i + 1..], hero);
    PlayedConcat([b[i]], b[i + 1..], hero);
    PlayedConcat(b[..i], [b[i]] + b[i + 1..], hero);
    assert Played([b[i]], hero) == if Counts(b[i], hero) then [b[i].agg] else [];
  }

  lemma {:induction false} CandidatesConcat(a: seq<Agg>, b: seq<Agg>, metric: string, rates: Rates)
    ensures Candidates(a + b, metric, rates) == Candidates(a, metric, rates) + Candidates(b, metric, rates)
  {
    if b == [] {
      assert a + b == a;
    } else {
      assert (a + b)[..|a + b| - 1] == a + b[..|b| - 1];
      CandidatesConcat(a, b[..|b| - 1], metric, rates);
    }
  }

  lemma {:induction false} CandidatesPermute(a: seq<Agg>, b: seq<Agg>, metric: string, rates: Rates)
    requires multiset(a) == multiset(b)
    ensures multiset(Candidates(a, metric, rates)) == multiset(Candidates(b, metric, rates))
    decreases |a|
  {
    if a == [] {
      assert |multiset(b)| == 0;
      assert b == [];
    } else {
      var i := FindLast(a, b);
      CandidatesPermute(a[..|a| - 1], b[..i] + b[i + 1..], metric, rates);
      CandidatesInsert(b, i, metric, rates);
    }
  }

  lemma {:induction false} CandidatesInsert(b: seq<Agg>, i: nat, metric: string, rates: Rates)
    requires i < |b|
    ensures multiset(Candidates(b, metric, rates)) == multiset(Candidates(b[..i] + b[i + 1..], metric, rates))
      + multiset(if Qualifies(b[i], metric) then [RowOf(b[i], rates)] else [])
  {
    assert b == b[..i] + ([b[i]] + b[i + 1..]);
    CandidatesConcat(b[..i], b[i + 1..], metric, rates);
    CandidatesConcat([b[i]], b[i + 1..], metric, rates);
    CandidatesConcat(b[..i], [b[i]] + b[i + 1..], metric, rates);
    assert Candidates([b[i]], metric, rates) == if Qualifies(b[i], metric) then [RowOf(b[i], rates)] else [];
  }

  /** The totals do not depend on the order of the rows. */
  lemma {:induction false} GroupByPermutes(a: seq<Agg>, b: seq<Agg>)
    requires multiset(a) == multiset(b) && OneNameEach(a)
    ensures GroupBy(a) == GroupBy(b)
  {
    assert OneNameEach(b) by {
      SameNames(a, b);
    }
    forall id
      ensures id in GroupBy(a) <==> id in GroupBy(b)
      ensures id in GroupBy(a) ==> GroupBy(a)[id] == GroupBy(b)[id]
    {
      MemberPermutes(a, b, id);
    }
  }

  lemma {:induction false} SameNames(a: seq<Agg>, b: seq<Agg>)
    requires multiset(a) == multiset(b) && OneNameEach(a)
    ensures OneNameEach(b)
  {
    forall i, j | 0 <= i < |b| && 0 <= j < |b| && b[i].memberId == b[j].memberId
      ensures b[i].displayName == b[j].displayName
    {
      assert b[i] in multiset(a) && b[j] in multiset(a);
      var x :| 0 <= x < |a| && a[x] == b[i];
      var y :| 0 <= y < |a| && a[y] == b[j];
    }
  }

  lemma {:induction false} SameName(a: seq<Agg>, b: seq<Agg>, id: string)
    requires multiset(a) == multiset(b) && OneNameEach(a) && OneNameEach(b) && id in GroupBy(a)
    ensures id in GroupBy(b) && GroupBy(a)[id].displayName == GroupBy(b)[id].displayName
  {
    CountersAreCappedSums(a, id, Games);
    var i :| 0 <= i < |a| && a[i].memberId == id;
    assert a[i] in multiset(b);
    var j :| 0 <= j < |b| && b[j] == a[i];
    NameIsTheMembers(a, i);
    NameIsTheMembers(b, j);
  }

  lemma {:induction false} MemberPermutes(a: seq<Agg>, b: seq<Agg>, id: string)
    requires multiset(a) == multiset(b) && OneNameEach(a) && OneNameEach(b)
    ensures id in GroupBy(a) <==> id in GroupBy(b)
    ensures id in GroupBy(a) ==> GroupBy(a)[id] == GroupBy(b)[id]
  {
    forall c
      ensures id in GroupBy(a) ==> Get(GroupBy(a)[id], c) == Capped(Sum(a, id, c)) && GroupBy(a)[id].memberId == id
      ensures id in GroupBy(b) ==> Get(GroupBy(b)[id], c) == Capped(Sum(a, id, c)) && GroupBy(b)[id].memberId == id
    {
      CountersAreCappedSums(a, id, c);
      CountersAreCappedSums(b, id, c);
      SumPermutes(a, b, id, c);
    }
    CountersAreCappedSums(a, id, Games);
    CountersAreCappedSums(b, id, Games);
    if id in GroupBy(a) {
      SameName(a, b, id);
    } else if id in GroupBy(b) {
      SameName(b, a, id);
    }
    if id in GroupBy(a) {
      var p, q := GroupBy(a)[id], GroupBy(b)[id];
      assert Get(p, Games) == Get(q, Games) && Get(p, Wins) == Get(q, Wins) && Get(p, Elims) == Get(q, Elims)
        && Get(p, Deaths) == Get(q, Deaths) && Get(p, KdGames) == Get(q, KdGames);
    }
  }

  // ---------------------------------------------------------------- Unique order

  ghost predicate DistinctIds(rows: seq<BoardRow>) {
    forall i, j :: 0 <= i < j < |rows| ==> rows[i].memberId != rows[j].memberId
  }

  /** Rows of distinct members have one order. */
  lemma {:induction false} OrderIsUnique(a: seq<BoardRow>, b: seq<BoardRow>, metric: string)
    requires multiset(a) == multiset(b) && InOrder(a, metric) && InOrder(b, metric) && DistinctIds(a)
    ensures a == b
    decreases |a|
  {
    assert |a| == |multiset(a)| == |multiset(b)| == |b|;
    if a != [] {
      LastIsSame(a, b, metric);
      DropLast(a, metric);
      DropLast(b, metric);
      var front, front' := a[..|a| - 1], b[..|b| - 1];
      OrderIsUnique(front, front', metric);
      SplitLast(a);
      SplitLast(b);
    }
  }

  lemma {:induction false} SplitLast<T>(s: seq<T>)
    requires s != []
    ensures s == s[..|s| - 1] + [s[|s| - 1]]
  {
  }

  lemma {:induction false} DropLast(rows: seq<BoardRow>, metric: string)
    requires rows != [] && InOrder(rows, metric)
    ensures InOrder(rows[..|rows| - 1], metric)
    ensures multiset(rows[..|rows| - 1]) == multiset(rows) - multiset{rows[|rows| - 1]}
    ensures DistinctIds(rows) ==> DistinctIds(rows[..|rows| - 1])
  {
    var front := rows[..|rows| - 1];
    assert rows == front + [rows[|rows| - 1]];
    assert multiset(rows) == multiset(front) + multiset{rows[|rows| - 1]};
  }

  lemma {:induction false} LastIsSame(a: seq<BoardRow>, b: seq<BoardRow>, metric: string)
    requires a != [] && |a| == |b| && multiset(a) == multiset(b)
    requires InOrder(a, metric) && InOrder(b, metric) && DistinctIds(a)
    ensures a[|a| - 1] == b[|b| - 1]
  {
    var last := |a| - 1;
    var x, y := a[last], b[last];
    if x != y {
      assert x in multiset(b) && y in multiset(a);
      var i :| 0 <= i < |b| && b[i] == x;
      var j :| 0 <= j < |a| && a[j] == y;
      assert a[j].memberId != a[last].memberId;
      assert !Above(a[last], a[j], metric) && !Above(b[last], b[i], metric);
      AboveIsTotal(x, y, metric);
      assert false;
    }
  }

  lemma {:induction false} CandidatesAreSources(source: seq<Agg>, metric: string, rates: Rates, row: BoardRow)
    ensures row in Candidates(source, metric, rates) <==>
      exists agg :: agg in source && Qualifies(agg, metric) && row == RowOf(agg, rates)
  {
    if source != [] {
      CandidatesAreSources(source[..|source| - 1], metric, rates, row);
      assert source == source[..|source| - 1] + [source[|source| - 1]];
    }
  }

  /** A list of a map's values names each member once. */
  ghost predicate DistinctAggs(aggs: seq<Agg>) {
    forall i, j :: 0 <= i < j < |aggs| ==> aggs[i].memberId != aggs[j].memberId
  }

  lemma {:induction false} ListedOnce(list: seq<Agg>, totals: Totals)
    requires Lists(list, totals) && KeyedById(totals)
    ensures DistinctAggs(list)
  {
    forall i, j | 0 <= i < j < |list|
      ensures list[i].memberId != list[j].memberId
    {
      assert list[i] in multiset(list) && list[j] in multiset(list);
      assert list[i] in totals.Values && list[j] in totals.Values;
      assert multiset(totals.Values)[list[i]] == 1;
      if list[i].memberId == list[j].memberId {
        assert list[i] == list[j];
        TwiceCounted(list, i, j);
        assert false;
      }
    }
  }

  lemma {:induction false} TwiceCounted<T>(s: seq<T>, i: nat, j: nat)
    requires i < j < |s| && s[i] == s[j]
    ensures multiset(s)[s[i]] >= 2
  {
    assert s == s[..i] + [s[i]] + s[i + 1..j] + [s[j]] + s[j + 1..];
  }

  lemma {:induction false} CandidatesDistinct(source: seq<Agg>, metric: string, rates: Rates)
    requires DistinctAggs(source)
    ensures DistinctIds(Candidates(source, metric, rates))
  {
    if source != [] {
      var last, front := source[|source| - 1], source[..|source| - 1];
      CandidatesDistinct(front, metric, rates);
      forall row | row in Candidates(front, metric, rates)
        ensures row.memberId != last.memberId
      {
        CandidatesAreSources(front, metric, rates, row);
        var agg :| agg in front && Qualifies(agg, metric) && row == RowOf(agg, rates);
        var i :| 0 <= i < |front| && front[i] == agg;
        assert source[i].memberId != source[|source| - 1].memberId;
      }
    }
  }

  lemma {:induction false} DistinctPermutes(a: seq<BoardRow>, b: seq<BoardRow>)
    requires multiset(a) == multiset(b) && DistinctIds(a)
    ensures DistinctIds(b)
  {
    forall i, j | 0 <= i < j < |b|
      ensures b[i].memberId != b[j].memberId
    {
      assert b[i] in multiset(a) && b[j] in multiset(a);
      var x :| 0 <= x < |a| && a[x] == b[i];
      var y :| 0 <= y < |a| && a[y] == b[j];
      if b[i].memberId == b[j].memberId {
        assert x == y;
        TwiceCounted(b, i, j);
        OnceCounted(a, x);
        assert false;
      }
    }
  }

  lemma {:induction false} OnceCounted(a: seq<BoardRow>, x: nat)
    requires DistinctIds(a) && x < |a|
    ensures multiset(a)[a[x]] == 1
  {
    assert a == a[..x] + [a[x]] + a[x + 1..];
    assert a[x] !in a[..x] && a[x] !in a[x + 1..];
  }

  // --------------------------------------------------------------- Main theorems

  /** Two boards over sources with the same members are the same list. */
  lemma {:induction false} BoardIsUnique(p: seq<BoardRow>, q: seq<BoardRow>, a: seq<Agg>, b: seq<Agg>, metric: string, rates: Rates)
    requires IsBoard(p, a, metric, rates) && IsBoard(q, b, metric, rates)
    requires multiset(a) == multiset(b) && DistinctAggs(a)
    ensures p == q
  {
    CandidatesPermute(a, b, metric, rates);
    CandidatesDistinct(a, metric, rates);
    DistinctPermutes(Candidates(a, metric, rates), p);
    OrderIsUnique(p, q, metric);
  }

  /** A board is strictly sorted, with each member at most once. */
  lemma {:induction false} BoardIsStrict(full: seq<BoardRow>, source: seq<Agg>, metric: string, rates: Rates)
    requires IsBoard(full, source, metric, rates) && DistinctAggs(source)
    ensures forall i, j :: 0 <= i < j < |full| ==> Above(full[i], full[j], metric)
  {
    CandidatesDistinct(source, metric, rates);
    DistinctPermutes(Candidates(source, metric, rates), full);
    forall i, j | 0 <= i < j < |full|
      ensures Above(full[i], full[j], metric)
    {
      AboveIsTotal(full[i], full[j], metric);
    }
  }

  /** Every source that a snapshot has for a hero lists the totals of its rows. */
  lemma {:induction false} SourceListsTotals(snap: Snapshot, rows: seq<HeroRow>, hero: string)
    requires IsSnapshot(snap, rows)
    ensures Lists(Source(snap, hero), GroupBy(Played(rows, if hero == "" then None else Some(hero))))
    ensures DistinctAggs(Source(snap, hero))
  {
    var played := Played(rows, if hero == "" then None else Some(hero));
    GroupByIsKeyed(played);
    if hero != "" && hero !in snap.byHero {
      assert played == [] && GroupBy(played).Values == {};
    }
    ListedOnce(Source(snap, hero), GroupBy(played));
  }

  /** The same rows in another order, through other hash maps, give the same list. */
  lemma {:induction false} RowOrderDoesNotMatter(rows: seq<HeroRow>, other: seq<HeroRow>, snap: Snapshot, snap': Snapshot,
      metric: string, hero: string, limit: nat, rates: Rates, out: seq<BoardRow>, out': seq<BoardRow>)
    requires multiset(rows) == multiset(other) && OneNameEach(Played(rows, if hero == "" then None else Some(hero)))
    requires IsSnapshot(snap, rows) && IsSnapshot(snap', other)
    requires IsProjection(out, snap, metric, hero, limit, rates)
    requires IsProjection(out', snap', metric, hero, limit, rates)
    ensures out == out'
  {
    var of := if hero == "" then None else Some(hero);
    PlayedPermutes(rows, other, of);
    GroupByPermutes(Played(rows, of), Played(other, of));
    SourceListsTotals(snap, rows, hero);
    SourceListsTotals(snap', other, hero);
    var full :| IsBoard(full, Source(snap, hero), metric, rates) && out == Cut(full, limit);
    var full' :| IsBoard(full', Source(snap', hero), metric, rates) && out' == Cut(full', limit);
    BoardIsUnique(full, full', Source(snap, hero), Source(snap', hero), metric, rates);
  }

  /** A smaller limit shows a prefix of what a larger one shows. */
  lemma {:induction false} SmallerLimitIsPrefix(rows: seq<HeroRow>, snap: Snapshot, metric: string, hero: string,
      small: nat, large: nat, rates: Rates, out: seq<BoardRow>, more: seq<BoardRow>)
    requires IsSnapshot(snap, rows) && small <= large
    requires IsProjection(out, snap, metric, hero, small, rates)
    requires IsProjection(more, snap, metric, hero, large, rates)
    ensures out <= more && |out| == if |more| < small then |more| else small
  {
    var source := Source(snap, hero);
    var full :| IsBoard(full, source, metric, rates) && out == Cut(full, small);
    var full' :| IsBoard(full', source, metric, rates) && more == Cut(full', large);
    OneBoard(rows, snap, metric, hero, rates, full, full');
    CutsNest(full, small, large);
  }

  lemma {:induction false} OneBoard(rows: seq<HeroRow>, snap: Snapshot, metric: string, hero: string, rates: Rates,
      p: seq<BoardRow>, q: seq<BoardRow>)
    requires IsSnapshot(snap, rows)
    requires IsBoard(p, Source(snap, hero), metric, rates) && IsBoard(q, Source(snap, hero), metric, rates)
    ensures p == q
  {
    SourceListsTotals(snap, rows, hero);
    BoardIsUnique(p, q, Source(snap, hero), Source(snap, hero), metric, rates);
  }

  lemma {:induction false} CutsNest(full: seq<BoardRow>, small: nat, large: nat)
    requires small <= large
    ensures Cut(full, small) <= Cut(full, large)
    ensures |Cut(full, small)| == if |Cut(full, large)| < small then |Cut(full, large)| else small
  {
  }

  // ------------------------------------------------------------------- The rollup

  /** A member's counter on one hero, as the snapshot has it; zero when it is not listed. */
  function OnHero(rows: seq<HeroRow>, hero: string, id: string, c: Counter): nat {
    var totals := GroupBy(Played(rows, Some(hero)));
    if id in totals then Get(totals[id], c) else 0
  }

  function SumOver(rows: seq<HeroRow>, heroes: seq<string>, id: string, c: Counter): nat {
    if heroes == [] then 0
    else SumOver(rows, heroes[..|heroes| - 1], id, c) + OnHero(rows, heroes[|heroes| - 1], id, c)
  }

  function TrueSumOver(rows: seq<HeroRow>, heroes: seq<string>, id: string, c: Counter): nat {
    if heroes == [] then 0
    else TrueSumOver(rows, heroes[..|heroes| - 1], id, c) + Sum(Played(rows, Some(heroes[|heroes| - 1])), id, c)
  }

  ghost predicate Distinct(heroes: seq<string>) {
    forall i, j :: 0 <= i < j < |heroes| ==> heroes[i] != heroes[j]
  }

  lemma {:induction false} CappedSumsAgree(rows: seq<HeroRow>, heroes: seq<string>, id: string, c: Counter)
    ensures Capped(SumOver(rows, heroes, id, c)) == Capped(TrueSumOver(rows, heroes, id, c))
    ensures SumOver(rows, heroes, id, c) <= TrueSumOver(rows, heroes, id, c)
  {
    if heroes != [] {
      CappedSumsAgree(rows, heroes[..|heroes| - 1], id, c);
      CountersAreCappedSums(Played(rows, Some(heroes[|heroes| - 1])), id, c);
    }
  }

  /** What one row adds to a sum over some heroes. */
  function Added(row: HeroRow, hero: Option<string>, id: string, c: Counter): nat {
    if Counts(row, hero) && row.agg.memberId == id then Get(row.agg, c) else 0
  }

  lemma {:induction false} SumPush(rows: seq<HeroRow>, row: HeroRow, hero: Option<string>, id: string, c: Counter)
    ensures Sum(Played(rows + [row], hero), id, c) == Sum(Played(rows, hero), id, c) + Added(row, hero, id, c)
  {
    PlayedPush(rows, row, hero);
    SumSnoc(Played(rows, hero), row.agg, id, c);
  }

  lemma {:induction false} SumSnoc(aggs: seq<Agg>, agg: Agg, id: string, c: Counter)
    ensures Sum(aggs + [agg], id, c) == Sum(aggs, id, c) + (if agg.memberId == id then Get(agg, c) else 0)
  {
    assert (aggs + [agg])[..|aggs|] == aggs;
  }

  lemma {:induction false} RowAddsNothing(rows: seq<HeroRow>, row: HeroRow, heroes: seq<string>, id: string, c: Counter)
    requires forall i :: 0 <= i < |heroes| ==> heroes[i] != row.hero
    ensures TrueSumOver(rows + [row], heroes, id, c) == TrueSumOver(rows, heroes, id, c)
  {
    if heroes != [] {
      RowAddsNothing(rows, row, heroes[..|heroes| - 1], id, c);
      SumPush(rows, row, Some(heroes[|heroes| - 1]), id, c);
    }
  }

  lemma {:induction false} RowAddsOnce(rows: seq<HeroRow>, row: HeroRow, heroes: seq<string>, k: nat, id: string, c: Counter)
    requires k < |heroes| && heroes[k] == row.hero
    requires forall i :: 0 <= i < |heroes| && i != k ==> heroes[i] != row.hero
    ensures TrueSumOver(rows + [row], heroes, id, c) == TrueSumOver(rows, heroes, id, c) + Added(row, None, id, c)
  {
    var last := |heroes| - 1;
    var front := heroes[..last];
    SumPush(rows, row, Some(heroes[last]), id, c);
    if k < last {
      RowAddsOnce(rows, row, front, k, id, c);
      assert Added(row, Some(heroes[last]), id, c) == 0;
    } else {
      RowAddsNothing(rows, row, front, id, c);
      assert Added(row, Some(heroes[last]), id, c) == Added(row, None, id, c);
    }
    LastHero(rows, heroes, id, c);
    LastHero(rows + [row], heroes, id, c);
  }

  lemma {:induction false} LastHero(rows: seq<HeroRow>, heroes: seq<string>, id: string, c: Counter)
    requires heroes != []
    ensures TrueSumOver(rows, heroes, id, c)
         == TrueSumOver(rows, heroes[..|heroes| - 1], id, c) + Sum(Played(rows, Some(heroes[|heroes| - 1])), id, c)
  {
  }

  lemma {:induction false} IdleRowAddsNothing(rows: seq<HeroRow>, row: HeroRow, heroes: seq<string>, id: string, c: Counter)
    requires row.agg.games == 0
    ensures TrueSumOver(rows + [row], heroes, id, c) == TrueSumOver(rows, heroes, id, c)
  {
    if heroes != [] {
      IdleRowAddsNothing(rows, row, heroes[..|heroes| - 1], id, c);
      SumPush(rows, row, Some(heroes[|heroes| - 1]), id, c);
    }
  }

  lemma {:induction false} HeroesAddUp(rows: seq<HeroRow>, heroes: seq<string>, id: string, c: Counter)
    requires Distinct(heroes)
    requires forall i :: 0 <= i < |rows| && rows[i].agg.games > 0 ==> rows[i].hero in heroes
    ensures TrueSumOver(rows, heroes, id, c) == Sum(Played(rows, None), id, c)
  {
    if rows == [] {
      NothingAddsUp(heroes, id, c);
    } else {
      var last, front := rows[|rows| - 1], rows[..|rows| - 1];
      HeroesAddUp(front, heroes, id, c);
      assert rows == front + [last];
      if last.agg.games > 0 {
        var k :| 0 <= k < |heroes| && heroes[k] == last.hero;
        assert forall i :: 0 <= i < |heroes| && i != k ==> heroes[i] != heroes[k];
        RowAddsOnce(front, last, heroes, k, id, c);
      } else {
        IdleRowAddsNothing(front, last, heroes, id, c);
      }
      SumPush(front, last, None, id, c);
    }
  }

  lemma {:induction false} NothingAddsUp(heroes: seq<string>, id: string, c: Counter)
    ensures TrueSumOver([], heroes, id, c) == 0
  {
    if heroes != [] {
      NothingAddsUp(heroes[..|heroes| - 1], id, c);
    }
  }

  lemma {:induction false} PlayedIsThere(rows: seq<HeroRow>, i: nat)
    requires i < |rows| && rows[i].agg.games > 0
    ensures Played(rows, Some(rows[i].hero)) != []
  {
    if i < |rows| - 1 {
      PlayedIsThere(rows[..|rows| - 1], i);
    }
  }

  /** The all-heroes totals are the rollup of the per-hero ones: for any listing of the snapshot's
      heroes, each counter is the capped sum of the member's per-hero counters. */
  lemma {:induction false} AllIsRollupOfHeroes(rows: seq<HeroRow>, snap: Snapshot, heroes: seq<string>, id: string, c: Counter)
    requires IsSnapshot(snap, rows) && Distinct(heroes)
    requires forall hero :: hero in snap.byHero <==> hero in heroes
    requires id in GroupBy(Played(rows, None))
    ensures Get(GroupBy(Played(rows, None))[id], c) == Capped(SumOver(rows, heroes, id, c))
  {
    forall i | 0 <= i < |rows| && rows[i].agg.games > 0
      ensures rows[i].hero in heroes
    {
      PlayedIsThere(rows, i);
      assert rows[i].hero in snap.byHero;
    }
    HeroesAddUp(rows, heroes, id, c);
    CappedSumsAgree(rows, heroes, id, c);
    CountersAreCappedSums(Played(rows, None), id, c);
  }

  // ---------------------------------------------------------- Where the order shows

  lemma {:induction false} FirstNameStays(first: Agg, rest: seq<Agg>)
    ensures first.memberId in GroupBy([first] + rest)
    ensures GroupBy([first] + rest)[first.memberId].displayName == first.displayName
  {
    var all := [first] + rest;
    if rest == [] {
      assert all == [first] && all[..0] == [];
      assert GroupBy(all) == MergeOne(map[], first);
    } else {
      var n := |rest| - 1;
      FirstNameStays(first, rest[..n]);
      assert all[..n + 1] == [first] + rest[..n];
      assert GroupBy(all) == MergeOne(GroupBy([first] + rest[..n]), rest[n]);
    }
  }

  function ToFront(aggs: seq<Agg>, i: nat): seq<Agg>
    requires i < |aggs|
  {
    [aggs[i]] + (aggs[..i] + aggs[i + 1..])
  }

  lemma {:induction false} ToFrontPermutes(aggs: seq<Agg>, i: nat)
    requires i < |aggs|
    ensures multiset(ToFront(aggs, i)) == multiset(aggs)
  {
    assert aggs == aggs[..i] + [aggs[i]] + aggs[i + 1..];
  }

  /** The totals are the same in every order of the rows. */
  ghost predicate OrderFree(aggs: seq<Agg>) {
    forall other :: multiset(other) == multiset(aggs) ==> GroupBy(other) == GroupBy(aggs)
  }

  lemma {:induction false} TwoNamesShow(aggs: seq<Agg>, i: nat, j: nat)
    requires i < |aggs| && j < |aggs|
    requires aggs[i].memberId == aggs[j].memberId && aggs[i].displayName != aggs[j].displayName
    ensures !OrderFree(aggs)
  {
    ToFrontPermutes(aggs, i);
    ToFrontPermutes(aggs, j);
    FirstNameStays(aggs[i], aggs[..i] + aggs[i + 1..]);
    FirstNameStays(aggs[j], aggs[..j] + aggs[j + 1..]);
    assert GroupBy(ToFront(aggs, i)) != GroupBy(ToFront(aggs, j));
  }

  /** The totals do not depend on the order of the rows if and only if each member has one name:
      otherwise the first name stays, whichever comes first. */
  lemma {:induction false} OrderFreeIff(aggs: seq<Agg>)
    ensures OrderFree(aggs) <==> OneNameEach(aggs)
  {
    if OneNameEach(aggs) {
      forall other | multiset(other) == multiset(aggs)
        ensures GroupBy(other) == GroupBy(aggs)
      {
        GroupByPermutes(aggs, other);
      }
    } else {
      var i, j :| 0 <= i < |aggs| && 0 <= j < |aggs| && aggs[i].memberId == aggs[j].memberId
        && aggs[i].displayName != aggs[j].displayName;
      TwoNamesShow(aggs, i, j);
    }
  }
}
