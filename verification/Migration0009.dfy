/** Migration 0009: chart configuration moves from queries to charts and back. Tables are sequences of rows in
    the order a SELECT returns them. */
module Migration0009 {
  import opened Wrappers

  const TABLE := "table"

  /** The columns a query lends to its chart. */
  datatype Drawing = Drawing(chartType: string, xField: Option<string>, yField: Option<string>, seriesField: Option<string>)

  datatype QueryRow = QueryRow(id: string, name: string, createdAt: int, updatedAt: int)

  /** Before: a query row with its drawing, and boards placing queries. */
  datatype OldQuery = OldQuery(row: QueryRow, drawing: Drawing)
  datatype OldItem = OldItem(dashboard: string, query: string, position: int)
  datatype OldDb = OldDb(queries: seq<OldQuery>, items: seq<OldItem>)

  /** After: charts of their own, and boards placing charts. */
  datatype Chart = Chart(id: string, query: string, name: string, position: int, drawing: Drawing, createdAt: int, updatedAt: int)
  datatype Item = Item(dashboard: string, chart: string, position: int)
  datatype Db = Db(queries: seq<QueryRow>, charts: seq<Chart>, items: seq<Item>)

  // --- what the tables guarantee -------------------------------------------------

  ghost predicate ValidOld(db: OldDb)
  {
    && (forall i, j :: 0 <= i < j < |db.queries| ==> db.queries[i].row.id != db.queries[j].row.id)
    && DistinctPlacements(db.items)
    && (forall i :: 0 <= i < |db.items| ==> exists k :: 0 <= k < |db.queries| && db.queries[k].row.id == db.items[i].query)
  }

  ghost predicate DistinctIds(ids: seq<string>) { forall i, j :: 0 <= i < j < |ids| ==> ids[i] != ids[j] }

  /** A result of `SELECT ... ORDER BY position`: the same rows, positions rising, ties in any order. */
  ghost predicate OrderedBy(ordered: seq<Chart>, charts: seq<Chart>)
  {
    multiset(ordered) == multiset(charts)
    && forall i, j :: 0 <= i < j < |ordered| ==> ordered[i].position <= ordered[j].position
  }

  // --- upgrade ----------------------------------------------------------------------

  function Truncated(s: string): string { if |s| > 200 then s[..200] else s }

  function ChartFor(q: OldQuery, id: string): Chart
  {
    Chart(id, q.row.id, Truncated(if q.row.name == "" then "Chart" else q.row.name), 0,
          q.drawing.(chartType := if q.drawing.chartType == "" then TABLE else q.drawing.chartType),
          q.row.createdAt, q.row.updatedAt)
  }

  function ChartIds(queries: seq<OldQuery>, ids: seq<string>): map<string, string>
    requires |ids| == |queries|
  {
    if queries == [] then map[]
    else
      var n := |queries| - 1;
      ChartIds(queries[..n], ids[..n])[queries[n].row.id := ids[n]]
  }

  function Repointed(items: seq<OldItem>, chartFor: map<string, string>): seq<Item>
  {
    if items == [] then []
    else
      var it := items[|items| - 1];
      Repointed(items[..|items| - 1], chartFor)
      + (if it.query in chartFor then [Item(it.dashboard, chartFor[it.query], it.position)] else [])
  }

  function Upgraded(db: OldDb, ids: seq<string>): Db
    requires |ids| == |db.queries|
  {
    Db(seq(|db.queries|, i requires 0 <= i < |db.queries| => db.queries[i].row),
       seq(|db.queries|, i requires 0 <= i < |db.queries| => ChartFor(db.queries[i], ids[i])),
       Repointed(db.items, ChartIds(db.queries, ids)))
  }

  /** `upgrade`, the row-moving part; `ids` are the identifiers the new charts are given. */
  method Upgrade(db: OldDb, ids: seq<string>) returns (r: Db)
    requires |ids| == |db.queries|
    ensures r == Upgraded(db, ids)
  {
    var charts, chartForQuery := ChartPerQuery(db.queries, ids);
    var items := RepointItems(db.items, chartForQuery);
    var queries := seq(|db.queries|, i requires 0 <= i < |db.queries| => db.queries[i].row);
    r := Db(queries, charts, items);
  }

  /** The loop over queries: one chart each, drawing what the query drew. */
  method ChartPerQuery(queries: seq<OldQuery>, ids: seq<string>) returns (charts: seq<Chart>, chartForQuery: map<string, string>)
    requires |ids| == |queries|
    ensures charts == seq(|queries|, i requires 0 <= i < |queries| => ChartFor(queries[i], ids[i]))
    ensures chartForQuery == ChartIds(queries, ids)
  {
    charts, chartForQuery := [], map[];
    for n := 0 to |queries|
      invariant |charts| == n && forall i :: 0 <= i < n ==> charts[i] == ChartFor(queries[i], ids[i])
      invariant chartForQuery == ChartIds(queries[..n], ids[..n])
    {
      assert queries[..n + 1][..n] == queries[..n] && ids[..n + 1][..n] == ids[..n];
      chartForQuery := chartForQuery[queries[n].row.id := ids[n]];
      charts := charts + [ChartFor(queries[n], ids[n])];
    }
    assert queries[..|queries|] == queries && ids[..|queries|] == ids;
  }

  /** The loop over board items, repointing each at its query's chart. */
  method RepointItems(placements: seq<OldItem>, chartForQuery: map<string, string>) returns (items: seq<Item>)
    ensures items == Repointed(placements, chartForQuery)
  {
    items := [];
    for n := 0 to |placements|
      invariant items == Repointed(placements[..n], chartForQuery)
    {
      var item := placements[n];
      assert placements[..n + 1][..n] == placements[..n];
      if item.query in chartForQuery {
        items := items + [Item(item.dashboard, chartForQuery[item.query], item.position)];
      }
    }
    assert placements[..|placements|] == placements;
  }

  /** What an upgrade makes of each query and each placement: a chart of its own at position 0, named after the query
      in at most 200 characters and drawing what the query drew, and the placement moved to that chart. */
  lemma UpgradedIs(db: OldDb, ids: seq<string>)
    requires |ids| == |db.queries|
    ensures var r := Upgraded(db, ids);
            && |r.queries| == |r.charts| == |db.queries|
            && (forall k :: 0 <= k < |db.queries| ==>
                  var q := db.queries[k].row;
                  var name := if q.name == "" then "Chart" else q.name;
                  var d := db.queries[k].drawing;
                  && r.queries[k] == q
                  && r.charts[k] == Chart(ids[k], q.id, if |name| > 200 then name[..200] else name, 0,
                                          Drawing(if d.chartType == "" then "table" else d.chartType, d.xField, d.yField, d.seriesField),
                                          q.createdAt, q.updatedAt))
    ensures ValidOld(db) ==>
              var r := Upgraded(db, ids);
              && |r.items| == |db.items|
              && forall i, k :: 0 <= i < |db.items| && 0 <= k < |db.queries| && db.queries[k].row.id == db.items[i].query ==>
                   r.items[i] == Item(db.items[i].dashboard, ids[k], db.items[i].position)
  {
    if ValidOld(db) {
      var chartFor := ChartIds(db.queries, ids);
      forall i | 0 <= i < |db.items| ensures db.items[i].query in chartFor {
        var k :| 0 <= k < |db.queries| && db.queries[k].row.id == db.items[i].query;
        ChartIdsLookup(db.queries, ids, k);
      }
      RepointedAt(db.items, chartFor);
      forall i, k | 0 <= i < |db.items| && 0 <= k < |db.queries| && db.queries[k].row.id == db.items[i].query
        ensures Upgraded(db, ids).items[i] == Item(db.items[i].dashboard, ids[k], db.items[i].position)
      {
        ChartIdsLookup(db.queries, ids, k);
      }
    }
  }

  lemma {:induction false} RepointedAt(items: seq<OldItem>, chartFor: map<string, string>)
    requires forall i :: 0 <= i < |items| ==> items[i].query in chartFor
    ensures |Repointed(items, chartFor)| == |items|
    ensures forall i :: 0 <= i < |items| ==>
              Repointed(items, chartFor)[i] == Item(items[i].dashboard, chartFor[items[i].query], items[i].position)
  {
    if items != [] {
      var front := items[..|items| - 1];
      RepointedAt(front, chartFor);
      assert forall i :: 0 <= i < |front| ==> items[i] == front[i];
    }
  }

  // --- downgrade --------------------------------------------------------------------

  /** The chart that wins: the first of its query. */
  function FirstChart(ordered: seq<Chart>, query: string): (c: Option<Chart>)
    ensures c.Some? ==> c.value in ordered && c.value.query == query
    ensures c.None? ==> forall i :: 0 <= i < |ordered| ==> ordered[i].query != query
  {
    if ordered == [] then None
    else if ordered[0].query == query then Some(ordered[0])
    else FirstChart(ordered[1..], query)
  }

  const Blank := Drawing(TABLE, None, None, None)

  function Restored(row: QueryRow, ordered: seq<Chart>): OldQuery
  {
    var first := FirstChart(ordered, row.id);
    OldQuery(row, if first.Some? then first.value.drawing else Blank)
  }

  /** The query an item of this chart stands for: only a winning chart stands for one. */
  function QueryOf(ordered: seq<Chart>, chart: string): (q: Option<string>)
    ensures q.Some? ==> FirstChart(ordered, q.value).Some? && FirstChart(ordered, q.value).value.id == chart
  {
    QueryAmong(ordered, ordered, chart)
  }

  function QueryAmong(ordered: seq<Chart>, rest: seq<Chart>, chart: string): (q: Option<string>)
    ensures q.Some? ==> FirstChart(ordered, q.value).Some? && FirstChart(ordered, q.value).value.id == chart
    ensures q.None? ==> forall i :: 0 <= i < |rest| && rest[i].id == chart ==>
              FirstChart(ordered, rest[i].query).None? || FirstChart(ordered, rest[i].query).value.id != chart
  {
    if rest == [] then None
    else
      var last := rest[|rest| - 1];
      var first := FirstChart(ordered, last.query);
      if last.id == chart && first.Some? && first.value.id == chart then Some(last.query)
      else QueryAmong(ordered, rest[..|rest| - 1], chart)
  }

  function Placed(items: seq<OldItem>): set<(string, string)>
  {
    set i | 0 <= i < |items| :: (items[i].dashboard, items[i].query)
  }

  function Collapsed(items: seq<Item>, ordered: seq<Chart>): seq<OldItem>
  {
    if items == [] then []
    else
      var it, before := items[|items| - 1], Collapsed(items[..|items| - 1], ordered);
      var query := QueryOf(ordered, it.chart);
      if query.None? || (it.dashboard, query.value) in Placed(before) then before
      else before + [OldItem(it.dashboard, query.value, it.position)]
  }

  function Downgraded(db: Db, ordered: seq<Chart>): OldDb
  {
    OldDb(seq(|db.queries|, i requires 0 <= i < |db.queries| => Restored(db.queries[i], ordered)),
          Collapsed(db.items, ordered))
  }

  /** `downgrade`, the row-moving part; `ordered` is what the ordered SELECT over the charts returned. */
  method Downgrade(db: Db, ordered: seq<Chart>) returns (r: OldDb)
    ensures r == Downgraded(db, ordered)
  {
    var seen := FirstCharts(ordered);
    var queries: seq<OldQuery> := [];
    for n := 0 to |db.queries|
      invariant |queries| == n && forall i :: 0 <= i < n ==> queries[i] == Restored(db.queries[i], ordered)
    {
      var row := db.queries[n];
      queries := queries + [OldQuery(row, if row.id in seen then seen[row.id].drawing else Blank)];
    }
    var items := CollapseItems(db.items, ordered);
    r := OldDb(queries, items);
  }

  /** The loop over charts in position order: the first of each query is remembered. */
  method FirstCharts(ordered: seq<Chart>) returns (seen: map<string, Chart>)
    ensures forall q :: q in seen <==> FirstChart(ordered, q).Some?
    ensures forall q :: q in seen ==> seen[q] == FirstChart(ordered, q).value
  {
    seen := map[];
    for n := 0 to |ordered|
      invariant forall q :: q in seen <==> FirstChart(ordered[..n], q).Some?
      invariant forall q :: q in seen ==> seen[q] == FirstChart(ordered[..n], q).value
    {
      FirstOfMore(ordered, n);
      if ordered[n].query !in seen {
        seen := seen[ordered[n].query := ordered[n]];
      }
    }
    assert ordered[..|ordered|] == ordered;
  }

  lemma {:induction false} FirstOfMore(ordered: seq<Chart>, n: nat)
    requires n < |ordered|
    ensures forall q :: FirstChart(ordered[..n + 1], q)
                        == if FirstChart(ordered[..n], q).Some? then FirstChart(ordered[..n], q)
                           else if ordered[n].query == q then Some(ordered[n]) else None
  {
    if n > 0 {
      FirstOfMore(ordered[1..], n - 1);
      assert ordered[1..][..n] == ordered[..n + 1][1..] && ordered[1..][..n - 1] == ordered[..n][1..];
    }
  }

  /** The loop over board items, keeping one row per (board, query). */
  method CollapseItems(items: seq<Item>, ordered: seq<Chart>) returns (kept: seq<OldItem>)
    ensures kept == Collapsed(items, ordered)
  {
    kept := [];
    var placed: set<(string, string)> := {};
    for n := 0 to |items|
      invariant kept == Collapsed(items[..n], ordered) && placed == Placed(kept)
    {
      var item := items[n];
      assert items[..n + 1][..n] == items[..n];
      var query := QueryOf(ordered, item.chart);
      if query.Some? && (item.dashboard, query.value) !in placed {
        placed := placed + {(item.dashboard, query.value)};
        PlacedOneMore(kept, OldItem(item.dashboard, query.value, item.position));
        kept := kept + [OldItem(item.dashboard, query.value, item.position)];
      }
    }
    assert items[..|items|] == items;
  }

  lemma PlacedOneMore(kept: seq<OldItem>, it: OldItem)
    ensures Placed(kept + [it]) == Placed(kept) + {(it.dashboard, it.query)}
  {
    var more := kept + [it];
    assert forall i :: 0 <= i < |kept| ==> more[i] == kept[i];
    assert more[|kept|] == it;
  }

  // --- what the pair promises ----------------------------------------------------------

  /** The composite primary key of the old table. */
  ghost predicate DistinctPlacements(items: seq<OldItem>)
  {
    forall i, j :: 0 <= i < j < |items| ==> items[i].dashboard != items[j].dashboard || items[i].query != items[j].query
  }

  /** Whatever the boards hold, a downgrade never places one query twice on one board. */
  lemma {:induction false} NoDuplicatePlacements(items: seq<Item>, ordered: seq<Chart>)
    ensures DistinctPlacements(Collapsed(items, ordered))
  {
    if items != [] {
      NoDuplicatePlacements(items[..|items| - 1], ordered);
      var before := Collapsed(items[..|items| - 1], ordered);
      assert forall i :: 0 <= i < |before| ==> (before[i].dashboard, before[i].query) in Placed(before);
    }
  }

  /** Chart k is the first of its query. */
  ghost predicate IsFirst(ordered: seq<Chart>, k: nat, query: string)
  {
    k < |ordered| && ordered[k].query == query && forall j :: 0 <= j < k ==> ordered[j].query != query
  }

  /** The board places the first chart of the query. */
  ghost predicate Stands(ordered: seq<Chart>, it: Item, board: string, query: string)
  {
    it.dashboard == board && exists k: nat :: IsFirst(ordered, k, query) && ordered[k].id == it.chart
  }

  /** The chart ids, a primary key. */
  ghost predicate DistinctCharts(ordered: seq<Chart>)
  {
    forall i, j :: 0 <= i < j < |ordered| ==> ordered[i].id != ordered[j].id
  }

  lemma {:induction false} FirstChartIsFirst(ordered: seq<Chart>, k: nat, query: string)
    requires IsFirst(ordered, k, query)
    ensures FirstChart(ordered, query) == Some(ordered[k])
  {
    if k > 0 {
      FirstChartIsFirst(ordered[1..], k - 1, query);
    }
  }

  lemma {:induction false} FirstChartAt(ordered: seq<Chart>, query: string) returns (k: nat)
    requires FirstChart(ordered, query).Some?
    ensures IsFirst(ordered, k, query) && ordered[k] == FirstChart(ordered, query).value
  {
    if ordered[0].query == query {
      return 0;
    }
    var i := FirstChartAt(ordered[1..], query);
    k := i + 1;
    assert forall j :: 1 <= j < k ==> ordered[j] == ordered[1..][j - 1];
  }

  /** With distinct ids, an item stands for a query exactly when its chart is that query's first. */
  lemma QueryOfIsFirst(ordered: seq<Chart>, chart: string, query: string)
    requires DistinctCharts(ordered)
    ensures QueryOf(ordered, chart) == Some(query) <==> exists k: nat :: IsFirst(ordered, k, query) && ordered[k].id == chart
  {
    var q := QueryOf(ordered, chart);
    if q == Some(query) {
      var k := FirstChartAt(ordered, query);
      assert IsFirst(ordered, k, query) && ordered[k].id == chart;
    }
    if k: nat :| IsFirst(ordered, k, query) && ordered[k].id == chart {
      FirstChartIsFirst(ordered, k, query);
      assert q.Some?;
      var i := FirstChartAt(ordered, q.value);
      assert i == k;
    }
  }

  /** What a downgrade gives each query back: what its first chart draws, or an empty table when it has none. */
  lemma DowngradedQueries(db: Db, ordered: seq<Chart>)
    ensures var r := Downgraded(db, ordered);
            && |r.queries| == |db.queries|
            && forall k :: 0 <= k < |db.queries| ==>
                 && r.queries[k].row == db.queries[k]
                 && (forall j: nat :: IsFirst(ordered, j, db.queries[k].id) ==> r.queries[k].drawing == ordered[j].drawing)
                 && ((forall j :: 0 <= j < |ordered| ==> ordered[j].query != db.queries[k].id)
                     ==> r.queries[k].drawing == Drawing("table", None, None, None))
  {
    var r := Downgraded(db, ordered);
    forall k, j: nat | 0 <= k < |db.queries| && IsFirst(ordered, j, db.queries[k].id)
      ensures r.queries[k].drawing == ordered[j].drawing
    {
      FirstChartIsFirst(ordered, j, db.queries[k].id);
    }
    forall k | 0 <= k < |db.queries| && forall j :: 0 <= j < |ordered| ==> ordered[j].query != db.queries[k].id
      ensures r.queries[k].drawing == Drawing("table", None, None, None)
    {
      if FirstChart(ordered, db.queries[k].id).Some? {
        var j := FirstChartAt(ordered, db.queries[k].id);
      }
    }
  }

  /** A board keeps a query exactly when it placed that query's first chart. */
  lemma {:induction false} SurvivesExactly(items: seq<Item>, ordered: seq<Chart>, board: string, query: string)
    requires DistinctCharts(ordered)
    ensures (board, query) in Placed(Collapsed(items, ordered))
            <==> exists i :: 0 <= i < |items| && Stands(ordered, items[i], board, query)
  {
    if items != [] {
      var n := |items| - 1;
      var it, before := items[n], Collapsed(items[..n], ordered);
      SurvivesExactly(items[..n], ordered, board, query);
      assert forall i :: 0 <= i < n ==> items[..n][i] == items[i];
      QueryOfIsFirst(ordered, it.chart, query);
      assert Stands(ordered, it, board, query) <==> it.dashboard == board && QueryOf(ordered, it.chart) == Some(query);
      PlacedAfter(items[..n], it, ordered, board, query);
      assert items == items[..n] + [it];
    }
  }

  lemma PlacedAfter(front: seq<Item>, it: Item, ordered: seq<Chart>, board: string, query: string)
    ensures (board, query) in Placed(Collapsed(front + [it], ordered))
            <==> (board, query) in Placed(Collapsed(front, ordered))
                 || (it.dashboard == board && QueryOf(ordered, it.chart) == Some(query))
  {
    assert (front + [it])[..|front|] == front;
    var q := QueryOf(ordered, it.chart);
    if q.Some? {
      PlacedOneMore(Collapsed(front, ordered), OldItem(it.dashboard, q.value, it.position));
    }
  }

  /** A kept row has the position its board gave the first chart of the query. */
  lemma {:induction false} PositionsAreKept(items: seq<Item>, ordered: seq<Chart>, k: nat)
    requires DistinctCharts(ordered) && k < |Collapsed(items, ordered)|
    ensures var kept := Collapsed(items, ordered)[k];
            exists i :: 0 <= i < |items| && Stands(ordered, items[i], kept.dashboard, kept.query)
                        && items[i].position == kept.position
  {
    var n := |items| - 1;
    var before, kept := Collapsed(items[..n], ordered), Collapsed(items, ordered)[k];
    if k < |before| {
      PositionsAreKept(items[..n], ordered, k);
      assert forall i :: 0 <= i < n ==> items[..n][i] == items[i];
    } else {
      QueryOfIsFirst(ordered, items[n].chart, kept.query);
      assert Stands(ordered, items[n], kept.dashboard, kept.query);
    }
  }

  /** A board that placed only a query's second chart loses the query: its row is dropped, not collapsed. */
  lemma SecondChartAloneIsDropped(board: string, q: string, d: Drawing)
    ensures var first, second := Chart("1", q, "a", 0, d, 0, 0), Chart("2", q, "b", 1, d, 0, 0);
            Collapsed([Item(board, "2", 0)], [first, second]) == []
  {
  }

  // --- the round trip ---------------------------------------------------------------------

  lemma {:induction false} ChartIdsLookup(queries: seq<OldQuery>, ids: seq<string>, k: nat)
    requires |ids| == |queries| && k < |queries|
    requires forall i, j :: 0 <= i < j < |queries| ==> queries[i].row.id != queries[j].row.id
    ensures queries[k].row.id in ChartIds(queries, ids) && ChartIds(queries, ids)[queries[k].row.id] == ids[k]
  {
    var n := |queries| - 1;
    if k < n {
      ChartIdsLookup(queries[..n], ids[..n], k);
    }
  }

  /** In an upgraded database every query has exactly its own chart, in whatever order they are read. */
  lemma OnlyChartWins(db: OldDb, ids: seq<string>, ordered: seq<Chart>, k: nat)
    requires ValidOld(db) && |ids| == |db.queries| && k < |db.queries|
    requires OrderedBy(ordered, Upgraded(db, ids).charts)
    ensures FirstChart(ordered, db.queries[k].row.id) == Some(ChartFor(db.queries[k], ids[k]))
  {
    var charts, q := Upgraded(db, ids).charts, db.queries[k].row.id;
    assert charts[k] == ChartFor(db.queries[k], ids[k]);
    SameRows(ordered, charts, charts[k]);
    var i :| 0 <= i < |ordered| && ordered[i] == charts[k];
    assert ordered[i].query == q;
    OnlyChartOfQuery(db, ids, ordered, FirstChart(ordered, q).value, k);
  }

  lemma OnlyChartOfQuery(db: OldDb, ids: seq<string>, ordered: seq<Chart>, c: Chart, k: nat)
    requires ValidOld(db) && |ids| == |db.queries| && k < |db.queries|
    requires OrderedBy(ordered, Upgraded(db, ids).charts) && c in ordered && c.query == db.queries[k].row.id
    ensures c == ChartFor(db.queries[k], ids[k])
  {
    var charts := Upgraded(db, ids).charts;
    SameRows(ordered, charts, c);
    var j :| 0 <= j < |charts| && charts[j] == c;
    assert charts[j].query == db.queries[j].row.id;
  }

  lemma SameRows(a: seq<Chart>, b: seq<Chart>, c: Chart)
    requires multiset(a) == multiset(b)
    ensures c in a <==> c in b
  {
    assert c in a <==> c in multiset(a);
    assert c in b <==> c in multiset(b);
  }

  lemma ChartStandsForQuery(db: OldDb, ids: seq<string>, ordered: seq<Chart>, k: nat)
    requires ValidOld(db) && DistinctIds(ids) && |ids| == |db.queries| && k < |db.queries|
    requires OrderedBy(ordered, Upgraded(db, ids).charts)
    ensures QueryOf(ordered, ids[k]) == Some(db.queries[k].row.id)
  {
    var charts := Upgraded(db, ids).charts;
    OnlyChartWins(db, ids, ordered, k);
    SameRows(ordered, charts, charts[k]);
    assert charts[k].id == ids[k] && charts[k].query == db.queries[k].row.id;
    var i :| 0 <= i < |ordered| && ordered[i] == charts[k];
    var q := QueryOf(ordered, ids[k]);
    assert q.Some?;
    WinnerIsOwn(db, ids, ordered, FirstChart(ordered, q.value).value, k);
  }

  lemma WinnerIsOwn(db: OldDb, ids: seq<string>, ordered: seq<Chart>, winner: Chart, k: nat)
    requires DistinctIds(ids) && |ids| == |db.queries| && k < |db.queries|
    requires OrderedBy(ordered, Upgraded(db, ids).charts) && winner in ordered && winner.id == ids[k]
    ensures winner.query == db.queries[k].row.id
  {
    var charts := Upgraded(db, ids).charts;
    SameRows(ordered, charts, winner);
    var j :| 0 <= j < |charts| && charts[j] == winner;
    assert charts[j].id == ids[j];
  }

  lemma {:induction false} ItemsRoundTrip(db: OldDb, ids: seq<string>, ordered: seq<Chart>, items: seq<OldItem>)
    requires ValidOld(db) && DistinctIds(ids) && |ids| == |db.queries|
    requires OrderedBy(ordered, Upgraded(db, ids).charts)
    requires items <= db.items
    ensures Collapsed(Repointed(items, ChartIds(db.queries, ids)), ordered) == items
  {
    if items != [] {
      var n := |items| - 1;
      ItemsRoundTrip(db, ids, ordered, items[..n]);
      assert items == items[..n] + [items[n]];
      assert db.items[n] == items[n] && items[..n] == db.items[..n];
      NotPlacedBefore(db.items, n);
      var k :| 0 <= k < |db.queries| && db.queries[k].row.id == items[n].query;
      OneItemBack(db, ids, ordered, items[..n], items[n], k);
    }
  }

  lemma NotPlacedBefore(items: seq<OldItem>, n: nat)
    requires DistinctPlacements(items) && n < |items|
    ensures (items[n].dashboard, items[n].query) !in Placed(items[..n])
  {
  }

  lemma OneItemBack(db: OldDb, ids: seq<string>, ordered: seq<Chart>, front: seq<OldItem>, it: OldItem, k: nat)
    requires ValidOld(db) && DistinctIds(ids) && |ids| == |db.queries|
    requires OrderedBy(ordered, Upgraded(db, ids).charts)
    requires k < |db.queries| && db.queries[k].row.id == it.query && (it.dashboard, it.query) !in Placed(front)
    requires Collapsed(Repointed(front, ChartIds(db.queries, ids)), ordered) == front
    ensures Collapsed(Repointed(front + [it], ChartIds(db.queries, ids)), ordered) == front + [it]
  {
    var chartFor := ChartIds(db.queries, ids);
    ChartIdsLookup(db.queries, ids, k);
    ChartStandsForQuery(db, ids, ordered, k);
    assert (front + [it])[..|front|] == front;
    CollapseOneMore(Repointed(front, chartFor), Item(it.dashboard, ids[k], it.position), ordered, it.query);
  }

  lemma CollapseOneMore(before: seq<Item>, it: Item, ordered: seq<Chart>, query: string)
    requires QueryOf(ordered, it.chart) == Some(query)
    requires (it.dashboard, query) !in Placed(Collapsed(before, ordered))
    ensures Collapsed(before + [it], ordered) == Collapsed(before, ordered) + [OldItem(it.dashboard, query, it.position)]
  {
  }

  /** Upgrading and downgrading again gives back every query, every chart column and every board placement,
      for every database, however the charts are read back; an empty chart type, which the schema forbids, is the
      one thing that would come back as a table. */
  lemma RoundTrip(db: OldDb, ids: seq<string>, ordered: seq<Chart>)
    requires ValidOld(db) && DistinctIds(ids) && |ids| == |db.queries|
    requires OrderedBy(ordered, Upgraded(db, ids).charts)
    ensures var back := Downgraded(Upgraded(db, ids), ordered);
            && back.items == db.items
            && |back.queries| == |db.queries|
            && (forall k :: 0 <= k < |db.queries| ==>
                  back.queries[k].row == db.queries[k].row
                  && (back.queries[k] == db.queries[k] <==> db.queries[k].drawing.chartType != ""))
  {
    ItemsRoundTrip(db, ids, ordered, db.items);
    var back := Downgraded(Upgraded(db, ids), ordered);
    forall k | 0 <= k < |db.queries|
      ensures back.queries[k].row == db.queries[k].row
      ensures back.queries[k] == db.queries[k] <==> db.queries[k].drawing.chartType != ""
    {
      OnlyChartWins(db, ids, ordered, k);
    }
  }
}
