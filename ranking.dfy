/**
 * The dashboard's "most active items" queries: `getTopItemsActivityForChart`
 * (served twice, by the collector's `/item-activity` route and by the
 * dashboard's own query, with the same text) and `queryItemsWithFilters`.
 *
 * Both run the same two steps on the hourly table joined with the catalog:
 * rank the items whose rows pass some conditions by the sum of their update
 * counts, keep the first `limit`, and then fetch each ranked item's rows in
 * a time window, in hour order. They differ only in the conditions.
 */
module Ranking {
  import opened Wrappers
  import opened Clock
  import opened Schema
  import Seqs
  import Series
  import Compaction

  /*
   * Sums of update counts over rows taken in any order
   */

  lemma {:induction false} SumUpdatesAppend(a: seq<HourlyRecord>, b: seq<HourlyRecord>)
    ensures Compaction.SumUpdates(a + b) == Compaction.SumUpdates(a) + Compaction.SumUpdates(b)
    decreases |b|
  {
    if b != [] {
      var init := b[..|b| - 1];
      assert (a + b)[..|a + b| - 1] == a + init;
      assert (a + b)[|a + b| - 1] == b[|b| - 1];
      assert b[..|b| - 1] == init;
      SumUpdatesAppend(a, init);
      assert Compaction.SumUpdates(a + b) == Compaction.SumUpdates(a + init) + b[|b| - 1].row.updateCount;
    } else {
      assert a + b == a;
    }
  }

  /** Rows that are among other rows add up to no more than those. */
  lemma {:induction false} SumUpdatesSub(a: seq<HourlyRecord>, b: seq<HourlyRecord>)
    requires multiset(a) <= multiset(b)
    ensures Compaction.SumUpdates(a) <= Compaction.SumUpdates(b)
    decreases |a|
  {
    if a != [] {
      var init, x := a[..|a| - 1], a[|a| - 1];
      assert a == init + [x];
      assert x in multiset(b);
      var k :| 0 <= k < |b| && b[k] == x;
      var rest := b[..k] + b[k + 1..];
      assert b == b[..k] + [x] + b[k + 1..];
      assert multiset(rest) == multiset(b) - multiset{x};
      SumUpdatesSub(init, rest);
      SumUpdatesAppend(b[..k] + [x], b[k + 1..]);
      SumUpdatesAppend(b[..k], [x]);
      SumUpdatesAppend(b[..k], b[k + 1..]);
    }
  }

  /** The sum does not depend on the order of the rows. */
  lemma {:induction false} SumUpdatesPermutation(a: seq<HourlyRecord>, b: seq<HourlyRecord>)
    requires multiset(a) == multiset(b)
    ensures Compaction.SumUpdates(a) == Compaction.SumUpdates(b)
  {
    SumUpdatesSub(a, b);
    SumUpdatesSub(b, a);
  }

  /*
   * Ranking
   */

  /** One group of the ranking query: an item and `sum(update_count)` over its rows. */
  datatype Candidate = Candidate(itemName: string, total: nat)

  /** The sort key of `ORDER BY total_activity DESC`. */
  function ByTotalDesc(c: Candidate): int {
    0 - c.total as int
  }

  /** `ORDER BY total_activity DESC LIMIT limit` (ties in any order). */
  function TopN(candidates: seq<Candidate>, limit: nat): (r: seq<Candidate>)
    ensures |r| == if limit < |candidates| then limit else |candidates|
    ensures multiset(r) <= multiset(candidates)
  {
    var sorted := Seqs.SortBy(candidates, ByTotalDesc);
    assert sorted == Seqs.Take(sorted, limit) + sorted[|Seqs.Take(sorted, limit)|..];
    Seqs.Take(sorted, limit)
  }

  /**
   * The ranked items come in descending order of their totals, and every
   * candidate that did not make the cut has a total no larger than any that did.
   */
  lemma {:induction false} TopNRanks(candidates: seq<Candidate>, limit: nat)
    ensures var r := TopN(candidates, limit);
      && (forall i, j :: 0 <= i < j < |r| ==> r[i].total >= r[j].total)
      && forall i, j :: 0 <= i < |r| && 0 <= j < |candidates| && candidates[j] !in r ==> candidates[j].total <= r[i].total
  {
    Seqs.TakeSortedIsTop(candidates, ByTotalDesc, limit);
  }

  /** The distinct values of `s`, in order of first occurrence. */
  function Distinct(s: seq<string>): (r: seq<string>)
    ensures forall x :: x in r <==> x in s
    ensures forall i, j :: 0 <= i < j < |r| ==> r[i] != r[j]
    decreases |s|
  {
    if s == [] then []
    else
      var d := Distinct(s[..|s| - 1]);
      assert s == s[..|s| - 1] + [s[|s| - 1]];
      if s[|s| - 1] in d then d else d + [s[|s| - 1]]
  }

  /** The items that have a row among `rows`, each once. */
  function ItemNames(rows: seq<HourlyRecord>): (names: seq<string>)
    ensures forall n :: n in names <==> exists i :: 0 <= i < |rows| && rows[i].key.itemName == n
    ensures forall i, j :: 0 <= i < j < |names| ==> names[i] != names[j]
  {
    var all := Seqs.Map(rows, Series.ItemOf);
    assert forall n :: n in all <==> exists i :: 0 <= i < |rows| && rows[i].key.itemName == n by {
      forall n | n in all ensures exists i :: 0 <= i < |rows| && rows[i].key.itemName == n {
        var i :| 0 <= i < |all| && all[i] == n;
        assert rows[i].key.itemName == n;
      }
    }
    Distinct(all)
  }

  /** The total of item `name`: `sum(update_count)` over its rows among `rows`. */
  function ItemTotal(rows: seq<HourlyRecord>, name: string): nat {
    Compaction.SumUpdates(Series.RowsOf(rows, Series.ItemOf, name))
  }

  /** `GROUP BY item_name` with `sum(update_count)`: one candidate per item of `rows`. */
  function GroupTotals(rows: seq<HourlyRecord>): (r: seq<Candidate>)
    ensures |r| == |ItemNames(rows)|
    ensures forall i :: 0 <= i < |r| ==> r[i] == Candidate(ItemNames(rows)[i], ItemTotal(rows, ItemNames(rows)[i]))
  {
    Seqs.Map(ItemNames(rows), (n: string) => Candidate(n, ItemTotal(rows, n)))
  }

  /*
   * Ranking and charting
   */

  /** The inner join with the catalog, then the WHERE conditions `cond`. */
  function Joined(catalog: Catalog, cond: HourlyRecord -> bool): HourlyRecord -> bool {
    (r: HourlyRecord) => r.key.itemName in catalog && cond(r)
  }

  /** `item_name = name` and the window conditions of the series query. */
  function ItemWindow(name: string, inWindow: HourlyRecord -> bool): HourlyRecord -> bool {
    (r: HourlyRecord) => r.key.itemName == name && inWindow(r)
  }

  /** One entry of an item's `hourlyData`. */
  datatype HourlyPoint = HourlyPoint(timestamp: int, updates: nat, avgs: Averages)

  function ToPoint(r: HourlyRecord): HourlyPoint {
    HourlyPoint(r.key.hour, r.row.updateCount, r.row.avgs)
  }

  /** The catalog details of a ranked item and its total activity. */
  datatype ItemDetails = ItemDetails(
    name: string,
    quality: Option<string>,
    image: string,
    color: Option<string>,
    totalActivity: nat)

  datatype ItemActivity = ItemActivity(itemDetails: ItemDetails, hourlyData: seq<HourlyPoint>)

  /** The rows of the series query for `name`: its rows in the window, in hour order. */
  function SeriesRows(rows: seq<HourlyRecord>, name: string, inWindow: HourlyRecord -> bool): seq<HourlyRecord> {
    Series.Selection(rows, ItemWindow(name, inWindow), Series.HourOf)
  }

  /** Step 2 for one ranked item: its catalog details, its total and its series. */
  function Entry(entry: CatalogEntry, rows: seq<HourlyRecord>, c: Candidate, inWindow: HourlyRecord -> bool): (e: ItemActivity)
    ensures e.itemDetails.name == c.itemName && e.itemDetails.totalActivity == c.total
    ensures e.hourlyData == Seqs.Map(SeriesRows(rows, c.itemName, inWindow), ToPoint)
  {
    ItemActivity(ItemDetails(c.itemName, entry.qualityName, entry.imageUrl, entry.color, c.total),
      Seqs.Map(SeriesRows(rows, c.itemName, inWindow), ToPoint))
  }

  /** Step 2 for each ranked item. */
  function Breakdown(catalog: Catalog, rows: seq<HourlyRecord>, ranked: seq<Candidate>, inWindow: HourlyRecord -> bool): (r: seq<ItemActivity>)
    requires forall c :: c in ranked ==> c.itemName in catalog
    ensures |r| == |ranked|
    ensures forall i :: 0 <= i < |r| ==> r[i] == Entry(catalog[ranked[i].itemName], rows, ranked[i], inWindow)
  {
    if ranked == [] then []
    else [Entry(catalog[ranked[0].itemName], rows, ranked[0], inWindow)] + Breakdown(catalog, rows, ranked[1..], inWindow)
  }

  /** Every item of a group of joined rows is in the catalog. */
  lemma {:induction false} GroupsInCatalog(catalog: Catalog, rows: seq<HourlyRecord>, cond: HourlyRecord -> bool, limit: nat)
    ensures forall c :: c in TopN(GroupTotals(Seqs.Filter(rows, Joined(catalog, cond))), limit) ==> c.itemName in catalog
  {
    var kept := Seqs.Filter(rows, Joined(catalog, cond));
    var groups := GroupTotals(kept);
    forall c | c in TopN(groups, limit) ensures c.itemName in catalog {
      assert c in multiset(groups);
      var i :| 0 <= i < |groups| && groups[i] == c;
      assert c.itemName in ItemNames(kept);
      var j :| 0 <= j < |kept| && kept[j].key.itemName == c.itemName;
      assert Joined(catalog, cond)(kept[j]);
    }
  }

  /**
   * Both steps: rank the items whose joined rows pass `cond`, keep `limit`
   * of them, and chart each over the rows that pass `inWindow`.
   */
  function RankAndChart(catalog: Catalog, rows: seq<HourlyRecord>, cond: HourlyRecord -> bool,
                        inWindow: HourlyRecord -> bool, limit: nat): (r: seq<ItemActivity>)
    ensures |r| <= limit
    ensures forall i :: 0 <= i < |r| ==> r[i].itemDetails.name in catalog
  {
    var ranked := TopN(GroupTotals(Seqs.Filter(rows, Joined(catalog, cond))), limit);
    GroupsInCatalog(catalog, rows, cond, limit);
    assert forall i :: 0 <= i < |ranked| ==> ranked[i].itemName in catalog by {
      forall i | 0 <= i < |ranked| ensures ranked[i].itemName in catalog {
        assert ranked[i] in ranked;
      }
    }
    Breakdown(catalog, rows, ranked, inWindow)
  }

  /** The items in the ranking: those with a row that passes the join and `cond`. */
  function RankedItems(catalog: Catalog, rows: seq<HourlyRecord>, cond: HourlyRecord -> bool): seq<string> {
    ItemNames(Seqs.Filter(rows, Joined(catalog, cond)))
  }

  /** An element that occurs at two positions is counted at least twice. */
  lemma {:induction false} TwiceCounted<T>(s: seq<T>, i: int, j: int)
    requires 0 <= i < j < |s| && s[i] == s[j]
    ensures multiset(s)[s[i]] >= 2
  {
    assert s == s[..i] + [s[i]] + s[i + 1..j] + [s[j]] + s[j + 1..];
  }

  /** Each group occurs once: the groups are keyed by distinct item names. */
  lemma {:induction false} GroupCountOne(kept: seq<HourlyRecord>, k: int)
    requires 0 <= k < |GroupTotals(kept)|
    ensures multiset(GroupTotals(kept))[GroupTotals(kept)[k]] == 1
  {
    var groups := GroupTotals(kept);
    assert groups == groups[..k] + [groups[k]] + groups[k + 1..];
    assert groups[k] !in groups[..k] by {
      forall j | 0 <= j < k ensures groups[..k][j] != groups[k] {
        assert groups[..k][j].itemName == ItemNames(kept)[j];
      }
    }
    assert groups[k] !in groups[k + 1..] by {
      forall j | k < j < |groups| ensures groups[j] != groups[k] {
        assert groups[j].itemName == ItemNames(kept)[j];
      }
    }
  }

  /** A ranked candidate is the group of an item with a qualifying row, with that item's total. */
  lemma {:induction false} RankedIsGroup(kept: seq<HourlyRecord>, limit: nat, i: int)
    requires 0 <= i < |TopN(GroupTotals(kept), limit)|
    ensures var c := TopN(GroupTotals(kept), limit)[i];
      c.itemName in ItemNames(kept) && c.total == ItemTotal(kept, c.itemName)
  {
    var groups := GroupTotals(kept);
    var c := TopN(groups, limit)[i];
    assert c in multiset(groups);
    var k :| 0 <= k < |groups| && groups[k] == c;
  }

  /** No item is ranked twice. */
  lemma {:induction false} RankedDistinct(kept: seq<HourlyRecord>, limit: nat, i: int, j: int)
    requires 0 <= i < j < |TopN(GroupTotals(kept), limit)|
    ensures TopN(GroupTotals(kept), limit)[i].itemName != TopN(GroupTotals(kept), limit)[j].itemName
  {
    var groups := GroupTotals(kept);
    var ranked := TopN(groups, limit);
    RankedIsGroup(kept, limit, i);
    RankedIsGroup(kept, limit, j);
    if ranked[i].itemName == ranked[j].itemName {
      TwiceCounted(ranked, i, j);
      assert ranked[i] in multiset(groups);
      var k :| 0 <= k < |groups| && groups[k] == ranked[i];
      GroupCountOne(kept, k);
      assert false;
    }
  }

  /** An item with a qualifying row that was not ranked has a total no larger than any ranked one. */
  lemma {:induction false} LeftOutRanksLower(kept: seq<HourlyRecord>, limit: nat, i: int, n: string)
    requires 0 <= i < |TopN(GroupTotals(kept), limit)|
    requires n in ItemNames(kept)
    requires forall j :: 0 <= j < |TopN(GroupTotals(kept), limit)| ==> TopN(GroupTotals(kept), limit)[j].itemName != n
    ensures ItemTotal(kept, n) <= TopN(GroupTotals(kept), limit)[i].total
  {
    var groups := GroupTotals(kept);
    var ranked := TopN(groups, limit);
    TopNRanks(groups, limit);
    var k :| 0 <= k < |ItemNames(kept)| && ItemNames(kept)[k] == n;
    assert groups[k].itemName == n;
    assert groups[k] !in ranked;
  }

  /** The facts about one entry that the chart lemmas build on. */
  lemma {:induction false} EntryOfRanking(catalog: Catalog, rows: seq<HourlyRecord>, cond: HourlyRecord -> bool,
                       inWindow: HourlyRecord -> bool, limit: nat, i: int)
    requires 0 <= i < |RankAndChart(catalog, rows, cond, inWindow, limit)|
    ensures var e := RankAndChart(catalog, rows, cond, inWindow, limit)[i];
      var kept := Seqs.Filter(rows, Joined(catalog, cond));
      && e.itemDetails.name in ItemNames(kept)
      && e.itemDetails.totalActivity == ItemTotal(kept, e.itemDetails.name)
      && e.hourlyData == Seqs.Map(SeriesRows(rows, e.itemDetails.name, inWindow), ToPoint)
  {
    RankedIsGroup(Seqs.Filter(rows, Joined(catalog, cond)), limit, i);
  }

  /** The name and total of each chart entry. */
  function Candidates(r: seq<ItemActivity>): (c: seq<Candidate>)
    ensures |c| == |r|
    ensures forall i :: 0 <= i < |r| ==> c[i] == Candidate(r[i].itemDetails.name, r[i].itemDetails.totalActivity)
  {
    if r == [] then [] else [Candidate(r[0].itemDetails.name, r[0].itemDetails.totalActivity)] + Candidates(r[1..])
  }

  /**
   * `r` ranks the items of `kept`: at most `limit` entries, fewer only when
   * fewer items qualify; each entry a different qualifying item with its total
   * over its qualifying rows; entries in descending order of that total; and
   * no qualifying item left out with a total above one kept.
   */
  ghost predicate TopRanking(r: seq<Candidate>, kept: seq<HourlyRecord>, limit: nat) {
    var items := ItemNames(kept);
    && |r| == (if limit < |items| then limit else |items|)
    && (forall i :: 0 <= i < |r| ==> r[i].itemName in items && r[i].total == ItemTotal(kept, r[i].itemName))
    && (forall i, j :: 0 <= i < j < |r| ==> r[i].itemName != r[j].itemName)
    && (forall i, j :: 0 <= i < j < |r| ==> r[i].total >= r[j].total)
    && forall i, n :: 0 <= i < |r| && n in items && (forall j :: 0 <= j < |r| ==> r[j].itemName != n) ==>
         ItemTotal(kept, n) <= r[i].total
  }

  /** The chart lists the ranked candidates in their order, with their totals. */
  lemma {:induction false} ChartIsRanking(catalog: Catalog, rows: seq<HourlyRecord>, cond: HourlyRecord -> bool,
                       inWindow: HourlyRecord -> bool, limit: nat)
    ensures Candidates(RankAndChart(catalog, rows, cond, inWindow, limit))
      == TopN(GroupTotals(Seqs.Filter(rows, Joined(catalog, cond))), limit)
  {
    GroupsInCatalog(catalog, rows, cond, limit);
  }

  /** The chart ranks the items that pass the join and `cond` by their total activity. */
  lemma {:induction false} RankAndChartRanks(catalog: Catalog, rows: seq<HourlyRecord>, cond: HourlyRecord -> bool,
                          inWindow: HourlyRecord -> bool, limit: nat)
    ensures TopRanking(Candidates(RankAndChart(catalog, rows, cond, inWindow, limit)), Seqs.Filter(rows, Joined(catalog, cond)), limit)
  {
    ChartIsRanking(catalog, rows, cond, inWindow, limit);
    RankingFacts(Seqs.Filter(rows, Joined(catalog, cond)), limit);
  }

  /** The ranked candidates rank the items of `kept`. */
  lemma {:induction false} RankingFacts(kept: seq<HourlyRecord>, limit: nat)
    ensures TopRanking(TopN(GroupTotals(kept), limit), kept, limit)
  {
    var ranked := TopN(GroupTotals(kept), limit);
    TopNRanks(GroupTotals(kept), limit);
    forall i | 0 <= i < |ranked| ensures ranked[i].itemName in ItemNames(kept) && ranked[i].total == ItemTotal(kept, ranked[i].itemName) {
      RankedIsGroup(kept, limit, i);
    }
    forall i, j | 0 <= i < j < |ranked| ensures ranked[i].itemName != ranked[j].itemName {
      RankedDistinct(kept, limit, i, j);
    }
    forall i, n | 0 <= i < |ranked| && n in ItemNames(kept) && (forall j :: 0 <= j < |ranked| ==> ranked[j].itemName != n)
      ensures ItemTotal(kept, n) <= ranked[i].total
    {
      LeftOutRanksLower(kept, limit, i, n);
    }
  }

  /**
   * Each ranked item's series holds exactly its rows in the window, one entry
   * per row, in ascending hour order.
   */
  lemma {:induction false} RankAndChartSeries(catalog: Catalog, rows: seq<HourlyRecord>, cond: HourlyRecord -> bool,
                           inWindow: HourlyRecord -> bool, limit: nat, i: int)
    requires 0 <= i < |RankAndChart(catalog, rows, cond, inWindow, limit)|
    ensures var e := RankAndChart(catalog, rows, cond, inWindow, limit)[i];
      var s := SeriesRows(rows, e.itemDetails.name, inWindow);
      && e.hourlyData == Seqs.Map(s, ToPoint)
      && (forall a, b :: 0 <= a < b < |s| ==> s[a].key.hour <= s[b].key.hour)
      && forall x :: multiset(s)[x] == if x.key.itemName == e.itemDetails.name && inWindow(x) then multiset(rows)[x] else 0
  {
    EntryOfRanking(catalog, rows, cond, inWindow, limit, i);
    SeriesRowsFacts(rows, RankAndChart(catalog, rows, cond, inWindow, limit)[i].itemDetails.name, inWindow);
  }

  /** The series rows of any item: in hour order, each of its rows in the window exactly as often as in the table. */
  lemma {:induction false} SeriesRowsFacts(rows: seq<HourlyRecord>, n: string, inWindow: HourlyRecord -> bool)
    ensures var s := SeriesRows(rows, n, inWindow);
      && (forall a, b :: 0 <= a < b < |s| ==> s[a].key.hour <= s[b].key.hour)
      && forall x :: multiset(s)[x] == if x.key.itemName == n && inWindow(x) then multiset(rows)[x] else 0
  {
    var s := SeriesRows(rows, n, inWindow);
    assert Seqs.SortedBy(s, Series.HourOf);
    forall x: HourlyRecord ensures multiset(s)[x] == if x.key.itemName == n && inWindow(x) then multiset(rows)[x] else 0 {
      Series.SelectionCount(rows, ItemWindow(n, inWindow), Series.HourOf, x);
    }
  }

  /**
   * When the ranking conditions imply the window, a ranked item's total
   * activity is at most the updates of its series; when they are the window
   * itself, equal to them.
   */
  lemma {:induction false} RankAndChartTotals(catalog: Catalog, rows: seq<HourlyRecord>, cond: HourlyRecord -> bool,
                           inWindow: HourlyRecord -> bool, limit: nat, i: int)
    requires 0 <= i < |RankAndChart(catalog, rows, cond, inWindow, limit)|
    requires forall x :: cond(x) ==> inWindow(x)
    ensures var e := RankAndChart(catalog, rows, cond, inWindow, limit)[i];
      var s := SeriesRows(rows, e.itemDetails.name, inWindow);
      && e.itemDetails.totalActivity <= Compaction.SumUpdates(s)
      && ((forall x :: inWindow(x) ==> cond(x)) ==> e.itemDetails.totalActivity == Compaction.SumUpdates(s))
  {
    var kept := Seqs.Filter(rows, Joined(catalog, cond));
    var n := RankAndChart(catalog, rows, cond, inWindow, limit)[i].itemDetails.name;
    var s := SeriesRows(rows, n, inWindow);
    var mine := Series.RowsOf(kept, Series.ItemOf, n);
    EntryOfRanking(catalog, rows, cond, inWindow, limit, i);
    assert n in catalog by {
      var k :| 0 <= k < |kept| && kept[k].key.itemName == n;
      assert Joined(catalog, cond)(kept[k]);
    }
    forall x: HourlyRecord ensures multiset(mine)[x] <= multiset(s)[x] {
      Series.RowsOfCount(kept, Series.ItemOf, n, x);
      Seqs.FilterCount(rows, Joined(catalog, cond), x);
      Series.SelectionCount(rows, ItemWindow(n, inWindow), Series.HourOf, x);
    }
    SumUpdatesSub(mine, s);
    if forall y :: inWindow(y) ==> cond(y) {
      forall x: HourlyRecord ensures multiset(mine)[x] == multiset(s)[x] {
        Series.RowsOfCount(kept, Series.ItemOf, n, x);
        Seqs.FilterCount(rows, Joined(catalog, cond), x);
        Series.SelectionCount(rows, ItemWindow(n, inWindow), Series.HourOf, x);
      }
      assert multiset(mine) == multiset(s);
      SumUpdatesPermutation(mine, s);
    }
  }

  /*
   * getTopItemsActivityForChart
   */

  /** `startTime.setHours(startTime.getHours() - hoursToShow)`, with hours of 60 minutes. */
  function StartTime(now: int, hoursToShow: int): int {
    now - hoursToShow * HOUR_MS
  }

  /** `hour_timestamp >= startTime`, with no upper bound. */
  function Since(startTime: int): HourlyRecord -> bool {
    (r: HourlyRecord) => r.key.hour >= startTime
  }

  /**
   * The most active items of the last `hoursToShow` hours by summed update
   * count (deletes do not count), and each one's hourly rows since then.
   */
  function TopItemsActivityForChart(catalog: Catalog, rows: seq<HourlyRecord>, topItemsCount: nat, hoursToShow: int, now: int): (r: seq<ItemActivity>)
    ensures |r| <= topItemsCount
    ensures forall i :: 0 <= i < |r| ==> r[i].itemDetails.name in catalog
  {
    RankAndChart(catalog, rows, Since(StartTime(now, hoursToShow)), Since(StartTime(now, hoursToShow)), topItemsCount)
  }

  /**
   * Each entry's total activity is exactly the sum of the update counts of the
   * series shown for it, and that series is its rows since the start time.
   */
  lemma {:induction false} ActivityTotalMatchesSeries(catalog: Catalog, rows: seq<HourlyRecord>, topItemsCount: nat, hoursToShow: int, now: int, i: int)
    requires 0 <= i < |TopItemsActivityForChart(catalog, rows, topItemsCount, hoursToShow, now)|
    ensures var e := TopItemsActivityForChart(catalog, rows, topItemsCount, hoursToShow, now)[i];
      var s := SeriesRows(rows, e.itemDetails.name, Since(StartTime(now, hoursToShow)));
      && e.itemDetails.totalActivity == Compaction.SumUpdates(s)
      && forall x :: multiset(s)[x] == if x.key.itemName == e.itemDetails.name && x.key.hour >= StartTime(now, hoursToShow) then multiset(rows)[x] else 0
  {
    var since := Since(StartTime(now, hoursToShow));
    RankAndChartSeries(catalog, rows, since, since, topItemsCount, i);
    RankAndChartTotals(catalog, rows, since, since, topItemsCount, i);
  }

  /*
   * Query-parameter validation of the item-activity route
   */

  /** A number as `Number()` yields it: a finite value or NaN. */
  datatype Num = Finite(value: real) | NaN

  /** A query parameter: absent, or its text and the number `Number(text)` gives for it. */
  datatype Param = Missing | Given(text: string, number: Num)

  /** `Number(c.req.query(name) || default)`: an absent or empty parameter takes the default. */
  function ParamNumber(p: Param, default: real): (r: Num)
    ensures (p.Missing? || p.text == "") ==> r == Finite(default)
    ensures p.Given? && p.text != "" ==> r == p.number
  {
    match p
    case Missing => Finite(default)
    case Given(text, number) => if text == "" then Finite(default) else number
  }

  /** `isNaN(x) || x < lo || x > hi` negated. */
  predicate InRange(x: Num, lo: real, hi: real) {
    x.Finite? && lo <= x.value <= hi
  }

  datatype Validated = Valid(topItemsCount: real, hoursToShow: real) | BadRequest(error: string)

  const TOP_ITEMS_ERROR := "topItems must be a number between 1 and 50"
  const HOURS_ERROR := "hours must be a number between 1 and 168"

  /** The checks before the query: `topItems` first, then `hours`. */
  function ValidateParams(topItems: Param, hours: Param): (r: Validated)
    ensures r.Valid? <==> InRange(ParamNumber(topItems, 10.0), 1.0, 50.0) && InRange(ParamNumber(hours, 24.0), 1.0, 168.0)
    ensures r.Valid? ==> Finite(r.topItemsCount) == ParamNumber(topItems, 10.0) && Finite(r.hoursToShow) == ParamNumber(hours, 24.0)
    ensures r == BadRequest(TOP_ITEMS_ERROR) <==> !InRange(ParamNumber(topItems, 10.0), 1.0, 50.0)
    ensures r == BadRequest(HOURS_ERROR) <==> InRange(ParamNumber(topItems, 10.0), 1.0, 50.0) && !InRange(ParamNumber(hours, 24.0), 1.0, 168.0)
  {
    var topItemsCount := ParamNumber(topItems, 10.0);
    var hoursToShow := ParamNumber(hours, 24.0);
    if !InRange(topItemsCount, 1.0, 50.0) then BadRequest(TOP_ITEMS_ERROR)
    else if !InRange(hoursToShow, 1.0, 168.0) then BadRequest(HOURS_ERROR)
    else Valid(topItemsCount.value, hoursToShow.value)
  }

  /** Both parameters absent: 10 items over 24 hours. */
  lemma {:induction false} DefaultParams()
    ensures ValidateParams(Missing, Missing) == Valid(10.0, 24.0)
    ensures ValidateParams(Given("", NaN), Given("", NaN)) == Valid(10.0, 24.0)
  {
  }

  /** A bad `topItems` is reported whatever `hours` holds. */
  lemma {:induction false} TopItemsCheckedFirst(topItems: Param, hours: Param)
    requires !InRange(ParamNumber(topItems, 10.0), 1.0, 50.0)
    ensures ValidateParams(topItems, hours) == BadRequest(TOP_ITEMS_ERROR)
  {
  }

  datatype Response = Success(topItemsCount: real, hoursToShow: real, items: seq<ItemActivity>) | Error(status: nat, error: string)

  /**
   * The `/item-activity` route: 400 with the first failing check's message,
   * otherwise the chart data for the parsed parameters. A fractional hour
   * count is rounded down here; the source's `setHours` can land one hour
   * further back. The row limit is the item count rounded down.
   */
  function ItemActivityRoute(catalog: Catalog, rows: seq<HourlyRecord>, topItems: Param, hours: Param, now: int): (r: Response)
    ensures r.Error? <==> ValidateParams(topItems, hours).BadRequest?
    ensures r.Error? ==> r.status == 400 && r.error == ValidateParams(topItems, hours).error
    ensures r.Success? ==> 1.0 <= r.topItemsCount <= 50.0 && 1.0 <= r.hoursToShow <= 168.0
    ensures r.Success? ==> |r.items| <= r.topItemsCount.Floor
    ensures r.Success? ==> Finite(r.topItemsCount) == ParamNumber(topItems, 10.0) && Finite(r.hoursToShow) == ParamNumber(hours, 24.0)
    ensures r.Success? ==> r.items == TopItemsActivityForChart(catalog, rows, r.topItemsCount.Floor, r.hoursToShow.Floor, now)
  {
    match ValidateParams(topItems, hours)
    case BadRequest(error) => Error(400, error)
    case Valid(topItemsCount, hoursToShow) =>
      var items := TopItemsActivityForChart(catalog, rows, topItemsCount.Floor, hoursToShow.Floor, now);
      Success(topItemsCount, hoursToShow, items)
  }

  /*
   * queryItemsWithFilters
   */

  datatype FilterOptions = FilterOptions(
    timeRangeHours: Option<int>,
    minPrice: Option<real>,
    maxPrice: Option<real>,
    qualityName: Option<string>,
    limit: Option<int>)

  /** `x || default`: an absent or zero option takes the default. */
  function OrDefault(x: Option<int>, default: int): (r: int)
    ensures (x.None? || x.value == 0) ==> r == default
    ensures x.Some? && x.value != 0 ==> r == x.value
  {
    if x.None? || x.value == 0 then default else x.value
  }

  /** The first hour of the window: `timeRangeHours` hours ago, truncated to the hour. */
  function WindowStart(now: int, timeRangeHours: int): int {
    TruncateToHour(now - timeRangeHours * HOUR_MS)
  }

  /** The last hour of the window: the hour before the current one. */
  function WindowEnd(now: int): int {
    TruncateToHour(now - HOUR_MS)
  }

  /** `hour_timestamp >= startTime AND hour_timestamp <= endTime`. */
  function InWindow(startTime: int, endTime: int): HourlyRecord -> bool {
    (r: HourlyRecord) => startTime <= r.key.hour <= endTime
  }

  /** `avg_price_value > minPrice`: a null average fails. */
  predicate AboveMin(r: HourlyRecord, minPrice: Option<real>) {
    minPrice.Some? ==> r.row.avgs.avgPriceValue.Some? && r.row.avgs.avgPriceValue.value > minPrice.value
  }

  /** `avg_price_value < maxPrice`: a null average fails. */
  predicate BelowMax(r: HourlyRecord, maxPrice: Option<real>) {
    maxPrice.Some? ==> r.row.avgs.avgPriceValue.Some? && r.row.avgs.avgPriceValue.value < maxPrice.value
  }

  /** `if (options.qualityName)`: the condition is added only for a non-empty name. */
  predicate HasQuality(catalog: Catalog, r: HourlyRecord, qualityName: Option<string>) {
    qualityName.Some? && qualityName.value != "" ==>
      r.key.itemName in catalog && catalog[r.key.itemName].qualityName == Some(qualityName.value)
  }

  /** All the conditions of the ranking query. */
  function FilterConditions(catalog: Catalog, options: FilterOptions, startTime: int, endTime: int): HourlyRecord -> bool {
    (r: HourlyRecord) => InWindow(startTime, endTime)(r) && AboveMin(r, options.minPrice)
      && BelowMax(r, options.maxPrice) && HasQuality(catalog, r, options.qualityName)
  }

  /** No price or quality condition is added. */
  predicate Unfiltered(options: FilterOptions) {
    options.minPrice.None? && options.maxPrice.None? && (options.qualityName.None? || options.qualityName.value == "")
  }

  /**
   * The items ranked by their updates over the hourly rows that pass every
   * filter, each charted over all its rows in the window whatever their
   * price or quality.
   */
  function QueryItemsWithFilters(catalog: Catalog, rows: seq<HourlyRecord>, options: FilterOptions, now: int): (r: seq<ItemActivity>)
    ensures options.limit.None? || options.limit.value == 0 ==> |r| <= 10
    ensures options.limit.Some? && options.limit.value != 0 ==> |r| <= if options.limit.value < 0 then 0 else options.limit.value
    ensures forall i :: 0 <= i < |r| ==> r[i].itemDetails.name in catalog
  {
    var limit := OrDefault(options.limit, 10);
    var timeRangeHours := OrDefault(options.timeRangeHours, 24);
    var startTime := WindowStart(now, timeRangeHours);
    var endTime := WindowEnd(now);
    RankAndChart(catalog, rows, FilterConditions(catalog, options, startTime, endTime), InWindow(startTime, endTime),
      if limit < 0 then 0 else limit)
  }

  /** The window ends before the current hour begins: the hour in progress is never shown. */
  lemma {:induction false} WindowExcludesCurrentHour(now: int, timeRangeHours: int, r: HourlyRecord)
    requires r.key.hour >= TruncateToHour(now)
    ensures !InWindow(WindowStart(now, timeRangeHours), WindowEnd(now))(r)
  {
    assert TruncateToHour(now - HOUR_MS) == TruncateToHour(now) - HOUR_MS by {
      assert now - HOUR_MS == (now / HOUR_MS - 1) * HOUR_MS + now % HOUR_MS;
    }
  }

  /** Every complete hour from the window start through the previous hour is shown. */
  lemma {:induction false} WindowCoversPastHours(now: int, timeRangeHours: int, r: HourlyRecord)
    requires r.key.hour % HOUR_MS == 0
    requires WindowStart(now, timeRangeHours) <= r.key.hour < TruncateToHour(now)
    ensures InWindow(WindowStart(now, timeRangeHours), WindowEnd(now))(r)
  {
    assert TruncateToHour(now - HOUR_MS) == TruncateToHour(now) - HOUR_MS by {
      assert now - HOUR_MS == (now / HOUR_MS - 1) * HOUR_MS + now % HOUR_MS;
    }
  }

  /**
   * Each filtered item's total counts only the rows that pass the filters, so
   * it is at most the updates of the series shown for it; without price and
   * quality filters the two agree.
   */
  lemma {:induction false} FilteredTotalWithinSeries(catalog: Catalog, rows: seq<HourlyRecord>, options: FilterOptions, now: int, i: int)
    requires 0 <= i < |QueryItemsWithFilters(catalog, rows, options, now)|
    ensures var e := QueryItemsWithFilters(catalog, rows, options, now)[i];
      var startTime := WindowStart(now, OrDefault(options.timeRangeHours, 24));
      var s := SeriesRows(rows, e.itemDetails.name, InWindow(startTime, WindowEnd(now)));
      && e.itemDetails.totalActivity <= Compaction.SumUpdates(s)
      && (Unfiltered(options) ==> e.itemDetails.totalActivity == Compaction.SumUpdates(s))
  {
    var limit := OrDefault(options.limit, 10);
    var startTime := WindowStart(now, OrDefault(options.timeRangeHours, 24));
    var endTime := WindowEnd(now);
    FiltersStayInWindow(catalog, options, startTime, endTime);
    if Unfiltered(options) {
      UnfilteredIsWindow(catalog, options, startTime, endTime);
    }
    RankAndChartTotals(catalog, rows, FilterConditions(catalog, options, startTime, endTime), InWindow(startTime, endTime),
      if limit < 0 then 0 else limit, i);
  }

  lemma {:induction false} FiltersStayInWindow(catalog: Catalog, options: FilterOptions, startTime: int, endTime: int)
    ensures forall x :: FilterConditions(catalog, options, startTime, endTime)(x) ==> InWindow(startTime, endTime)(x)
  {
  }

  lemma {:induction false} UnfilteredIsWindow(catalog: Catalog, options: FilterOptions, startTime: int, endTime: int)
    requires Unfiltered(options)
    ensures forall x :: InWindow(startTime, endTime)(x) ==> FilterConditions(catalog, options, startTime, endTime)(x)
  {
  }

  /** Dropping the filters can only let more rows into the ranking. */
  lemma {:induction false} FiltersOnlyNarrow(catalog: Catalog, options: FilterOptions, startTime: int, endTime: int, r: HourlyRecord)
    requires FilterConditions(catalog, options, startTime, endTime)(r)
    ensures FilterConditions(catalog, FilterOptions(options.timeRangeHours, None, None, None, options.limit), startTime, endTime)(r)
  {
    assert InWindow(startTime, endTime)(r);
  }
}
