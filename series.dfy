/**
 * The per-item series the collector reads back from its own tables:
 * `getItemsHourlyData` (the total activity of each hour in a recent window)
 * and the shaping of `getTopBptfItemsWithDailyTrend` (the daily rows of the
 * top items since a cut-off).
 *
 * Both run an ordered query and then group its rows by item with the same
 * loop: create the item's array on its first row, push onto it. The query
 * orders by (item, time); only the order within one item reaches the result,
 * and that is time order, so the model sorts the selected rows by time alone.
 */
module Series {
  import opened Wrappers
  import opened Schema
  import Seqs

  /** The item names that occur in `rows`. */
  function Names<T>(rows: seq<T>, nameOf: T -> string): set<string> {
    set i | 0 <= i < |rows| :: nameOf(rows[i])
  }

  /** The rows of item `name`, in row order. */
  function RowsOf<T>(rows: seq<T>, nameOf: T -> string, name: string): seq<T>
    decreases |rows|
  {
    if rows == [] then []
    else RowsOf(rows[..|rows| - 1], nameOf, name) + (if nameOf(rows[|rows| - 1]) == name then [rows[|rows| - 1]] else [])
  }

  /** The values of the rows of item `name`, in row order. */
  function ValuesOf<T, V>(rows: seq<T>, nameOf: T -> string, valueOf: T -> V, name: string): seq<V> {
    Seqs.Map(RowsOf(rows, nameOf, name), valueOf)
  }

  /** An item's rows are all of its rows and nothing else, each as often as in `rows`. */
  lemma {:induction false} RowsOfCount<T>(rows: seq<T>, nameOf: T -> string, name: string, x: T)
    ensures multiset(RowsOf(rows, nameOf, name))[x] == if nameOf(x) == name then multiset(rows)[x] else 0
    decreases |rows|
  {
    if rows != [] {
      RowsOfCount(rows[..|rows| - 1], nameOf, name, x);
      assert rows == rows[..|rows| - 1] + [rows[|rows| - 1]];
    }
  }

  /** An item's rows keep the order of `rows`. */
  lemma {:induction false} RowsOfSorted<T>(rows: seq<T>, nameOf: T -> string, name: string, key: T -> int)
    requires Seqs.SortedBy(rows, key)
    ensures Seqs.SortedBy(RowsOf(rows, nameOf, name), key)
    decreases |rows|
  {
    if rows != [] {
      var init, last := rows[..|rows| - 1], rows[|rows| - 1];
      RowsOfSorted(init, nameOf, name, key);
      forall y | y in RowsOf(init, nameOf, name) ensures key(y) <= key(last) {
        RowsOfCount(init, nameOf, name, y);
        var j :| 0 <= j < |init| && init[j] == y;
        assert rows[j] == y;
      }
    }
  }

  /** One more row adds its item to the names. */
  lemma {:induction false} NamesSnoc<T>(rows: seq<T>, x: T, nameOf: T -> string)
    ensures Names(rows + [x], nameOf) == Names(rows, nameOf) + {nameOf(x)}
  {
    var s := rows + [x];
    forall n | n in Names(s, nameOf) ensures n in Names(rows, nameOf) + {nameOf(x)} {
      var j :| 0 <= j < |s| && nameOf(s[j]) == n;
      if j < |rows| { assert s[j] == rows[j]; }
    }
    forall n | n in Names(rows, nameOf) ensures n in Names(s, nameOf) {
      var j :| 0 <= j < |rows| && nameOf(rows[j]) == n;
      assert s[j] == rows[j];
    }
    assert s[|rows|] == x;
  }

  /** One more row appends its value to its own item's values and to no other's. */
  lemma {:induction false} ValuesOfSnoc<T, V>(rows: seq<T>, x: T, nameOf: T -> string, valueOf: T -> V, name: string)
    ensures ValuesOf(rows + [x], nameOf, valueOf, name) ==
      ValuesOf(rows, nameOf, valueOf, name) + (if nameOf(x) == name then [valueOf(x)] else [])
  {
    assert (rows + [x])[..|rows + [x]| - 1] == rows;
  }

  /** An item without a row has no values. */
  lemma {:induction false} ValuesOfAbsent<T, V>(rows: seq<T>, nameOf: T -> string, valueOf: T -> V, name: string)
    requires name !in Names(rows, nameOf)
    ensures ValuesOf(rows, nameOf, valueOf, name) == []
  {
    if RowsOf(rows, nameOf, name) != [] {
      var y := RowsOf(rows, nameOf, name)[0];
      RowsOfCount(rows, nameOf, name, y);
    }
  }

  /**
   * `for (const stat of rows) { if (!result[name]) result[name] = []; result[name].push(value) }`:
   * one entry per item that has a row, holding that item's values in row order.
   */
  method GroupByName<T, V>(rows: seq<T>, nameOf: T -> string, valueOf: T -> V) returns (result: map<string, seq<V>>)
    ensures result.Keys == Names(rows, nameOf)
    ensures forall n :: n in result ==> result[n] == ValuesOf(rows, nameOf, valueOf, n)
  {
    result := map[];
    for i := 0 to |rows|
      invariant result.Keys == Names(rows[..i], nameOf)
      invariant forall n :: n in result ==> result[n] == ValuesOf(rows[..i], nameOf, valueOf, n)
    {
      var name := nameOf(rows[i]);
      assert rows[..i + 1] == rows[..i] + [rows[i]];
      NamesSnoc(rows[..i], rows[i], nameOf);
      if name !in result {
        ValuesOfAbsent(rows[..i], nameOf, valueOf, name);
        result := result[name := []];
      }
      result := result[name := result[name] + [valueOf(rows[i])]];
      forall n | n in result ensures result[n] == ValuesOf(rows[..i + 1], nameOf, valueOf, n) {
        ValuesOfSnoc(rows[..i], rows[i], nameOf, valueOf, n);
      }
    }
    assert rows[..|rows|] == rows;
  }

  /** A query's result: the rows that `keep` selects, ordered by `key`. */
  function Selection<T>(rows: seq<T>, keep: T -> bool, key: T -> int): (r: seq<T>)
    ensures Seqs.SortedBy(r, key)
  {
    Seqs.SortBy(Seqs.Filter(rows, keep), key)
  }

  /** A query returns every selected row as often as the table holds it, and no other. */
  lemma {:induction false} SelectionCount<T>(rows: seq<T>, keep: T -> bool, key: T -> int, x: T)
    ensures multiset(Selection(rows, keep, key))[x] == if keep(x) then multiset(rows)[x] else 0
  {
    Seqs.FilterCount(rows, keep, x);
  }

  /** The items in a query's result are those with a selected row. */
  lemma {:induction false} SelectionNames<T>(rows: seq<T>, keep: T -> bool, key: T -> int, nameOf: T -> string, n: string)
    ensures n in Names(Selection(rows, keep, key), nameOf) <==>
      exists i :: 0 <= i < |rows| && keep(rows[i]) && nameOf(rows[i]) == n
  {
    var sel := Selection(rows, keep, key);
    if n in Names(sel, nameOf) {
      var j :| 0 <= j < |sel| && nameOf(sel[j]) == n;
      SelectionCount(rows, keep, key, sel[j]);
      assert sel[j] in multiset(rows);
      var i :| 0 <= i < |rows| && rows[i] == sel[j];
    }
    if exists i :: 0 <= i < |rows| && keep(rows[i]) && nameOf(rows[i]) == n {
      var i :| 0 <= i < |rows| && keep(rows[i]) && nameOf(rows[i]) == n;
      SelectionCount(rows, keep, key, rows[i]);
      assert rows[i] in multiset(sel);
      var j :| 0 <= j < |sel| && sel[j] == rows[i];
    }
  }

  /**
   * One item's part of a query's result is ordered by `key` and holds each
   * selected row of that item as often as the table does, and no other row.
   */
  lemma {:induction false} ItemPartOfSelection<T>(rows: seq<T>, keep: T -> bool, key: T -> int, nameOf: T -> string, n: string)
    ensures var mine := RowsOf(Selection(rows, keep, key), nameOf, n);
      && Seqs.SortedBy(mine, key)
      && forall x :: multiset(mine)[x] == if keep(x) && nameOf(x) == n then multiset(rows)[x] else 0
  {
    var sel := Selection(rows, keep, key);
    RowsOfSorted(sel, nameOf, n, key);
    forall x ensures multiset(RowsOf(sel, nameOf, n))[x] == if keep(x) && nameOf(x) == n then multiset(rows)[x] else 0 {
      RowsOfCount(sel, nameOf, n, x);
      SelectionCount(rows, keep, key, x);
    }
  }

  /*
   * getItemsHourlyData
   */

  function ItemOf(r: HourlyRecord): string {
    r.key.itemName
  }

  function HourOf(r: HourlyRecord): int {
    r.key.hour
  }

  /** `between(hour_timestamp, timeAgo, now)`, both ends included. */
  predicate InHourWindow(r: HourlyRecord, timeAgo: int, now: int) {
    timeAgo <= r.key.hour <= now
  }

  /** `WHERE item_name = ANY(itemNames) AND hour_timestamp BETWEEN timeAgo AND now`. */
  function HourlyFilter(itemNames: seq<string>, timeAgo: int, now: int): HourlyRecord -> bool {
    (r: HourlyRecord) => r.key.itemName in itemNames && InHourWindow(r, timeAgo, now)
  }

  /** The selected rows: the listed items' rows in the window, in hour order. */
  function HourlySelection(rows: seq<HourlyRecord>, itemNames: seq<string>, timeAgo: int, now: int): seq<HourlyRecord> {
    Selection(rows, HourlyFilter(itemNames, timeAgo, now), HourOf)
  }

  /** `updateCount + deleteCount`: the activity of one hour. */
  function TotalCount(r: HourlyRecord): nat {
    r.row.updateCount + r.row.deleteCount
  }

  /** The start of a window of `timeFrameInMinutes` minutes that ends at `now`. */
  function MinutesAgo(now: int, timeFrameInMinutes: int): int {
    now - timeFrameInMinutes * 60_000
  }

  /**
   * `getItemsHourlyData(itemNames, timeFrameInMinutes)` on a scan `rows` of the
   * hourly table at time `now`: an entry for exactly the listed items that have
   * a row in the last `timeFrameInMinutes` minutes, holding the total activity
   * of that item's selected hours in hour order.
   */
  method ItemsHourlyData(rows: seq<HourlyRecord>, itemNames: seq<string>, timeFrameInMinutes: int, now: int)
    returns (result: map<string, seq<nat>>)
    ensures itemNames == [] ==> result == map[]
    ensures forall n :: n in result <==>
      n in itemNames && exists i :: 0 <= i < |rows| && rows[i].key.itemName == n && InHourWindow(rows[i], MinutesAgo(now, timeFrameInMinutes), now)
    ensures forall n :: n in result ==>
      result[n] == ValuesOf(HourlySelection(rows, itemNames, MinutesAgo(now, timeFrameInMinutes), now), ItemOf, TotalCount, n)
  {
    var timeAgo := MinutesAgo(now, timeFrameInMinutes);
    if |itemNames| == 0 {
      return map[];
    }
    var hourlyStats := HourlySelection(rows, itemNames, timeAgo, now);
    result := GroupByName(hourlyStats, ItemOf, TotalCount);
    forall n ensures n in result <==>
      n in itemNames && exists i :: 0 <= i < |rows| && rows[i].key.itemName == n && InHourWindow(rows[i], timeAgo, now)
    {
      SelectionNames(rows, HourlyFilter(itemNames, timeAgo, now), HourOf, ItemOf, n);
    }
  }

  /**
   * Each item's series is the activity of exactly that item's rows in the
   * window, one entry per row, in ascending hour order.
   */
  lemma {:induction false} HourlySeriesInOrder(rows: seq<HourlyRecord>, itemNames: seq<string>, timeAgo: int, now: int, n: string)
    requires n in itemNames
    ensures var mine := RowsOf(HourlySelection(rows, itemNames, timeAgo, now), ItemOf, n);
      && ValuesOf(HourlySelection(rows, itemNames, timeAgo, now), ItemOf, TotalCount, n) == Seqs.Map(mine, TotalCount)
      && (forall i, j :: 0 <= i < j < |mine| ==> mine[i].key.hour <= mine[j].key.hour)
      && forall x :: multiset(mine)[x] == if x.key.itemName == n && InHourWindow(x, timeAgo, now) then multiset(rows)[x] else 0
  {
    ItemPartOfSelection(rows, HourlyFilter(itemNames, timeAgo, now), HourOf, ItemOf, n);
  }

  /*
   * getTopBptfItemsWithDailyTrend
   */

  /** One row of a scan of the daily table, key included. */
  datatype DailyRecord = DailyRecord(key: DayKey, row: DailyRow)

  function DailyItemOf(r: DailyRecord): string {
    r.key.itemName
  }

  function DayOf(r: DailyRecord): int {
    r.key.day
  }

  /** One entry of an item's daily trend. */
  datatype TrendPoint = TrendPoint(
    day: int,
    updateCount: nat,
    deleteCount: nat,
    totalCount: nat,
    avgPriceValue: Option<real>,
    avgPriceUsd: Option<real>)

  /**
   * The entry built from a daily row: the total is the sum of the two counts
   * and the two price averages are carried over (a stored decimal is a
   * non-empty string, so the truthiness test keeps every non-null value).
   */
  function ToTrendPoint(r: DailyRecord): (p: TrendPoint)
    ensures p.day == r.key.day && p.totalCount == p.updateCount + p.deleteCount
    ensures p.updateCount == r.row.updateCount && p.deleteCount == r.row.deleteCount
    ensures p.avgPriceValue == r.row.avgs.avgPriceValue && p.avgPriceUsd == r.row.avgs.avgPriceUsd
  {
    TrendPoint(r.key.day, r.row.updateCount, r.row.deleteCount, r.row.updateCount + r.row.deleteCount,
      r.row.avgs.avgPriceValue, r.row.avgs.avgPriceUsd)
  }

  /** `WHERE item_name = ANY(itemNames) AND day_timestamp >= cutoff`. */
  function DailyFilter(itemNames: seq<string>, cutoff: int): DailyRecord -> bool {
    (r: DailyRecord) => r.key.itemName in itemNames && r.key.day >= cutoff
  }

  /** The daily rows of the listed items from `cutoff` on, in day order. */
  function DailySelection(rows: seq<DailyRecord>, itemNames: seq<string>, cutoff: int): seq<DailyRecord> {
    Selection(rows, DailyFilter(itemNames, cutoff), DayOf)
  }

  /** `cutoffDate.setDate(cutoffDate.getDate() - daysToLookBack)`, with days of 24 hours. */
  function Cutoff(now: int, daysToLookBack: int): int {
    now - daysToLookBack * 86_400_000
  }

  /**
   * The shaping of `getTopBptfItemsWithDailyTrend`, given the names of the
   * top items: no trends at all when there are no top items, otherwise an
   * entry for exactly the top items with a daily row since the cut-off, holding
   * one point per such row.
   */
  method DailyTrends(rows: seq<DailyRecord>, itemNames: seq<string>, daysToLookBack: int, now: int)
    returns (dailyTrends: map<string, seq<TrendPoint>>)
    ensures itemNames == [] ==> dailyTrends == map[]
    ensures forall n :: n in dailyTrends <==>
      n in itemNames && exists i :: 0 <= i < |rows| && rows[i].key.itemName == n && rows[i].key.day >= Cutoff(now, daysToLookBack)
    ensures forall n :: n in dailyTrends ==>
      dailyTrends[n] == ValuesOf(DailySelection(rows, itemNames, Cutoff(now, daysToLookBack)), DailyItemOf, ToTrendPoint, n)
  {
    if |itemNames| == 0 {
      return map[];
    }
    var cutoff := Cutoff(now, daysToLookBack);
    var dailyStats := DailySelection(rows, itemNames, cutoff);
    dailyTrends := GroupByName(dailyStats, DailyItemOf, ToTrendPoint);
    forall n ensures n in dailyTrends <==>
      n in itemNames && exists i :: 0 <= i < |rows| && rows[i].key.itemName == n && rows[i].key.day >= cutoff
    {
      SelectionNames(rows, DailyFilter(itemNames, cutoff), DayOf, DailyItemOf, n);
    }
  }

  /**
   * Each trend holds one point per daily row of its item since the cut-off,
   * in ascending day order.
   */
  lemma {:induction false} TrendInDayOrder(rows: seq<DailyRecord>, itemNames: seq<string>, cutoff: int, n: string)
    requires n in itemNames
    ensures var mine := RowsOf(DailySelection(rows, itemNames, cutoff), DailyItemOf, n);
      var points := ValuesOf(DailySelection(rows, itemNames, cutoff), DailyItemOf, ToTrendPoint, n);
      && |points| == |mine|
      && (forall i :: 0 <= i < |points| ==> points[i] == ToTrendPoint(mine[i]))
      && (forall i, j :: 0 <= i < j < |points| ==> points[i].day <= points[j].day)
      && forall x :: multiset(mine)[x] == if x.key.itemName == n && x.key.day >= cutoff then multiset(rows)[x] else 0
  {
    ItemPartOfSelection(rows, DailyFilter(itemNames, cutoff), DayOf, DailyItemOf, n);
  }
}
