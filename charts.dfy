/**
 * The trending collector's shaping of its two query results
 * (`collectTopTrendingItems`): the conversion of the ranked rows and
 * `formatHourlyDataForCharts`, which turns the per-(item, hour) counts into
 * one array per item in sorted hour order.
 *
 * The two queries over the listing-event log are left out; their results are
 * parameters. The hours arrive as text and are ordered as text, by
 * `Array.prototype.sort` without a comparator.
 */
module Charts {
  import opened Wrappers
  import opened Schema
  import Series

  /*
   * The order of `Array.prototype.sort()` on strings
   */

  /** `a < b` on strings: character by character, a proper prefix first. */
  predicate Less(a: string, b: string)
    decreases |a|
  {
    b != [] && (a == [] || a[0] < b[0] || (a[0] == b[0] && Less(a[1..], b[1..])))
  }

  lemma {:induction false} LessIrreflexive(a: string)
    ensures !Less(a, a)
    decreases |a|
  {
    if a != [] {
      LessIrreflexive(a[1..]);
    }
  }

  lemma {:induction false} LessTransitive(a: string, b: string, c: string)
    requires Less(a, b) && Less(b, c)
    ensures Less(a, c)
    decreases |a|
  {
    if a != [] && a[0] == b[0] && b[0] == c[0] {
      LessTransitive(a[1..], b[1..], c[1..]);
    }
  }

  lemma {:induction false} LessTotal(a: string, b: string)
    requires a != b
    ensures Less(a, b) || Less(b, a)
    decreases |a|
  {
    if a != [] && b != [] && a[0] == b[0] {
      assert a == [a[0]] + a[1..] && b == [b[0]] + b[1..];
      LessTotal(a[1..], b[1..]);
    }
  }

  /** The smallest string of a non-empty set. */
  method Smallest(s: set<string>) returns (m: string)
    requires s != {}
    ensures m in s && forall x :: x in s && x != m ==> Less(m, x)
  {
    m :| m in s;
    var seen := {m};
    while seen != s
      invariant seen <= s && m in seen
      invariant forall x :: x in seen && x != m ==> Less(m, x)
      decreases |s - seen|
    {
      var x :| x in s - seen;
      if x != m {
        LessTotal(x, m);
        if Less(x, m) {
          forall y | y in seen && y != x ensures Less(x, y) {
            if y != m {
              LessTransitive(x, m, y);
            }
          }
          m := x;
        }
      }
      seen := seen + {x};
    }
  }

  /** `hours` lists `keys` in strictly ascending order. */
  ghost predicate SortedListing(hours: seq<string>, keys: set<string>) {
    && (forall i, j :: 0 <= i < j < |hours| ==> Less(hours[i], hours[j]))
    && (forall h :: h in hours <==> h in keys)
  }

  /** `Object.keys(counts).sort()`: the keys in ascending order, each once. */
  method SortedKeys(keys: set<string>) returns (hours: seq<string>)
    ensures SortedListing(hours, keys)
    ensures |hours| == |keys|
  {
    hours := [];
    var rest := keys;
    while rest != {}
      invariant rest <= keys
      invariant forall h :: h in keys <==> h in hours || h in rest
      invariant forall h :: h in hours ==> h !in rest
      invariant forall i, j :: 0 <= i < j < |hours| ==> Less(hours[i], hours[j])
      invariant forall i, h :: 0 <= i < |hours| && h in rest ==> Less(hours[i], h)
      invariant |hours| + |rest| == |keys|
      decreases |rest|
    {
      var m := Smallest(rest);
      hours := hours + [m];
      rest := rest - {m};
    }
  }

  /*
   * formatHourlyDataForCharts
   */

  /** One row of the hourly query: an item, an hour as text, and its event count. */
  datatype HourlyCount = HourlyCount(itemName: string, hour: string, count: int)

  function NameOf(r: HourlyCount): string {
    r.itemName
  }

  /**
   * `hourlyData[itemName]` after the first loop has seen `rows`: each hour of
   * the item mapped to the count of the last row for that (item, hour).
   */
  function Latest(rows: seq<HourlyCount>, name: string): map<string, int>
    decreases |rows|
  {
    if rows == [] then map[]
    else
      var r := rows[|rows| - 1];
      var before := Latest(rows[..|rows| - 1], name);
      if r.itemName == name then before[r.hour := r.count] else before
  }

  /**
   * An item's counts by hour hold exactly the hours that occur with the item,
   * each with the count of the LAST row for that (item, hour).
   */
  lemma {:induction false} LatestIsLastRow(rows: seq<HourlyCount>, name: string, hour: string)
    ensures hour in Latest(rows, name) <==> exists i :: 0 <= i < |rows| && rows[i].itemName == name && rows[i].hour == hour
    ensures hour in Latest(rows, name) ==> exists i ::
      && 0 <= i < |rows| && rows[i].itemName == name && rows[i].hour == hour
      && Latest(rows, name)[hour] == rows[i].count
      && forall j :: i < j < |rows| ==> !(rows[j].itemName == name && rows[j].hour == hour)
    decreases |rows|
  {
    if rows != [] {
      var init := rows[..|rows| - 1];
      LatestIsLastRow(init, name, hour);
      if hour in Latest(init, name) {
        var i :| 0 <= i < |init| && init[i].itemName == name && init[i].hour == hour;
        assert rows[i] == init[i];
      }
      if exists i :: 0 <= i < |rows| && rows[i].itemName == name && rows[i].hour == hour {
        var i :| 0 <= i < |rows| && rows[i].itemName == name && rows[i].hour == hour;
        if i < |init| {
          assert init[i] == rows[i];
        }
      }
      if hour in Latest(rows, name) && !(rows[|rows| - 1].itemName == name && rows[|rows| - 1].hour == hour) {
        var i :| 0 <= i < |init| && init[i].itemName == name && init[i].hour == hour
          && Latest(init, name)[hour] == init[i].count
          && forall j :: i < j < |init| ==> !(init[j].itemName == name && init[j].hour == hour);
        assert rows[i] == init[i];
        forall j | i < j < |rows| ensures !(rows[j].itemName == name && rows[j].hour == hour) {
          if j < |init| {
            assert rows[j] == init[j];
          }
        }
      }
    }
  }

  /** One more row sets its own item's count for its hour and leaves every other item alone. */
  lemma {:induction false} LatestSnoc(rows: seq<HourlyCount>, r: HourlyCount, name: string)
    ensures Latest(rows + [r], name) == if r.itemName == name then Latest(rows, name)[r.hour := r.count] else Latest(rows, name)
  {
    assert (rows + [r])[..|rows|] == rows;
  }

  /** An item without a row has no hours. */
  lemma {:induction false} AbsentHasNoHours(rows: seq<HourlyCount>, name: string)
    requires name !in Series.Names(rows, NameOf)
    ensures Latest(rows, name) == map[]
  {
    if Latest(rows, name) != map[] {
      var h :| h in Latest(rows, name);
      LatestIsLastRow(rows, name, h);
    }
  }

  /** The first loop: each item's counts by hour, a later row overwriting an earlier one. */
  method CollectCounts(hourlyResults: seq<HourlyCount>) returns (hourlyData: map<string, map<string, int>>)
    ensures hourlyData.Keys == Series.Names(hourlyResults, NameOf)
    ensures forall n :: n in hourlyData ==> hourlyData[n] == Latest(hourlyResults, n)
  {
    hourlyData := map[];
    for k := 0 to |hourlyResults|
      invariant hourlyData.Keys == Series.Names(hourlyResults[..k], NameOf)
      invariant forall n :: n in hourlyData ==> hourlyData[n] == Latest(hourlyResults[..k], n)
    {
      var result := hourlyResults[k];
      assert hourlyResults[..k + 1] == hourlyResults[..k] + [result];
      Series.NamesSnoc(hourlyResults[..k], result, NameOf);
      if result.itemName !in hourlyData {
        AbsentHasNoHours(hourlyResults[..k], result.itemName);
        hourlyData := hourlyData[result.itemName := map[]];
      }
      hourlyData := hourlyData[result.itemName := hourlyData[result.itemName][result.hour := result.count]];
      forall n | n in hourlyData ensures hourlyData[n] == Latest(hourlyResults[..k + 1], n) {
        LatestSnoc(hourlyResults[..k], result, n);
      }
    }
    assert hourlyResults[..|hourlyResults|] == hourlyResults;
  }

  /** `series` lists the counts of `counts` in ascending order of their hours. */
  ghost predicate ChartOf(counts: map<string, int>, series: seq<int>) {
    && |series| == |counts.Keys|
    && exists hours ::
      && SortedListing(hours, counts.Keys)
      && |hours| == |series|
      && forall i :: 0 <= i < |hours| ==> series[i] == counts[hours[i]]
  }

  /** The second loop: each item's counts in ascending hour order. */
  method OrderByHour(hourlyData: map<string, map<string, int>>) returns (chartData: map<string, seq<int>>)
    ensures chartData.Keys == hourlyData.Keys
    ensures forall n :: n in chartData ==> ChartOf(hourlyData[n], chartData[n])
  {
    chartData := map[];
    var remaining := hourlyData.Keys;
    while remaining != {}
      invariant remaining <= hourlyData.Keys
      invariant chartData.Keys == hourlyData.Keys - remaining
      invariant forall n :: n in chartData ==> ChartOf(hourlyData[n], chartData[n])
      decreases |remaining|
    {
      var itemName :| itemName in remaining;
      var series := HourSeries(hourlyData[itemName]);
      chartData := chartData[itemName := series];
      remaining := remaining - {itemName};
    }
  }

  /** One item's counts read off in ascending hour order. */
  method HourSeries(counts: map<string, int>) returns (series: seq<int>)
    ensures ChartOf(counts, series)
  {
    var hours := SortedKeys(counts.Keys);
    series := seq(|hours|, i requires 0 <= i < |hours| && hours[i] in counts => counts[hours[i]]);
    assert forall i :: 0 <= i < |hours| ==> series[i] == counts[hours[i]];
  }

  /**
   * `formatHourlyDataForCharts`: one array per item that has a row, listing
   * the item's counts by hour in ascending order of the hour text, one entry
   * per distinct hour; a repeated (item, hour) keeps its last count.
   */
  method FormatHourlyDataForCharts(hourlyResults: seq<HourlyCount>) returns (chartData: map<string, seq<int>>)
    ensures chartData.Keys == Series.Names(hourlyResults, NameOf)
    ensures forall n :: n in chartData ==> ChartOf(Latest(hourlyResults, n), chartData[n])
  {
    var hourlyData := CollectCounts(hourlyResults);
    chartData := OrderByHour(hourlyData);
  }

  /*
   * The conversion of the ranked rows
   */

  /** One row of the ranking query over the listing events. */
  datatype TrendingRow = TrendingRow(
    itemName: string,
    itemQualityName: Option<string>,
    itemImageUrl: string,
    itemColor: Option<string>,
    avgs: Averages,
    updateCount: nat,
    deleteCount: nat,
    totalCount: nat)

  /** One item of the trending output; `eventCount` repeats `totalCount` for older readers. */
  datatype TrendingItem = TrendingItem(
    itemName: string,
    itemQualityName: Option<string>,
    itemImageUrl: string,
    itemColor: Option<string>,
    avgs: Averages,
    updateCount: nat,
    deleteCount: nat,
    totalCount: nat,
    eventCount: nat)

  /** The spread of the row with numbers in place of strings: null averages stay null. */
  function ConvertItem(r: TrendingRow): (t: TrendingItem)
    ensures t.eventCount == t.totalCount == r.totalCount
    ensures t.avgs == r.avgs && t.updateCount == r.updateCount && t.deleteCount == r.deleteCount
    ensures t.itemName == r.itemName && t.itemQualityName == r.itemQualityName
    ensures t.itemImageUrl == r.itemImageUrl && t.itemColor == r.itemColor
  {
    TrendingItem(r.itemName, r.itemQualityName, r.itemImageUrl, r.itemColor, r.avgs,
      r.updateCount, r.deleteCount, r.totalCount, r.totalCount)
  }

  /**
   * The output of `collectTopTrendingItems` given the two query results:
   * the converted rows, and the chart data, for which the hourly query is run
   * only when the ranking found an item (`queried`).
   */
  method TrendingOutput(result: seq<TrendingRow>, hourlyResults: seq<HourlyCount>)
    returns (items: seq<TrendingItem>, hourlyData: map<string, seq<int>>, queried: bool)
    ensures |items| == |result| && forall i :: 0 <= i < |result| ==> items[i] == ConvertItem(result[i])
    ensures queried <==> |result| > 0
    ensures !queried ==> hourlyData == map[]
    ensures queried ==> hourlyData.Keys == Series.Names(hourlyResults, NameOf)
    ensures queried ==> forall n :: n in hourlyData ==> ChartOf(Latest(hourlyResults, n), hourlyData[n])
  {
    items := [];
    for i := 0 to |result|
      invariant |items| == i && forall j :: 0 <= j < i ==> items[j] == ConvertItem(result[j])
    {
      items := items + [ConvertItem(result[i])];
    }
    hourlyData := map[];
    queried := false;
    if |result| > 0 {
      hourlyData := FormatHourlyDataForCharts(hourlyResults);
      queried := true;
    }
  }
}
