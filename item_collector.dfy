/**
 * The item collector: `analyzeTopBptfItems` ranks the catalog, shapes the
 * rows for the API and fetches the top items' hourly series, and
 * `getLatestBptfItemsAnalysis` serves the cached analysis while it is less
 * than an hour old.
 *
 * The cache file is a parameter: what reading and parsing it produced. The
 * write of a fresh analysis to the file is left out.
 */
module ItemCollector {
  import opened Wrappers
  import opened Clock
  import opened Schema
  import Seqs
  import Series
  import TopItems

  /** One item as the API returns it. */
  datatype FormattedItem = FormattedItem(
    itemName: string,
    itemQualityName: Option<string>,
    itemImageUrl: string,
    itemColor: Option<string>,
    avgs: Averages,
    updateCount: nat,
    deleteCount: nat,
    totalCount: nat)

  /**
   * Averages pass through, null staying null (`x !== null ? Number(x) : null`);
   * the counts of an item without activity, NULL in the query, become 0 (`x || 0`).
   */
  function FormatItem(s: TopItems.ItemStats): (f: FormattedItem)
    ensures f.itemName == s.itemName && f.itemQualityName == s.itemQualityName
    ensures f.itemImageUrl == s.itemImageUrl && f.itemColor == s.itemColor
    ensures f.avgs == s.avgs
    ensures f.updateCount == (if s.updateCount.Some? then s.updateCount.value else 0)
    ensures f.deleteCount == (if s.deleteCount.Some? then s.deleteCount.value else 0)
    ensures f.totalCount == (if s.totalCount.Some? then s.totalCount.value else 0)
  {
    FormattedItem(s.itemName, s.itemQualityName, s.itemImageUrl, s.itemColor, s.avgs,
      s.updateCount.GetOr(0), s.deleteCount.GetOr(0), s.totalCount.GetOr(0))
  }

  function ItemNameOf(f: FormattedItem): string {
    f.itemName
  }

  /** What `analyzeTopBptfItems` returns and caches. */
  datatype Analysis = Analysis(items: seq<FormattedItem>, hourlyData: map<string, seq<nat>>, lastUpdated: int)

  /**
   * A fresh analysis at time `now`: the top `itemCount` items of the last
   * `timeFrameInMinutes` minutes, shaped, with the hourly series of exactly
   * those items over the same window.
   */
  method AnalyzeTopBptfItems(catalog: Catalog, names: seq<string>, rows: seq<HourlyRecord>, itemCount: nat, timeFrameInMinutes: int, now: int)
    returns (analysis: Analysis)
    requires TopItems.ListsCatalog(names, catalog)
    ensures analysis.items == Seqs.Map(TopItems.TopBptfItems(catalog, names, rows, itemCount, timeFrameInMinutes, now), FormatItem)
    ensures forall i, j :: 0 <= i < j < |analysis.items| ==> analysis.items[i].itemName != analysis.items[j].itemName
    ensures forall n :: n in analysis.hourlyData <==>
      n in Seqs.Map(analysis.items, ItemNameOf)
      && exists i :: 0 <= i < |rows| && rows[i].key.itemName == n && Series.InHourWindow(rows[i], Series.MinutesAgo(now, timeFrameInMinutes), now)
    ensures forall n :: n in analysis.hourlyData ==>
      analysis.hourlyData[n] == Series.ValuesOf(
        Series.HourlySelection(rows, Seqs.Map(analysis.items, ItemNameOf), Series.MinutesAgo(now, timeFrameInMinutes), now),
        Series.ItemOf, Series.TotalCount, n)
    ensures analysis.lastUpdated == now
  {
    var topItems := TopItems.TopBptfItems(catalog, names, rows, itemCount, timeFrameInMinutes, now);
    var formattedItems := Seqs.Map(topItems, FormatItem);
    var itemNames := Seqs.Map(formattedItems, ItemNameOf);
    var hourlyData := Series.ItemsHourlyData(rows, itemNames, timeFrameInMinutes, now);
    analysis := Analysis(formattedItems, hourlyData, now);
  }

  /** The age below which a cached analysis is served: one hour. */
  const CACHE_TTL_MS := HOUR_MS

  /**
   * What reading `bptf-items.json` gave: nothing (no file, unreadable, not
   * JSON), or the parsed analysis with `new Date(lastUpdated)` as a time, or
   * `None` when that is an invalid date.
   */
  datatype CacheRead = Unreadable | Parsed(data: Analysis, lastUpdated: Option<int>)

  /**
   * `now - lastUpdated < 1 hour`; an invalid date makes the difference NaN and
   * the comparison false.
   */
  predicate IsFresh(lastUpdated: Option<int>, now: int) {
    lastUpdated.Some? && now - lastUpdated.value < CACHE_TTL_MS
  }

  /**
   * The cached analysis when the file was read and is younger than an hour,
   * otherwise a fresh one.
   */
  method GetLatestBptfItemsAnalysis(cache: CacheRead, catalog: Catalog, names: seq<string>, rows: seq<HourlyRecord>,
                                    itemCount: nat, timeFrameInMinutes: int, now: int)
    returns (analysis: Analysis, fromCache: bool)
    requires TopItems.ListsCatalog(names, catalog)
    ensures fromCache <==> cache.Parsed? && IsFresh(cache.lastUpdated, now)
    ensures fromCache ==> analysis == cache.data
    ensures !fromCache ==> analysis.lastUpdated == now
    ensures !fromCache ==> analysis.items == Seqs.Map(TopItems.TopBptfItems(catalog, names, rows, itemCount, timeFrameInMinutes, now), FormatItem)
  {
    if cache.Parsed? && IsFresh(cache.lastUpdated, now) {
      return cache.data, true;
    }
    analysis := AnalyzeTopBptfItems(catalog, names, rows, itemCount, timeFrameInMinutes, now);
    fromCache := false;
  }

  /** An analysis just written is served from the cache for exactly the next hour. */
  lemma {:induction false} FreshForOneHour(written: int, now: int)
    ensures IsFresh(Some(written), now) <==> now < written + 3_600_000
  {
  }
}
