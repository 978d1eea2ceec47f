/**
 * `getTopBptfItems`: every catalog item, LEFT JOINed with its hourly rows of
 * the last `timeFrameInMinutes` minutes, grouped per item, ordered by total
 * activity descending and limited to `itemCount` rows.
 *
 * An item without an hourly row in the window still yields a group, whose
 * sums and averages are NULL. PostgreSQL orders NULL above every number in a
 * descending sort, so those idle items come first: `RankAsWritten` models
 * that order, which the query and the item collector use, and
 * `RankByActivity` is the order that reads an idle item as activity 0.
 */
module TopItems {
  import opened Wrappers
  import opened Schema
  import Seqs
  import Series
  import Averaging
  import Compaction

  /** One result row of the query. */
  datatype ItemStats = ItemStats(
    itemName: string,
    itemQualityName: Option<string>,
    itemImageUrl: string,
    itemColor: Option<string>,
    updateCount: Option<nat>,
    deleteCount: Option<nat>,
    totalCount: Option<nat>,
    avgs: Averages)

  /** `names` is a scan of the catalog: each catalog item exactly once. */
  ghost predicate ListsCatalog(names: seq<string>, catalog: Catalog) {
    && (forall n :: n in names <==> n in catalog)
    && (forall i, j :: 0 <= i < j < |names| ==> names[i] != names[j])
  }

  /** The join condition: the item's hourly rows with `hour_timestamp BETWEEN timeAgo AND now`. */
  function JoinedRows(rows: seq<HourlyRecord>, name: string, timeAgo: int, now: int): (r: seq<HourlyRecord>)
    ensures forall i :: 0 <= i < |r| ==> r[i].key.itemName == name && Series.InHourWindow(r[i], timeAgo, now)
    ensures forall i :: 0 <= i < |rows| && rows[i].key.itemName == name && Series.InHourWindow(rows[i], timeAgo, now) ==> rows[i] in r
  {
    Seqs.Filter(rows, (x: HourlyRecord) => x.key.itemName == name && Series.InHourWindow(x, timeAgo, now))
  }

  /** The non-null values of one average column. */
  function PresentValues(rows: seq<HourlyRecord>, f: Field): (r: seq<real>)
    ensures |r| <= |rows|
    decreases |rows|
  {
    if rows == [] then []
    else
      var last := rows[|rows| - 1].row.avgs.Get(f);
      PresentValues(rows[..|rows| - 1], f) + (if last.Some? then [last.value] else [])
  }

  /** `AVG(column)`: the mean of the non-null values, NULL when there is none. */
  function AvgColumn(rows: seq<HourlyRecord>, f: Field): (r: Option<real>)
    ensures r.None? <==> PresentValues(rows, f) == []
  {
    Averaging.Mean(PresentValues(rows, f))
  }

  /** `SUM(update_count + delete_count)`. */
  function SumTotals(rows: seq<HourlyRecord>): nat
    decreases |rows|
  {
    if rows == [] then 0 else SumTotals(rows[..|rows| - 1]) + Series.TotalCount(rows[|rows| - 1])
  }

  /** SUM over an empty group is NULL. */
  function NullIfEmpty(rows: seq<HourlyRecord>, sum: nat): Option<nat> {
    if rows == [] then None else Some(sum)
  }

  /** The result row of one catalog item. */
  function StatsOf(name: string, entry: CatalogEntry, joined: seq<HourlyRecord>): (s: ItemStats)
    ensures s.itemName == name && s.itemImageUrl == entry.imageUrl
    ensures s.updateCount.None? <==> joined == []
    ensures s.deleteCount.None? <==> joined == []
    ensures s.totalCount.None? <==> joined == []
  {
    ItemStats(name, entry.qualityName, entry.imageUrl, entry.color,
      NullIfEmpty(joined, Compaction.SumUpdates(joined)),
      NullIfEmpty(joined, Compaction.SumDeletes(joined)),
      NullIfEmpty(joined, SumTotals(joined)),
      Averages(AvgColumn(joined, PriceValue), AvgColumn(joined, PriceUsd), AvgColumn(joined, KeysAmount), AvgColumn(joined, MetalAmount)))
  }

  /** The total is the sum of the two counts, NULL exactly when they are. */
  lemma {:induction false} SumTotalsSplits(rows: seq<HourlyRecord>)
    ensures SumTotals(rows) == Compaction.SumUpdates(rows) + Compaction.SumDeletes(rows)
    decreases |rows|
  {
    if rows != [] {
      SumTotalsSplits(rows[..|rows| - 1]);
    }
  }

  /** The groups, one per catalog item in scan order. */
  function Groups(catalog: Catalog, names: seq<string>, rows: seq<HourlyRecord>, timeAgo: int, now: int): (r: seq<ItemStats>)
    requires forall n :: n in names ==> n in catalog
    ensures |r| == |names|
    ensures forall i :: 0 <= i < |r| ==> r[i] == StatsOf(names[i], catalog[names[i]], JoinedRows(rows, names[i], timeAgo, now))
  {
    if names == [] then []
    else
      [StatsOf(names[0], catalog[names[0]], JoinedRows(rows, names[0], timeAgo, now))]
        + Groups(catalog, names[1..], rows, timeAgo, now)
  }

  /** The activity a group is ranked by, with NULL read as 0. */
  function Activity(s: ItemStats): nat {
    s.totalCount.GetOr(0)
  }

  function ByActivityDesc(s: ItemStats): int {
    0 - Activity(s) as int
  }

  /** `ORDER BY COALESCE(SUM(...), 0) DESC LIMIT itemCount`. */
  function RankByActivity(groups: seq<ItemStats>, itemCount: nat): (r: seq<ItemStats>)
    ensures |r| == if itemCount < |groups| then itemCount else |groups|
  {
    Seqs.Take(Seqs.SortBy(groups, ByActivityDesc), itemCount)
  }

  /**
   * `ORDER BY SUM(...) DESC LIMIT itemCount` as PostgreSQL runs it: NULL
   * groups first. It returns `itemCount` groups (or all), every idle group
   * before every active one, and the active ones in descending activity.
   */
  function RankAsWritten(groups: seq<ItemStats>, itemCount: nat): (r: seq<ItemStats>)
    ensures |r| == if itemCount < |groups| then itemCount else |groups|
    ensures forall i, j :: 0 <= i < j < |r| && r[i].totalCount.Some? ==> r[j].totalCount.Some?
    ensures forall i, j :: 0 <= i < j < |r| && r[i].totalCount.Some? ==> Activity(r[i]) >= Activity(r[j])
    ensures forall i :: 0 <= i < |r| ==> r[i] in groups
    ensures multiset(r) <= multiset(groups)
  {
    var idle := Seqs.Filter(groups, (s: ItemStats) => s.totalCount.None?);
    var active := Seqs.Filter(groups, (s: ItemStats) => s.totalCount.Some?);
    PartitionLength(groups);
    SortedStaysActive(active);
    IdleThenActive(idle, Seqs.SortBy(active, ByActivityDesc), itemCount);
    TakeFrom(groups, idle, Seqs.SortBy(active, ByActivityDesc), itemCount);
    PartitionMultiset(groups);
    TakeSubMultiset(idle + Seqs.SortBy(active, ByActivityDesc), itemCount);
    Seqs.Take(idle + Seqs.SortBy(active, ByActivityDesc), itemCount)
  }

  /**
   * The groups returned are the first of the NULLS FIRST order: an idle
   * group is left out only when every group returned is idle, and an active
   * group left out is no more active than any active group returned.
   */
  lemma {:induction false} RankAsWrittenIsTop(groups: seq<ItemStats>, itemCount: nat)
    ensures var r := RankAsWritten(groups, itemCount);
      && (forall g :: g in groups && g !in r && g.totalCount.None? ==> forall i :: 0 <= i < |r| ==> r[i].totalCount.None?)
      && forall g, i :: g in groups && g !in r && g.totalCount.Some? && 0 <= i < |r| && r[i].totalCount.Some? ==> Activity(g) <= Activity(r[i])
  {
    var idle := Seqs.Filter(groups, (s: ItemStats) => s.totalCount.None?);
    var active := Seqs.Filter(groups, (s: ItemStats) => s.totalCount.Some?);
    var sorted := Seqs.SortBy(active, ByActivityDesc);
    forall g | g in groups && g.totalCount.None? ensures g in idle {
      var j :| 0 <= j < |groups| && groups[j] == g;
    }
    forall g | g in groups && g.totalCount.Some? ensures g in sorted {
      var j :| 0 <= j < |groups| && groups[j] == g;
      assert g in active;
      assert g in multiset(sorted);
    }
    PrefixIsTop(groups, idle, sorted, itemCount);
  }

  /**
   * A prefix of idle groups followed by the active ones in descending
   * activity leaves out an idle group only behind idle groups, and an active
   * group only behind more active ones.
   */
  lemma {:induction false} PrefixIsTop(groups: seq<ItemStats>, idle: seq<ItemStats>, sorted: seq<ItemStats>, n: nat)
    requires forall g :: g in groups && g.totalCount.None? ==> g in idle
    requires forall g :: g in groups && g.totalCount.Some? ==> g in sorted
    requires forall k :: 0 <= k < |idle| ==> idle[k].totalCount.None?
    requires Seqs.SortedBy(sorted, ByActivityDesc)
    ensures var r := Seqs.Take(idle + sorted, n);
      && (forall g :: g in groups && g !in r && g.totalCount.None? ==> forall i :: 0 <= i < |r| ==> r[i].totalCount.None?)
      && forall g, i :: g in groups && g !in r && g.totalCount.Some? && 0 <= i < |r| && r[i].totalCount.Some? ==> Activity(g) <= Activity(r[i])
  {
    var r := Seqs.Take(idle + sorted, n);
    forall g | g in groups && g !in r && g.totalCount.None?
      ensures forall i :: 0 <= i < |r| ==> r[i].totalCount.None?
    {
      IdleLeftOut(idle, sorted, n, g);
    }
    forall g, i | g in groups && g !in r && g.totalCount.Some? && 0 <= i < |r| && r[i].totalCount.Some?
      ensures Activity(g) <= Activity(r[i])
    {
      ActiveLeftOut(idle, sorted, n, g, i);
    }
  }

  lemma {:induction false} IdleLeftOut(idle: seq<ItemStats>, sorted: seq<ItemStats>, n: nat, g: ItemStats)
    requires forall k :: 0 <= k < |idle| ==> idle[k].totalCount.None?
    requires g in idle && g !in Seqs.Take(idle + sorted, n)
    ensures forall i :: 0 <= i < |Seqs.Take(idle + sorted, n)| ==> Seqs.Take(idle + sorted, n)[i].totalCount.None?
  {
    var all := idle + sorted;
    var r := Seqs.Take(all, n);
    var k :| 0 <= k < |idle| && idle[k] == g;
    assert all[k] == g;
    assert k >= |r|;
    forall i | 0 <= i < |r| ensures r[i].totalCount.None? {
      assert r[i] == all[i] == idle[i];
    }
  }

  lemma {:induction false} ActiveLeftOut(idle: seq<ItemStats>, sorted: seq<ItemStats>, n: nat, g: ItemStats, i: nat)
    requires forall k :: 0 <= k < |idle| ==> idle[k].totalCount.None?
    requires Seqs.SortedBy(sorted, ByActivityDesc)
    requires g in sorted && g !in Seqs.Take(idle + sorted, n)
    requires i < |Seqs.Take(idle + sorted, n)| && Seqs.Take(idle + sorted, n)[i].totalCount.Some?
    ensures Activity(g) <= Activity(Seqs.Take(idle + sorted, n)[i])
  {
    var all := idle + sorted;
    var r := Seqs.Take(all, n);
    var k :| 0 <= k < |sorted| && sorted[k] == g;
    assert all[|idle| + k] == g;
    assert |idle| + k >= |r|;
    assert r[i] == all[i];
    assert forall m :: 0 <= m < |idle| ==> all[m] == idle[m];
    assert all[i] == sorted[i - |idle|];
    assert ByActivityDesc(sorted[i - |idle|]) <= ByActivityDesc(sorted[k]);
  }

  /** The idle and the active groups together are the groups. */
  lemma {:induction false} PartitionMultiset(groups: seq<ItemStats>)
    ensures multiset(Seqs.Filter(groups, (s: ItemStats) => s.totalCount.None?))
      + multiset(Seqs.Filter(groups, (s: ItemStats) => s.totalCount.Some?)) == multiset(groups)
  {
    var idle := Seqs.Filter(groups, (s: ItemStats) => s.totalCount.None?);
    var active := Seqs.Filter(groups, (s: ItemStats) => s.totalCount.Some?);
    forall x ensures (multiset(idle) + multiset(active))[x] == multiset(groups)[x] {
      Seqs.FilterCount(groups, (s: ItemStats) => s.totalCount.None?, x);
      Seqs.FilterCount(groups, (s: ItemStats) => s.totalCount.Some?, x);
    }
  }

  /** LIMIT keeps a part of the rows. */
  lemma {:induction false} TakeSubMultiset(s: seq<ItemStats>, n: nat)
    ensures multiset(Seqs.Take(s, n)) <= multiset(s)
  {
    var r := Seqs.Take(s, n);
    assert s == r + s[|r|..];
    assert multiset(s) == multiset(r) + multiset(s[|r|..]);
  }

  /** Sorting the active groups keeps them active. */
  lemma {:induction false} SortedStaysActive(active: seq<ItemStats>)
    requires forall k :: 0 <= k < |active| ==> active[k].totalCount.Some?
    ensures forall k :: 0 <= k < |Seqs.SortBy(active, ByActivityDesc)| ==>
      Seqs.SortBy(active, ByActivityDesc)[k].totalCount.Some? && Seqs.SortBy(active, ByActivityDesc)[k] in active
  {
    var sorted := Seqs.SortBy(active, ByActivityDesc);
    forall k | 0 <= k < |sorted| ensures sorted[k].totalCount.Some? && sorted[k] in active {
      assert sorted[k] in multiset(sorted);
      assert sorted[k] in multiset(active);
    }
  }

  /** A prefix of idle groups followed by active groups in descending activity keeps that shape. */
  lemma {:induction false} IdleThenActive(idle: seq<ItemStats>, sorted: seq<ItemStats>, n: nat)
    requires forall k :: 0 <= k < |idle| ==> idle[k].totalCount.None?
    requires forall k :: 0 <= k < |sorted| ==> sorted[k].totalCount.Some?
    requires Seqs.SortedBy(sorted, ByActivityDesc)
    ensures var r := Seqs.Take(idle + sorted, n);
      && (forall i, j :: 0 <= i < j < |r| && r[i].totalCount.Some? ==> r[j].totalCount.Some?)
      && forall i, j :: 0 <= i < j < |r| && r[i].totalCount.Some? ==> Activity(r[i]) >= Activity(r[j])
  {
    var all := idle + sorted;
    var r := Seqs.Take(all, n);
    assert forall k :: 0 <= k < |idle| ==> all[k] == idle[k];
    forall i, j | 0 <= i < j < |r| && r[i].totalCount.Some?
      ensures r[j].totalCount.Some? && Activity(r[i]) >= Activity(r[j])
    {
      assert r[i] == all[i] && r[j] == all[j];
      assert i >= |idle|;
      assert all[i] == sorted[i - |idle|] && all[j] == sorted[j - |idle|];
      assert ByActivityDesc(sorted[i - |idle|]) <= ByActivityDesc(sorted[j - |idle|]);
    }
  }

  /** A prefix of two sequences drawn from `groups` is drawn from `groups`. */
  lemma {:induction false} TakeFrom(groups: seq<ItemStats>, idle: seq<ItemStats>, sorted: seq<ItemStats>, n: nat)
    requires forall k :: 0 <= k < |idle| ==> idle[k] in groups
    requires forall k :: 0 <= k < |sorted| ==> sorted[k] in groups
    ensures forall i :: 0 <= i < |Seqs.Take(idle + sorted, n)| ==> Seqs.Take(idle + sorted, n)[i] in groups
  {
    var all := idle + sorted;
    forall i | 0 <= i < |Seqs.Take(all, n)| ensures Seqs.Take(all, n)[i] in groups {
      assert Seqs.Take(all, n)[i] == all[i];
      if i >= |idle| {
        assert all[i] == sorted[i - |idle|];
      }
    }
  }

  /** Every group belongs to a catalog item, and no two groups to the same one. */
  lemma {:induction false} GroupNamesInCatalog(catalog: Catalog, names: seq<string>, rows: seq<HourlyRecord>, timeAgo: int, now: int)
    requires ListsCatalog(names, catalog)
    ensures forall g :: g in Groups(catalog, names, rows, timeAgo, now) ==> g.itemName in catalog
    ensures var groups := Groups(catalog, names, rows, timeAgo, now);
      forall i, j :: 0 <= i < j < |groups| ==> groups[i].itemName != groups[j].itemName
  {
    var groups := Groups(catalog, names, rows, timeAgo, now);
    forall g | g in groups ensures g.itemName in catalog {
      var i :| 0 <= i < |groups| && groups[i] == g;
    }
  }

  /** Every group is either idle or active. */
  lemma {:induction false} PartitionLength(groups: seq<ItemStats>)
    ensures |Seqs.Filter(groups, (s: ItemStats) => s.totalCount.None?)| + |Seqs.Filter(groups, (s: ItemStats) => s.totalCount.Some?)| == |groups|
    decreases |groups|
  {
    if groups != [] {
      PartitionLength(groups[1..]);
    }
  }

  /**
   * The query at time `now`, in the order PostgreSQL returns it: one row per
   * catalog item up to `itemCount`, the items without activity in the window
   * first, then the active ones by descending activity.
   */
  function TopBptfItems(catalog: Catalog, names: seq<string>, rows: seq<HourlyRecord>, itemCount: nat, timeFrameInMinutes: int, now: int): (r: seq<ItemStats>)
    requires ListsCatalog(names, catalog)
    ensures |r| == if itemCount < |catalog| then itemCount else |catalog|
    ensures forall i, j :: 0 <= i < j < |r| && r[i].totalCount.Some? ==> r[j].totalCount.Some?
    ensures forall i, j :: 0 <= i < j < |r| && r[i].totalCount.Some? ==> Activity(r[i]) >= Activity(r[j])
    ensures forall i :: 0 <= i < |r| ==> r[i].itemName in catalog
    ensures forall i, j :: 0 <= i < j < |r| ==> r[i].itemName != r[j].itemName
    ensures multiset(r) <= multiset(Groups(catalog, names, rows, Series.MinutesAgo(now, timeFrameInMinutes), now))
  {
    RankedCatalog(catalog, names, rows, itemCount, Series.MinutesAgo(now, timeFrameInMinutes), now);
    RankAsWritten(Groups(catalog, names, rows, Series.MinutesAgo(now, timeFrameInMinutes), now), itemCount)
  }

  /** The catalog's groups ranked as written: one row per catalog item, up to `itemCount`. */
  lemma {:induction false} RankedCatalog(catalog: Catalog, names: seq<string>, rows: seq<HourlyRecord>, itemCount: nat, timeAgo: int, now: int)
    requires ListsCatalog(names, catalog)
    ensures var r := RankAsWritten(Groups(catalog, names, rows, timeAgo, now), itemCount);
      && |r| == (if itemCount < |catalog| then itemCount else |catalog|)
      && (forall i :: 0 <= i < |r| ==> r[i].itemName in catalog)
      && forall i, j :: 0 <= i < j < |r| ==> r[i].itemName != r[j].itemName
  {
    var groups := Groups(catalog, names, rows, timeAgo, now);
    var r := RankAsWritten(groups, itemCount);
    CatalogScanSize(names, catalog);
    GroupNamesInCatalog(catalog, names, rows, timeAgo, now);
    DistinctNamesKept(r, groups);
  }

  /**
   * The query's rows are the first of the NULLS FIRST order over the whole
   * catalog: a catalog item without activity is left out only when every row
   * returned is such an item, and an active item left out is no more active
   * than any active item returned.
   */
  lemma {:induction false} TopBptfItemsIsTop(catalog: Catalog, names: seq<string>, rows: seq<HourlyRecord>, itemCount: nat, timeFrameInMinutes: int, now: int)
    requires ListsCatalog(names, catalog)
    ensures var groups := Groups(catalog, names, rows, Series.MinutesAgo(now, timeFrameInMinutes), now);
      var r := TopBptfItems(catalog, names, rows, itemCount, timeFrameInMinutes, now);
      && (forall g :: g in groups && g !in r && g.totalCount.None? ==> forall i :: 0 <= i < |r| ==> r[i].totalCount.None?)
      && forall g, i :: g in groups && g !in r && g.totalCount.Some? && 0 <= i < |r| && r[i].totalCount.Some? ==> Activity(g) <= Activity(r[i])
  {
    RankAsWrittenIsTop(Groups(catalog, names, rows, Series.MinutesAgo(now, timeFrameInMinutes), now), itemCount);
  }

  /** Rows drawn from groups with distinct names have distinct names. */
  lemma {:induction false} DistinctNamesKept(r: seq<ItemStats>, groups: seq<ItemStats>)
    requires multiset(r) <= multiset(groups)
    requires forall i, j :: 0 <= i < j < |groups| ==> groups[i].itemName != groups[j].itemName
    ensures forall i, j :: 0 <= i < j < |r| ==> r[i].itemName != r[j].itemName
  {
    forall i, j | 0 <= i < j < |r| ensures r[i].itemName != r[j].itemName {
      if r[i].itemName == r[j].itemName {
        assert r[i] in multiset(groups) && r[j] in multiset(groups);
        var p :| 0 <= p < |groups| && groups[p] == r[i];
        var q :| 0 <= q < |groups| && groups[q] == r[j];
        assert p == q;
        TwiceCounted(r, i, j);
        OnceCounted(groups, r[i]);
        assert false;
      }
    }
  }

  /** A value at two positions occurs at least twice. */
  lemma {:induction false} TwiceCounted(s: seq<ItemStats>, i: nat, j: nat)
    requires i < j < |s| && s[i] == s[j]
    ensures multiset(s)[s[i]] >= 2
  {
    assert s == s[..j] + s[j..];
    assert multiset(s) == multiset(s[..j]) + multiset(s[j..]);
    assert s[..j][i] == s[i];
    assert s[j..][0] == s[i];
  }

  /** In groups with distinct names every group occurs at most once. */
  lemma {:induction false} OnceCounted(groups: seq<ItemStats>, x: ItemStats)
    requires forall i, j :: 0 <= i < j < |groups| ==> groups[i].itemName != groups[j].itemName
    ensures multiset(groups)[x] <= 1
    decreases |groups|
  {
    if groups != [] {
      var rest := groups[1..];
      assert groups == [groups[0]] + rest;
      assert multiset(groups) == multiset{groups[0]} + multiset(rest);
      OnceCounted(rest, x);
      if groups[0] == x {
        assert x !in rest by {
          forall k | 0 <= k < |rest| ensures rest[k] != x {
            assert rest[k] == groups[k + 1];
          }
        }
      }
    }
  }

  /**
   * The ranked groups are the most active ones: in descending order of
   * activity, and no group left out was more active than one returned.
   */
  lemma {:induction false} RankByActivityIsTop(groups: seq<ItemStats>, itemCount: nat)
    ensures var r := RankByActivity(groups, itemCount);
      && (forall i, j :: 0 <= i < j < |r| ==> Activity(r[i]) >= Activity(r[j]))
      && forall i, j :: 0 <= i < |r| && 0 <= j < |groups| && groups[j] !in r ==> Activity(groups[j]) <= Activity(r[i])
  {
    Seqs.TakeSortedIsTop(groups, ByActivityDesc, itemCount);
    var r := RankByActivity(groups, itemCount);
    assert forall i, j :: 0 <= i < j < |r| ==> ByActivityDesc(r[i]) <= ByActivityDesc(r[j]);
  }

  /** A scan of the catalog has one entry per item. */
  lemma {:induction false} CatalogScanSize(names: seq<string>, catalog: Catalog)
    requires ListsCatalog(names, catalog)
    ensures |names| == |catalog|
  {
    var s := set i | 0 <= i < |names| :: names[i];
    assert s == catalog.Keys;
    DistinctCard(names);
  }

  /** A sequence without repetition has as many elements as values. */
  lemma {:induction false} DistinctCard(names: seq<string>)
    requires forall i, j :: 0 <= i < j < |names| ==> names[i] != names[j]
    ensures |set i | 0 <= i < |names| :: names[i]| == |names|
    decreases |names|
  {
    if names != [] {
      var init := names[..|names| - 1];
      DistinctCard(init);
      var s := set i | 0 <= i < |names| :: names[i];
      var t := set i | 0 <= i < |init| :: init[i];
      assert s == t + {names[|names| - 1]} by {
        forall x | x in s ensures x in t + {names[|names| - 1]} {
          var i :| 0 <= i < |names| && names[i] == x;
          if i < |init| { assert init[i] == x; }
        }
        forall x | x in t ensures x in s {
          var i :| 0 <= i < |init| && init[i] == x;
          assert names[i] == x;
        }
      }
      assert names[|names| - 1] !in t;
    }
  }

  /** With as many idle items as rows asked for, the query as written returns only idle items. */
  lemma {:induction false} AsWrittenFillsWithIdleItems(groups: seq<ItemStats>, itemCount: nat)
    requires |Seqs.Filter(groups, (s: ItemStats) => s.totalCount.None?)| >= itemCount
    ensures forall i :: 0 <= i < |RankAsWritten(groups, itemCount)| ==> RankAsWritten(groups, itemCount)[i].totalCount.None?
  {
    var idle := Seqs.Filter(groups, (s: ItemStats) => s.totalCount.None?);
    var all := idle + Seqs.SortBy(Seqs.Filter(groups, (s: ItemStats) => s.totalCount.Some?), ByActivityDesc);
    assert RankAsWritten(groups, itemCount) == all[..itemCount];
    forall i | 0 <= i < itemCount ensures all[i].totalCount.None? {
      assert all[i] == idle[i];
    }
  }

  const ACTIVE := ItemStats("Active", None, "", None, Some(5), Some(0), Some(5), Averages(None, None, None, None))
  const IDLE := ItemStats("Idle", None, "", None, None, None, None, Averages(None, None, None, None))

  /**
   * One item with five events in the window and one with none, top 1: the
   * query as written returns the idle item.
   */
  lemma {:induction false} IdleItemRanksFirst()
    ensures RankAsWritten([ACTIVE, IDLE], 1) == [IDLE]
  {
    var groups := [ACTIVE, IDLE];
    assert Seqs.Filter(groups, (s: ItemStats) => s.totalCount.None?) == [IDLE] by {
      assert Seqs.Filter(groups[1..], (s: ItemStats) => s.totalCount.None?) == [IDLE];
    }
  }

  /** The same two items, top 1: ranking by activity returns the active item. */
  lemma {:induction false} ActiveItemRanksFirst()
    ensures RankByActivity([ACTIVE, IDLE], 1) == [ACTIVE]
  {
    var groups := [ACTIVE, IDLE];
    assert Seqs.SortBy(groups, ByActivityDesc) == [ACTIVE, IDLE] by {
      assert groups[1..] == [IDLE];
      assert Seqs.SortBy([IDLE], ByActivityDesc) == [IDLE];
    }
  }
}
