/**
 * The hourly ingestion path of `processBptfEventsFromWebsocket`: group a
 * batch by (item, hour), count updates and deletes, average each figure over
 * the events that carry it, and merge the result into the hourly table with an
 * update-count-weighted mean.
 */
module Ingestion {
  import opened Wrappers
  import opened Schema
  import opened Events
  import opened Averaging

  /** The (item, hour) key an event is counted under. */
  function KeyOf(b: BatchItem): Key {
    Key(b.itemName, b.hour)
  }

  /** The per-key accumulator of the grouping loop (a value of `statsByKey`). */
  datatype KeyStats = KeyStats(
    updateCount: nat,
    deleteCount: nat,
    priceValues: seq<real>,
    priceUsds: seq<real>,
    keysAmounts: seq<real>,
    metalAmounts: seq<real>)
  {
    function Values(f: Field): seq<real> {
      match f
      case PriceValue => priceValues
      case PriceUsd => priceUsds
      case KeysAmount => keysAmounts
      case MetalAmount => metalAmounts
    }
  }

  const EmptyStats := KeyStats(0, 0, [], [], [], [])

  /** `[x]` when the figure is present, `[]` when it is null. */
  function Carried(x: Option<real>): seq<real> {
    if x.Some? then [x.value] else []
  }

  /** One pass of the grouping loop's body on the accumulator of the item's key. */
  function AddItem(s: KeyStats, b: BatchItem): KeyStats {
    KeyStats(
      s.updateCount + (if b.kind == Update then 1 else 0),
      s.deleteCount + (if b.kind == Delete then 1 else 0),
      s.priceValues + Carried(b.priceValue),
      s.priceUsds + Carried(b.priceUsd),
      s.keysAmounts + Carried(b.keysAmount),
      s.metalAmounts + Carried(b.metalAmount))
  }

  /** The number of events of kind `kind` counted under key `k`. */
  function Count(items: seq<BatchItem>, k: Key, kind: Kind): nat
    decreases |items|
  {
    if items == [] then 0
    else
      var last := items[|items| - 1];
      Count(items[..|items| - 1], k, kind) + (if KeyOf(last) == k && last.kind == kind then 1 else 0)
  }

  /** The figures for `f` carried by the events counted under `k`, in arrival order. */
  function Figures(items: seq<BatchItem>, k: Key, f: Field): seq<real>
    decreases |items|
  {
    if items == [] then []
    else
      var last := items[|items| - 1];
      Figures(items[..|items| - 1], k, f) + (if KeyOf(last) == k then Carried(last.Get(f)) else [])
  }

  /** The events counted under `k`, in arrival order. */
  function EventsWith(items: seq<BatchItem>, k: Key): seq<BatchItem>
    decreases |items|
  {
    if items == [] then []
    else
      var last := items[|items| - 1];
      EventsWith(items[..|items| - 1], k) + (if KeyOf(last) == k then [last] else [])
  }

  /** What the grouping loop accumulates for key `k` over `items`. */
  function StatsOf(items: seq<BatchItem>, k: Key): KeyStats {
    KeyStats(
      Count(items, k, Update),
      Count(items, k, Delete),
      Figures(items, k, PriceValue),
      Figures(items, k, PriceUsd),
      Figures(items, k, KeysAmount),
      Figures(items, k, MetalAmount))
  }

  /** The keys of a batch. */
  function KeysOf(items: seq<BatchItem>): set<Key> {
    set i | 0 <= i < |items| :: KeyOf(items[i])
  }

  lemma {:induction false} KeysOfSnoc(items: seq<BatchItem>)
    requires items != []
    ensures KeysOf(items) == KeysOf(items[..|items| - 1]) + {KeyOf(items[|items| - 1])}
  {
    var init := items[..|items| - 1];
    forall x | x in KeysOf(items) ensures x in KeysOf(init) + {KeyOf(items[|items| - 1])} {
      var i :| 0 <= i < |items| && KeyOf(items[i]) == x;
      if i < |init| { assert items[i] == init[i]; }
    }
    forall x | x in KeysOf(init) ensures x in KeysOf(items) {
      var i :| 0 <= i < |init| && KeyOf(init[i]) == x;
      assert items[i] == init[i];
    }
  }

  /** `statsByKey` after the whole batch, one event at a time: one accumulator per key of the batch. */
  function Group(items: seq<BatchItem>): map<Key, KeyStats>
    decreases |items|
  {
    if items == [] then map[]
    else
      var m := Group(items[..|items| - 1]);
      var last := items[|items| - 1];
      var k := KeyOf(last);
      m[k := AddItem(if k in m then m[k] else EmptyStats, last)]
  }

  lemma {:induction false} GroupSnoc(items: seq<BatchItem>, b: BatchItem)
    ensures Group(items + [b]) ==
      Group(items)[KeyOf(b) := AddItem(if KeyOf(b) in Group(items) then Group(items)[KeyOf(b)] else EmptyStats, b)]
  {
    assert (items + [b])[..|items|] == items;
  }

  lemma {:induction false} StatsOfSnoc(items: seq<BatchItem>, b: BatchItem, k: Key)
    ensures StatsOf(items + [b], k) == if KeyOf(b) == k then AddItem(StatsOf(items, k), b) else StatsOf(items, k)
  {
    assert (items + [b])[..|items|] == items;
    if KeyOf(b) == k {
      forall f ensures Figures(items + [b], k, f) == Figures(items, k, f) + Carried(b.Get(f)) { }
    }
  }

  lemma {:induction false} StatsOfAbsent(items: seq<BatchItem>, k: Key)
    requires k !in KeysOf(items)
    ensures StatsOf(items, k) == EmptyStats
    decreases |items|
  {
    if items != [] {
      var init := items[..|items| - 1];
      KeysOfSnoc(items);
      StatsOfAbsent(init, k);
    }
  }

  /**
   * The grouped batch has one accumulator per key of the batch, and the
   * accumulator of a key counts that key's updates and deletes and collects the
   * figures its events carry.
   */
  lemma {:induction false} GroupIsStatsOf(items: seq<BatchItem>)
    ensures Group(items).Keys == KeysOf(items)
    ensures forall k :: k in Group(items) ==> Group(items)[k] == StatsOf(items, k)
    decreases |items|
  {
    if items != [] {
      var init := items[..|items| - 1];
      var b := items[|items| - 1];
      assert items == init + [b];
      GroupIsStatsOf(init);
      KeysOfSnoc(items);
      forall k | k in Group(items) ensures Group(items)[k] == StatsOf(items, k) {
        StatsOfSnoc(init, b, k);
        if k == KeyOf(b) && k !in KeysOf(init) {
          StatsOfAbsent(init, k);
        }
      }
    }
  }

  lemma {:induction false} GroupAt(items: seq<BatchItem>, k: Key)
    requires k in Group(items)
    ensures Group(items)[k] == StatsOf(items, k)
  {
    GroupIsStatsOf(items);
  }

  /** The catalog fields kept for an item (`BptfItemData` without the name). */
  datatype ItemData = ItemData(qualityName: Option<string>, imageUrl: string, color: Option<string>)

  function ItemDataOf(b: BatchItem): ItemData {
    ItemData(b.qualityName, b.imageUrl, b.color)
  }

  /** `itemsToUpsert` after the batch: an item's entry is set when its name is first seen. */
  function FirstSeen(items: seq<BatchItem>): map<string, ItemData>
    decreases |items|
  {
    if items == [] then map[]
    else
      var m := FirstSeen(items[..|items| - 1]);
      var last := items[|items| - 1];
      if last.itemName in m then m else m[last.itemName := ItemDataOf(last)]
  }

  /**
   * Within one batch the catalog entry of an item comes from the FIRST event
   * that names it, and there is one entry per item name of the batch.
   */
  lemma {:induction false} FirstSeenKeepsFirst(items: seq<BatchItem>, i: nat)
    requires i < |items|
    requires forall j :: 0 <= j < i ==> items[j].itemName != items[i].itemName
    ensures items[i].itemName in FirstSeen(items)
    ensures FirstSeen(items)[items[i].itemName] == ItemDataOf(items[i])
    decreases |items|
  {
    var init := items[..|items| - 1];
    if i < |items| - 1 {
      FirstSeenKeepsFirst(init, i);
    } else {
      FirstSeenNames(init, items[i].itemName);
    }
  }

  lemma {:induction false} FirstSeenNames(items: seq<BatchItem>, name: string)
    ensures name in FirstSeen(items) <==> exists j :: 0 <= j < |items| && items[j].itemName == name
    decreases |items|
  {
    if items != [] {
      var init := items[..|items| - 1];
      FirstSeenNames(init, name);
      if exists j :: 0 <= j < |init| && init[j].itemName == name {
        var j :| 0 <= j < |init| && init[j].itemName == name;
        assert items[j] == init[j];
      }
      if exists j :: 0 <= j < |items| && items[j].itemName == name {
        var j :| 0 <= j < |items| && items[j].itemName == name;
        if j < |init| { assert init[j] == items[j]; }
      }
    }
  }

  lemma {:induction false} FirstSeenSnoc(items: seq<BatchItem>, b: BatchItem)
    ensures FirstSeen(items + [b]) ==
      if b.itemName in FirstSeen(items) then FirstSeen(items) else FirstSeen(items)[b.itemName := ItemDataOf(b)]
  {
    assert (items + [b])[..|items|] == items;
  }

  /** The body of the grouping loop for one event: bump its counter and collect its non-null figures. */
  method Accumulate(stats: KeyStats, item: BatchItem) returns (r: KeyStats)
    ensures r == AddItem(stats, item)
  {
    r := stats;
    if item.kind == Update {
      r := r.(updateCount := r.updateCount + 1);
    } else {
      r := r.(deleteCount := r.deleteCount + 1);
    }
    if item.priceValue.Some? {
      r := r.(priceValues := r.priceValues + [item.priceValue.value]);
    }
    if item.priceUsd.Some? {
      r := r.(priceUsds := r.priceUsds + [item.priceUsd.value]);
    }
    if item.keysAmount.Some? {
      r := r.(keysAmounts := r.keysAmounts + [item.keysAmount.value]);
    }
    if item.metalAmount.Some? {
      r := r.(metalAmounts := r.metalAmounts + [item.metalAmount.value]);
    }
  }

  /** The grouping loop over `batchItems`, filling `itemsToUpsert` and `statsByKey`. */
  method GroupBatch(batchItems: seq<BatchItem>) returns (itemsToUpsert: map<string, ItemData>, statsByKey: map<Key, KeyStats>)
    ensures itemsToUpsert == FirstSeen(batchItems)
    ensures statsByKey == Group(batchItems)
  {
    itemsToUpsert := map[];
    statsByKey := map[];
    for i := 0 to |batchItems|
      invariant itemsToUpsert == FirstSeen(batchItems[..i])
      invariant statsByKey == Group(batchItems[..i])
    {
      var item := batchItems[i];
      assert batchItems[..i + 1] == batchItems[..i] + [item];
      FirstSeenSnoc(batchItems[..i], item);
      GroupSnoc(batchItems[..i], item);
      if item.itemName !in itemsToUpsert {
        itemsToUpsert := itemsToUpsert[item.itemName := ItemDataOf(item)];
      }
      statsByKey := CountItem(statsByKey, item);
    }
    assert batchItems[..|batchItems|] == batchItems;
  }

  /** Counts one event under its key, creating the key's empty accumulator first when it is new. */
  method CountItem(statsByKey: map<Key, KeyStats>, item: BatchItem) returns (r: map<Key, KeyStats>)
    ensures r == statsByKey[KeyOf(item) := AddItem(if KeyOf(item) in statsByKey then statsByKey[KeyOf(item)] else EmptyStats, item)]
  {
    var hourKey := KeyOf(item);
    r := statsByKey;
    if hourKey !in r {
      r := r[hourKey := EmptyStats];
    }
    var stats := Accumulate(r[hourKey], item);
    r := r[hourKey := stats];
  }

  lemma {:induction false} FirstSeenNamesGroup(items: seq<BatchItem>, k: Key)
    requires k in Group(items)
    ensures k.itemName in FirstSeen(items)
  {
    GroupIsStatsOf(items);
    var i :| 0 <= i < |items| && KeyOf(items[i]) == k;
    FirstSeenNames(items, k.itemName);
  }

  /*
   * Merging into the hourly table.
   */

  /** The averages a batch computes for one key (`avgPriceValue` … `avgMetalAmount`). */
  function BatchAverages(s: KeyStats): (a: Averages)
    ensures forall f :: a.Get(f) == Mean(s.Values(f))
  {
    AveragesFrom(f => Mean(s.Values(f)))
  }

  /**
   * The UPDATE of an existing hourly row: counts are added, and an average
   * column is written only when its merged value is non-null. Because a merged
   * value is null only when both sides are null, skipping nulls stores exactly
   * the merged averages, and an average the row had is never lost. Wherever
   * the division as written gives a number, that number is stored.
   */
  function UpdateRow(existing: HourlyRow, s: KeyStats): (r: HourlyRow)
    ensures r.updateCount == existing.updateCount + s.updateCount
    ensures r.deleteCount == existing.deleteCount + s.deleteCount
    ensures forall f :: r.avgs.Get(f) == MergeField(existing.avgs.Get(f), existing.updateCount, Mean(s.Values(f)), s.updateCount)
    ensures forall f :: existing.avgs.Get(f).Some? ==> r.avgs.Get(f).Some?
    ensures forall f ::
      var asWritten := MergeFieldAsWritten(existing.avgs.Get(f), existing.updateCount, Mean(s.Values(f)), s.updateCount);
      asWritten != Some(NaN) ==> AsNum(r.avgs.Get(f)) == asWritten
  {
    var merged := AveragesFrom(f => MergeField(existing.avgs.Get(f), existing.updateCount, Mean(s.Values(f)), s.updateCount));
    HourlyRow(
      existing.updateCount + s.updateCount,
      existing.deleteCount + s.deleteCount,
      AveragesFrom(f => if merged.Get(f).Some? then merged.Get(f) else existing.avgs.Get(f)))
  }

  /** The row inserted for a key the table does not have yet. */
  function NewRow(s: KeyStats): HourlyRow {
    HourlyRow(s.updateCount, s.deleteCount, BatchAverages(s))
  }

  /** The hourly row for a key after the batch, whether it existed before or not. */
  function Upserted(existing: Option<HourlyRow>, s: KeyStats): HourlyRow {
    if existing.Some? then UpdateRow(existing.value, s) else NewRow(s)
  }

  lemma {:induction false} UpsertedCounts(existing: Option<HourlyRow>, s: KeyStats)
    ensures Upserted(existing, s).updateCount == (if existing.Some? then existing.value.updateCount else 0) + s.updateCount
    ensures Upserted(existing, s).deleteCount == (if existing.Some? then existing.value.deleteCount else 0) + s.deleteCount
  {
  }

  /** The hourly table after a grouped batch: keys of the batch are upserted, all other rows are kept. */
  function ApplyBatch(t: HourlyTable, stats: map<Key, KeyStats>): HourlyTable {
    map k | k in t.Keys + stats.Keys ::
      if k in stats then Upserted(if k in t then Some(t[k]) else None, stats[k]) else t[k]
  }

  /** The batch's keys are upserted and every other row is kept as it was. */
  lemma {:induction false} ApplyBatchUpserts(t: HourlyTable, stats: map<Key, KeyStats>)
    ensures var r := ApplyBatch(t, stats);
      && r.Keys == t.Keys + stats.Keys
      && (forall k :: k in stats ==> r[k] == Upserted(if k in t then Some(t[k]) else None, stats[k]))
      && forall k :: k in t && k !in stats ==> r[k] == t[k]
  {
  }

  /*
   * Finding the stored rows. The source looks a key up through its text form:
   * it splits `${itemName}_${hourIso}` with `split('_', 2)` into a name and an
   * hour text, selects the stored rows with that name and `new Date(hourText)`,
   * and files the rows it gets back under `${itemName}_${hourIso}` again. The
   * ISO text of an hour contains no '_' and parses back to that hour, so a key
   * whose name has no '_' finds its stored row (`ParseKeyRoundTrip`). A name
   * containing '_' is cut at its first '_': the query asks for another name
   * with a piece of the name as the hour text (`HourTextOfKey`), and no row
   * it returns is filed under the original key
   * (`LookupMatchesOnlyPlainNames`). Whether JavaScript's `Date` accepts a
   * text is an input of the model, `validDate`.
   */

  /** The hour text the split yields for a key whose name contains '_'. */
  function HourTextOf(itemName: string): string {
    ParseKey(itemName).1.GetOr("")
  }

  /**
   * The lookup query throws: some key's name contains '_' and yields an hour
   * text that is no date, and binding an invalid `Date` fails.
   */
  predicate LookupThrows(statsByKey: map<Key, KeyStats>, validDate: string -> bool) {
    exists k :: k in statsByKey && '_' in k.itemName && !validDate(HourTextOf(k.itemName))
  }

  /** Whether the lookup finds the stored row of key `k`. */
  predicate FoundByLookup(table: HourlyTable, k: Key) {
    k in table && '_' !in k.itemName
  }

  /** Some key has a stored row the lookup misses, so the insert repeats its (item, hour). */
  predicate RowHiddenFromLookup(table: HourlyTable, statsByKey: map<Key, KeyStats>) {
    exists k :: k in statsByKey && k in table && '_' in k.itemName
  }

  /**
   * What the loop over `statsByKey` has done once the keys in `remaining` are
   * left: every visited key whose stored row was `found` has been updated in
   * place, and every other visited key is queued exactly once for the insert.
   */
  ghost predicate Visited(table: HourlyTable, statsByKey: map<Key, KeyStats>, found: set<Key>, remaining: set<Key>,
                          updated: HourlyTable, valuesToUpsert: seq<HourlyRecord>)
  {
    && remaining <= statsByKey.Keys
    && found <= statsByKey.Keys && found <= table.Keys
    && UpdatedInPlace(table, statsByKey, found, remaining, updated)
    && Queued(statsByKey, found, remaining, valuesToUpsert)
    && QueuedAll(statsByKey, found, remaining, valuesToUpsert)
    && DistinctKeys(valuesToUpsert)
  }

  ghost predicate UpdatedInPlace(table: HourlyTable, statsByKey: map<Key, KeyStats>, found: set<Key>, remaining: set<Key>,
                                 updated: HourlyTable) {
    && updated.Keys == table.Keys
    && forall k :: k in table ==>
         updated[k] == if k in found && k in statsByKey && k !in remaining then UpdateRow(table[k], statsByKey[k]) else table[k]
  }

  ghost predicate Queued(statsByKey: map<Key, KeyStats>, found: set<Key>, remaining: set<Key>, valuesToUpsert: seq<HourlyRecord>) {
    forall i :: 0 <= i < |valuesToUpsert| ==>
      && valuesToUpsert[i].key in statsByKey
      && valuesToUpsert[i].key !in found
      && valuesToUpsert[i].key !in remaining
      && valuesToUpsert[i].row == NewRow(statsByKey[valuesToUpsert[i].key])
  }

  ghost predicate QueuedAll(statsByKey: map<Key, KeyStats>, found: set<Key>, remaining: set<Key>, valuesToUpsert: seq<HourlyRecord>) {
    forall k :: k in statsByKey && k !in found && k !in remaining ==>
      exists i :: 0 <= i < |valuesToUpsert| && valuesToUpsert[i].key == k
  }

  ghost predicate DistinctKeys(rows: seq<HourlyRecord>) {
    forall i, j :: 0 <= i < j < |rows| ==> rows[i].key != rows[j].key
  }

  /**
   * Once every key is visited and every stored row of a batch key was found,
   * the updates plus the queued insert give `ApplyBatch`.
   */
  lemma {:induction false} VisitedAll(catalog: Catalog, table: HourlyTable, statsByKey: map<Key, KeyStats>, found: set<Key>,
                   updated: HourlyTable, valuesToUpsert: seq<HourlyRecord>)
    requires forall k :: k in statsByKey ==> k.itemName in catalog
    requires Visited(table, statsByKey, found, {}, updated, valuesToUpsert)
    requires forall k :: k in statsByKey && k in table ==> k in found
    ensures InsertHourly(catalog, updated, valuesToUpsert) == Ok(ApplyBatch(table, statsByKey))
  {
    InsertHourlySucceeds(catalog, updated, valuesToUpsert);
    var r := InsertHourly(catalog, updated, valuesToUpsert);
    assert r.Ok?;
    InsertHourlyWrites(catalog, updated, valuesToUpsert);
    InsertedIsApplyBatch(table, statsByKey, found, updated, valuesToUpsert, r.value);
  }

  /** A stored row the loop did not find is queued again, and the insert fails on its key. */
  lemma {:induction false} VisitedMissedRow(catalog: Catalog, table: HourlyTable, statsByKey: map<Key, KeyStats>, found: set<Key>,
                         updated: HourlyTable, valuesToUpsert: seq<HourlyRecord>, k: Key)
    requires Visited(table, statsByKey, found, {}, updated, valuesToUpsert)
    requires k in statsByKey && k in table && k !in found
    ensures |valuesToUpsert| > 0 && InsertHourly(catalog, updated, valuesToUpsert).Err?
  {
    var i :| 0 <= i < |valuesToUpsert| && valuesToUpsert[i].key == k;
    assert valuesToUpsert[i].key in updated;
    InsertHourlySucceeds(catalog, updated, valuesToUpsert);
  }

  /** A table holding the updated rows and the queued ones is the one `ApplyBatch` describes. */
  lemma {:induction false} InsertedIsApplyBatch(table: HourlyTable, statsByKey: map<Key, KeyStats>, found: set<Key>,
                             updated: HourlyTable, valuesToUpsert: seq<HourlyRecord>, inserted: HourlyTable)
    requires Visited(table, statsByKey, found, {}, updated, valuesToUpsert)
    requires forall k :: k in statsByKey && k in table ==> k in found
    requires inserted.Keys == updated.Keys + set i | 0 <= i < |valuesToUpsert| :: valuesToUpsert[i].key
    requires forall i :: 0 <= i < |valuesToUpsert| ==> inserted[valuesToUpsert[i].key] == valuesToUpsert[i].row
    requires forall k :: k in updated ==> inserted[k] == updated[k]
    ensures inserted == ApplyBatch(table, statsByKey)
  {
    var expected := ApplyBatch(table, statsByKey);
    ApplyBatchUpserts(table, statsByKey);
    InsertedKeys(table, statsByKey, found, updated, valuesToUpsert, inserted);
    forall k | k in expected ensures k in inserted && inserted[k] == expected[k] {
      InsertedRow(table, statsByKey, found, updated, valuesToUpsert, inserted, k);
    }
  }

  /** After the insert the table holds the stored keys and the batch's keys. */
  lemma {:induction false} InsertedKeys(table: HourlyTable, statsByKey: map<Key, KeyStats>, found: set<Key>,
                     updated: HourlyTable, valuesToUpsert: seq<HourlyRecord>, inserted: HourlyTable)
    requires Visited(table, statsByKey, found, {}, updated, valuesToUpsert)
    requires inserted.Keys == updated.Keys + set i | 0 <= i < |valuesToUpsert| :: valuesToUpsert[i].key
    ensures inserted.Keys == table.Keys + statsByKey.Keys
  {
    forall k | k in statsByKey && k !in table ensures k in inserted {
      var i :| 0 <= i < |valuesToUpsert| && valuesToUpsert[i].key == k;
    }
  }

  /** Each key's row after the insert is the one `ApplyBatch` gives it. */
  lemma {:induction false} InsertedRow(table: HourlyTable, statsByKey: map<Key, KeyStats>, found: set<Key>,
                    updated: HourlyTable, valuesToUpsert: seq<HourlyRecord>, inserted: HourlyTable, k: Key)
    requires Visited(table, statsByKey, found, {}, updated, valuesToUpsert)
    requires forall k :: k in statsByKey && k in table ==> k in found
    requires forall i :: 0 <= i < |valuesToUpsert| ==> valuesToUpsert[i].key in inserted && inserted[valuesToUpsert[i].key] == valuesToUpsert[i].row
    requires forall k :: k in updated ==> k in inserted && inserted[k] == updated[k]
    requires k in table || k in statsByKey
    ensures k in inserted && inserted[k] == if k in statsByKey then Upserted(if k in table then Some(table[k]) else None, statsByKey[k]) else table[k]
  {
    if k !in table {
      var i :| 0 <= i < |valuesToUpsert| && valuesToUpsert[i].key == k;
    }
  }

  /** Visiting a key whose stored row was found updates that row. */
  lemma {:induction false} VisitExisting(table: HourlyTable, statsByKey: map<Key, KeyStats>, found: set<Key>, remaining: set<Key>,
                      updated: HourlyTable, valuesToUpsert: seq<HourlyRecord>, hourKey: Key)
    requires Visited(table, statsByKey, found, remaining, updated, valuesToUpsert)
    requires hourKey in remaining && hourKey in found
    ensures Visited(table, statsByKey, found, remaining - {hourKey},
                    updated[hourKey := UpdateRow(table[hourKey], statsByKey[hourKey])], valuesToUpsert)
  {
    VisitExistingUpdates(table, statsByKey, found, remaining, updated, hourKey);
    QueuedShrinks(statsByKey, found, remaining, valuesToUpsert, hourKey);
    QueuedAllShrinks(statsByKey, found, remaining, valuesToUpsert, hourKey);
  }

  lemma {:induction false} VisitExistingUpdates(table: HourlyTable, statsByKey: map<Key, KeyStats>, found: set<Key>, remaining: set<Key>,
                             updated: HourlyTable, hourKey: Key)
    requires UpdatedInPlace(table, statsByKey, found, remaining, updated)
    requires hourKey in remaining && hourKey in table && hourKey in statsByKey && hourKey in found
    ensures UpdatedInPlace(table, statsByKey, found, remaining - {hourKey},
                           updated[hourKey := UpdateRow(table[hourKey], statsByKey[hourKey])])
  {
  }

  /** Visiting one more key keeps every queued row queued. */
  lemma {:induction false} QueuedShrinks(statsByKey: map<Key, KeyStats>, found: set<Key>, remaining: set<Key>,
                      valuesToUpsert: seq<HourlyRecord>, hourKey: Key)
    requires Queued(statsByKey, found, remaining, valuesToUpsert)
    ensures Queued(statsByKey, found, remaining - {hourKey}, valuesToUpsert)
  {
  }

  /** Visiting a key whose stored row was found queues nothing new. */
  lemma {:induction false} QueuedAllShrinks(statsByKey: map<Key, KeyStats>, found: set<Key>, remaining: set<Key>,
                         valuesToUpsert: seq<HourlyRecord>, hourKey: Key)
    requires QueuedAll(statsByKey, found, remaining, valuesToUpsert)
    requires hourKey in found
    ensures QueuedAll(statsByKey, found, remaining - {hourKey}, valuesToUpsert)
  {
  }

  /** Visiting a key without a found row queues a new row for it. */
  lemma {:induction false} VisitNew(table: HourlyTable, statsByKey: map<Key, KeyStats>, found: set<Key>, remaining: set<Key>,
                 updated: HourlyTable, valuesToUpsert: seq<HourlyRecord>, hourKey: Key)
    requires Visited(table, statsByKey, found, remaining, updated, valuesToUpsert)
    requires hourKey in remaining && hourKey !in found
    ensures Visited(table, statsByKey, found, remaining - {hourKey},
                    updated, valuesToUpsert + [HourlyRecord(hourKey, NewRow(statsByKey[hourKey]))])
  {
    var row := HourlyRecord(hourKey, NewRow(statsByKey[hourKey]));
    VisitNewKeepsUpdates(table, statsByKey, found, remaining, updated, hourKey);
    VisitNewQueues(statsByKey, found, remaining, valuesToUpsert, row);
    VisitNewQueuesAll(statsByKey, found, remaining, valuesToUpsert, row);
    VisitNewDistinct(statsByKey, found, remaining, valuesToUpsert, row);
  }

  lemma {:induction false} VisitNewKeepsUpdates(table: HourlyTable, statsByKey: map<Key, KeyStats>, found: set<Key>, remaining: set<Key>,
                             updated: HourlyTable, hourKey: Key)
    requires UpdatedInPlace(table, statsByKey, found, remaining, updated)
    requires hourKey !in found
    ensures UpdatedInPlace(table, statsByKey, found, remaining - {hourKey}, updated)
  {
    forall k | k in table
      ensures updated[k] == if k in found && k in statsByKey && k !in remaining - {hourKey} then UpdateRow(table[k], statsByKey[k]) else table[k]
    {
      assert (k in found && k !in remaining - {hourKey}) == (k in found && k !in remaining);
    }
  }

  lemma {:induction false} VisitNewQueues(statsByKey: map<Key, KeyStats>, found: set<Key>, remaining: set<Key>,
                       valuesToUpsert: seq<HourlyRecord>, row: HourlyRecord)
    requires Queued(statsByKey, found, remaining, valuesToUpsert)
    requires row.key in remaining && row.key in statsByKey && row.key !in found && row.row == NewRow(statsByKey[row.key])
    ensures Queued(statsByKey, found, remaining - {row.key}, valuesToUpsert + [row])
  {
    var values' := valuesToUpsert + [row];
    forall i | 0 <= i < |values'|
      ensures && values'[i].key in statsByKey
              && values'[i].key !in found
              && values'[i].key !in remaining - {row.key}
              && values'[i].row == NewRow(statsByKey[values'[i].key])
    {
      if i < |valuesToUpsert| {
        assert values'[i] == valuesToUpsert[i];
      }
    }
  }

  lemma {:induction false} VisitNewQueuesAll(statsByKey: map<Key, KeyStats>, found: set<Key>, remaining: set<Key>,
                          valuesToUpsert: seq<HourlyRecord>, row: HourlyRecord)
    requires QueuedAll(statsByKey, found, remaining, valuesToUpsert)
    ensures QueuedAll(statsByKey, found, remaining - {row.key}, valuesToUpsert + [row])
  {
    var values' := valuesToUpsert + [row];
    forall k | k in statsByKey && k !in found && k !in remaining - {row.key}
      ensures exists i :: 0 <= i < |values'| && values'[i].key == k
    {
      if k == row.key {
        assert values'[|valuesToUpsert|].key == k;
      } else {
        var i :| 0 <= i < |valuesToUpsert| && valuesToUpsert[i].key == k;
        assert values'[i].key == k;
      }
    }
  }

  lemma {:induction false} VisitNewDistinct(statsByKey: map<Key, KeyStats>, found: set<Key>, remaining: set<Key>,
                         valuesToUpsert: seq<HourlyRecord>, row: HourlyRecord)
    requires Queued(statsByKey, found, remaining, valuesToUpsert) && DistinctKeys(valuesToUpsert)
    requires row.key in remaining
    ensures DistinctKeys(valuesToUpsert + [row])
  {
    var values' := valuesToUpsert + [row];
    forall i, j | 0 <= i < j < |values'| ensures values'[i].key != values'[j].key {
      assert values'[i] == valuesToUpsert[i];
      if j < |valuesToUpsert| {
        assert values'[j] == valuesToUpsert[j];
      }
    }
  }

  /**
   * The hourly upsert: look up the stored rows, update the ones found, collect
   * the others and insert them in one statement. Given that every item of the
   * batch is already in the catalog, it fails exactly when the lookup throws
   * or a stored row was missed, and otherwise leaves the table as
   * `ApplyBatch` describes, whatever order the keys are visited in.
   */
  method UpsertHourlyStats(catalog: Catalog, table: HourlyTable, statsByKey: map<Key, KeyStats>, validDate: string -> bool)
    returns (r: Result<HourlyTable, DbError>)
    requires forall k :: k in statsByKey ==> k.itemName in catalog
    ensures LookupThrows(statsByKey, validDate) ==> r.Err? && r.error.InvalidTimestamp?
    ensures r.Ok? <==> !LookupThrows(statsByKey, validDate) && !RowHiddenFromLookup(table, statsByKey)
    ensures r.Ok? ==> r.value == ApplyBatch(table, statsByKey)
  {
    if k :| k in statsByKey && '_' in k.itemName && !validDate(HourTextOf(k.itemName)) {
      return Err(InvalidTimestamp(HourTextOf(k.itemName)));
    }
    var existingStats := map k | k in statsByKey && FoundByLookup(table, k) :: table[k];
    ghost var found := existingStats.Keys;
    var updated := table;
    var valuesToUpsert: seq<HourlyRecord> := [];
    var remaining := statsByKey.Keys;
    while remaining != {}
      invariant Visited(table, statsByKey, found, remaining, updated, valuesToUpsert)
      decreases |remaining|
    {
      var hourKey :| hourKey in remaining;
      var stat := statsByKey[hourKey];
      if hourKey in existingStats {
        VisitExisting(table, statsByKey, found, remaining, updated, valuesToUpsert, hourKey);
        updated := updated[hourKey := UpdateRow(existingStats[hourKey], stat)];
      } else {
        VisitNew(table, statsByKey, found, remaining, updated, valuesToUpsert, hourKey);
        valuesToUpsert := valuesToUpsert + [HourlyRecord(hourKey, NewRow(stat))];
      }
      remaining := remaining - {hourKey};
    }
    if |valuesToUpsert| > 0 {
      r := InsertHourly(catalog, updated, valuesToUpsert);
    } else {
      r := Ok(updated);
    }
    if missed :| missed in statsByKey && missed in table && '_' in missed.itemName {
      VisitedMissedRow(catalog, table, statsByKey, found, updated, valuesToUpsert, missed);
    } else {
      VisitedAll(catalog, table, statsByKey, found, updated, valuesToUpsert);
    }
  }

  /*
   * The catalog upsert.
   */

  /**
   * `INSERT … ON CONFLICT (item_name) DO UPDATE`: every item of the batch gets
   * the batch's quality, image and colour and a fresh `updatedAt`; a new item
   * also gets `createdAt`, an existing one keeps it; other items are untouched.
   */
  function UpsertCatalog(catalog: Catalog, items: map<string, ItemData>, now: int): Catalog {
    map n | n in catalog.Keys + items.Keys ::
      if n in items then
        CatalogEntry(items[n].qualityName, items[n].imageUrl, items[n].color,
          if n in catalog then catalog[n].createdAt else now, now)
      else catalog[n]
  }

  /**
   * Every item of the batch ends up in the catalog with the batch's data and
   * `updatedAt = now`, keeping its `createdAt` when it was already there;
   * other items are untouched.
   */
  lemma {:induction false} UpsertCatalogWrites(catalog: Catalog, items: map<string, ItemData>, now: int)
    ensures var r := UpsertCatalog(catalog, items, now);
      && r.Keys == catalog.Keys + items.Keys
      && (forall n :: n in items ==>
        && r[n].qualityName == items[n].qualityName
        && r[n].imageUrl == items[n].imageUrl
        && r[n].color == items[n].color
        && r[n].updatedAt == now
        && r[n].createdAt == (if n in catalog then catalog[n].createdAt else now))
      && forall n :: n in catalog && n !in items ==> r[n] == catalog[n]
  {
  }

  /** The catalog and hourly table after one batch of batch items read at `now`. */
  function Ingest(catalog: Catalog, hourly: HourlyTable, batchItems: seq<BatchItem>, now: int): (r: (Catalog, HourlyTable))
    ensures ReferencesCatalog(catalog, hourly) ==> ReferencesCatalog(r.0, r.1)
    ensures batchItems == [] ==> r == (catalog, hourly)
  {
    var c := UpsertCatalog(catalog, FirstSeen(batchItems), now);
    var h := ApplyBatch(hourly, Group(batchItems));
    UpsertCatalogWrites(catalog, FirstSeen(batchItems), now);
    ApplyBatchUpserts(hourly, Group(batchItems));
    forall k | k in Group(batchItems) ensures k.itemName in c {
      FirstSeenNamesGroup(batchItems, k);
    }
    assert batchItems == [] ==> c == catalog && h == hourly;
    (c, h)
  }

  /**
   * Whether the transaction on a batch commits: the hourly lookup does not
   * throw and finds every stored row of the batch's keys. Otherwise it rolls
   * back, the catalog upsert included.
   */
  predicate IngestCommits(hourly: HourlyTable, batchItems: seq<BatchItem>, validDate: string -> bool) {
    !LookupThrows(Group(batchItems), validDate) && !RowHiddenFromLookup(hourly, Group(batchItems))
  }

  /**
   * The whole transaction on a batch of batch items: upsert the catalog, then
   * the hourly rows. The catalog upsert puts every item of the batch in the
   * catalog first, so the hourly insert never breaks the foreign key; it
   * commits with the tables of `Ingest` exactly when `IngestCommits`.
   */
  method IngestBatch(catalog: Catalog, hourly: HourlyTable, batchItems: seq<BatchItem>, now: int, validDate: string -> bool)
    returns (r: Result<(Catalog, HourlyTable), DbError>)
    ensures r.Ok? <==> IngestCommits(hourly, batchItems, validDate)
    ensures r.Ok? ==> r.value == Ingest(catalog, hourly, batchItems, now)
  {
    var itemsToUpsert, statsByKey := GroupBatch(batchItems);
    var newCatalog := catalog;
    if |itemsToUpsert| > 0 {
      newCatalog := UpsertCatalog(catalog, itemsToUpsert, now);
    } else {
      UpsertNothing(catalog, itemsToUpsert, now);
    }
    IngestIs(catalog, hourly, batchItems, now);
    if |statsByKey| == 0 {
      EmptyBatchCommits(hourly, batchItems, validDate);
      return Ok((newCatalog, hourly));
    }
    CatalogCoversBatch(catalog, batchItems, now);
    var u := UpsertHourlyStats(newCatalog, hourly, statsByKey, validDate);
    if u.Err? {
      return Err(u.error);
    }
    r := Ok((newCatalog, u.value));
  }

  lemma {:induction false} IngestIs(catalog: Catalog, hourly: HourlyTable, batchItems: seq<BatchItem>, now: int)
    ensures Ingest(catalog, hourly, batchItems, now) == (UpsertCatalog(catalog, FirstSeen(batchItems), now), ApplyBatch(hourly, Group(batchItems)))
  {
  }

  /** A batch without keys writes no hourly row and commits. */
  lemma {:induction false} EmptyBatchCommits(hourly: HourlyTable, batchItems: seq<BatchItem>, validDate: string -> bool)
    requires |Group(batchItems)| == 0
    ensures ApplyBatch(hourly, Group(batchItems)) == hourly
    ensures IngestCommits(hourly, batchItems, validDate)
  {
    ApplyNothing(hourly, Group(batchItems));
    assert Group(batchItems) == map[];
  }

  /** After the catalog upsert every item of the batch is in the catalog. */
  lemma {:induction false} CatalogCoversBatch(catalog: Catalog, batchItems: seq<BatchItem>, now: int)
    ensures forall k :: k in Group(batchItems) ==> k.itemName in UpsertCatalog(catalog, FirstSeen(batchItems), now)
  {
    UpsertCatalogWrites(catalog, FirstSeen(batchItems), now);
    forall k | k in Group(batchItems) ensures k.itemName in UpsertCatalog(catalog, FirstSeen(batchItems), now) {
      FirstSeenNamesGroup(batchItems, k);
    }
  }

  /** A batch whose item names contain no '_' always commits. */
  lemma {:induction false} CommitsWithoutUnderscores(hourly: HourlyTable, batchItems: seq<BatchItem>, validDate: string -> bool)
    requires forall i :: 0 <= i < |batchItems| ==> '_' !in batchItems[i].itemName
    ensures IngestCommits(hourly, batchItems, validDate)
  {
    GroupIsStatsOf(batchItems);
    forall k | k in Group(batchItems) ensures '_' !in k.itemName {
      var i :| 0 <= i < |batchItems| && KeyOf(batchItems[i]) == k;
    }
  }

  /**
   * A batch item whose name contains '_' rolls the whole batch back when its
   * (item, hour) row is already stored, or when the hour text cut from its
   * name is no date.
   */
  lemma {:induction false} UnderscoreNameRollsBack(hourly: HourlyTable, batchItems: seq<BatchItem>, validDate: string -> bool, i: nat)
    requires i < |batchItems| && '_' in batchItems[i].itemName
    requires KeyOf(batchItems[i]) in hourly || !validDate(HourTextOf(batchItems[i].itemName))
    ensures !IngestCommits(hourly, batchItems, validDate)
  {
    GroupIsStatsOf(batchItems);
    assert KeyOf(batchItems[i]) in KeysOf(batchItems);
  }

  /**
   * A batch item whose name contains '_', whose hour text is a date and whose
   * row is new is stored correctly when the rest of the batch commits.
   */
  lemma {:induction false} NewUnderscoreRowCommits(hourly: HourlyTable, b: BatchItem, validDate: string -> bool)
    requires '_' in b.itemName && validDate(HourTextOf(b.itemName)) && KeyOf(b) !in hourly
    ensures IngestCommits(hourly, [b], validDate)
  {
    GroupSingle(b);
  }

  /** A batch without items leaves the catalog as it is. */
  lemma {:induction false} UpsertNothing(catalog: Catalog, items: map<string, ItemData>, now: int)
    requires |items| == 0
    ensures UpsertCatalog(catalog, items, now) == catalog
  {
    assert items == map[];
  }

  /** A batch without keys leaves the hourly table as it is. */
  lemma {:induction false} ApplyNothing(t: HourlyTable, stats: map<Key, KeyStats>)
    requires |stats| == 0
    ensures ApplyBatch(t, stats) == t
  {
    assert stats == map[];
  }

  /*
   * Properties across batches.
   */

  lemma {:induction false} CountAppend(a: seq<BatchItem>, b: seq<BatchItem>, k: Key, kind: Kind)
    ensures Count(a + b, k, kind) == Count(a, k, kind) + Count(b, k, kind)
    decreases |b|
  {
    if b == [] {
      assert a + b == a;
    } else {
      var b' := b[..|b| - 1];
      assert (a + b)[..|a + b| - 1] == a + b';
      CountAppend(a, b', k, kind);
    }
  }

  lemma {:induction false} FiguresAppend(a: seq<BatchItem>, b: seq<BatchItem>, k: Key, f: Field)
    ensures Figures(a + b, k, f) == Figures(a, k, f) + Figures(b, k, f)
    decreases |b|
  {
    if b == [] {
      assert a + b == a;
    } else {
      var b' := b[..|b| - 1];
      assert (a + b)[..|a + b| - 1] == a + b';
      FiguresAppend(a, b', k, f);
    }
  }

  /** Every event under a key is counted exactly once, as an update or as a delete. */
  lemma {:induction false} CountsCoverEvents(items: seq<BatchItem>, k: Key)
    ensures Count(items, k, Update) + Count(items, k, Delete) == |EventsWith(items, k)|
    decreases |items|
  {
    if items != [] {
      CountsCoverEvents(items[..|items| - 1], k);
    }
  }

  /**
   * Where a stream is cut into batches does not change the stored counts:
   * ingesting `a` and then `b` leaves the same keys, and under every key the
   * same update and delete counts, as ingesting `a + b` at once.
   */
  lemma {:induction false} BatchBoundaryKeepsCounts(t: HourlyTable, a: seq<BatchItem>, b: seq<BatchItem>, k: Key)
    ensures var twice := ApplyBatch(ApplyBatch(t, Group(a)), Group(b));
            var once := ApplyBatch(t, Group(a + b));
            && (k in twice <==> k in once)
            && (k in twice ==> twice[k].updateCount == once[k].updateCount && twice[k].deleteCount == once[k].deleteCount)
  {
    if k in Group(a) && k in Group(b) {
      GroupCountsAppend(a, b, k);
      var t1 := ApplyBatch(t, Group(a));
      ApplyBatchUpserts(t, Group(a));
      ApplyBatchUpserts(t1, Group(b));
      ApplyBatchUpserts(t, Group(a + b));
      ApplyBatchCounts(t, Group(a), k);
      ApplyBatchCounts(t1, Group(b), k);
      ApplyBatchCounts(t, Group(a + b), k);
    } else {
      OneBatchHasKey(t, a, b, k);
    }
  }

  /** The keys of two batches together are the keys of each. */
  lemma {:induction false} KeysOfAppend(a: seq<BatchItem>, b: seq<BatchItem>)
    ensures KeysOf(a + b) == KeysOf(a) + KeysOf(b)
  {
    forall x | x in KeysOf(a + b) ensures x in KeysOf(a) + KeysOf(b) {
      var i :| 0 <= i < |a + b| && KeyOf((a + b)[i]) == x;
      if i < |a| {
        assert (a + b)[i] == a[i];
      } else {
        assert (a + b)[i] == b[i - |a|];
      }
    }
    forall x | x in KeysOf(a) ensures x in KeysOf(a + b) {
      var i :| 0 <= i < |a| && KeyOf(a[i]) == x;
      assert (a + b)[i] == a[i];
    }
    forall x | x in KeysOf(b) ensures x in KeysOf(a + b) {
      var i :| 0 <= i < |b| && KeyOf(b[i]) == x;
      assert (a + b)[|a| + i] == b[i];
    }
  }

  /** A key absent from one batch accumulates over both what it accumulates over the other. */
  lemma {:induction false} StatsOfAppendAbsent(a: seq<BatchItem>, b: seq<BatchItem>, k: Key)
    requires k !in KeysOf(a) || k !in KeysOf(b)
    ensures k !in KeysOf(b) ==> StatsOf(a + b, k) == StatsOf(a, k)
    ensures k !in KeysOf(a) ==> StatsOf(a + b, k) == StatsOf(b, k)
  {
    if k !in KeysOf(a) {
      StatsOfAbsent(a, k);
    }
    if k !in KeysOf(b) {
      StatsOfAbsent(b, k);
    }
    CountAppend(a, b, k, Update);
    CountAppend(a, b, k, Delete);
    FiguresAppend(a, b, k, PriceValue);
    FiguresAppend(a, b, k, PriceUsd);
    FiguresAppend(a, b, k, KeysAmount);
    FiguresAppend(a, b, k, MetalAmount);
  }

  /**
   * A key in at most one of the two batches ends up with the same row whether
   * the batches are ingested one after the other or as one.
   */
  lemma {:induction false} OneBatchHasKey(t: HourlyTable, a: seq<BatchItem>, b: seq<BatchItem>, k: Key)
    requires !(k in Group(a) && k in Group(b))
    ensures var twice := ApplyBatch(ApplyBatch(t, Group(a)), Group(b));
            var once := ApplyBatch(t, Group(a + b));
            && (k in twice <==> k in once)
            && (k in twice ==> twice[k] == once[k])
  {
    GroupIsStatsOf(a);
    GroupIsStatsOf(b);
    GroupIsStatsOf(a + b);
    KeysOfAppend(a, b);
    var t1 := ApplyBatch(t, Group(a));
    ApplyBatchUpserts(t, Group(a));
    ApplyBatchUpserts(t1, Group(b));
    ApplyBatchUpserts(t, Group(a + b));
    if k in Group(a) || k in Group(b) {
      StatsOfAppendAbsent(a, b, k);
    }
  }

  /** The grouped counts of `a + b` are those of `a` plus those of `b`. */
  lemma {:induction false} GroupCountsAppend(a: seq<BatchItem>, b: seq<BatchItem>, k: Key)
    requires k in Group(a) && k in Group(b)
    ensures k in Group(a + b)
    ensures Group(a + b)[k].updateCount == Group(a)[k].updateCount + Group(b)[k].updateCount
    ensures Group(a + b)[k].deleteCount == Group(a)[k].deleteCount + Group(b)[k].deleteCount
  {
    GroupAppendKeys(a, b, k);
    GroupAt(a, k);
    GroupAt(b, k);
    GroupAt(a + b, k);
    CountAppend(a, b, k, Update);
    CountAppend(a, b, k, Delete);
  }

  /** The stored counts of a key after a batch are its old counts plus the batch's. */
  lemma {:induction false} ApplyBatchCounts(t: HourlyTable, stats: map<Key, KeyStats>, k: Key)
    requires k in stats
    ensures ApplyBatch(t, stats)[k].updateCount == (if k in t then t[k].updateCount else 0) + stats[k].updateCount
    ensures ApplyBatch(t, stats)[k].deleteCount == (if k in t then t[k].deleteCount else 0) + stats[k].deleteCount
  {
    ApplyBatchUpserts(t, stats);
    UpsertedCounts(if k in t then Some(t[k]) else None, stats[k]);
  }

  lemma {:induction false} GroupAppendKeys(a: seq<BatchItem>, b: seq<BatchItem>, k: Key)
    requires k in Group(a)
    ensures k in Group(a + b)
    ensures k in Group(a + b) ==> Group(a + b)[k] == StatsOf(a + b, k)
  {
    GroupIsStatsOf(a);
    GroupIsStatsOf(a + b);
    var i :| 0 <= i < |a| && KeyOf(a[i]) == k;
    assert (a + b)[i] == a[i];
  }

  /** When every event under `k` is an update carrying figure `f`, there are as many figures as updates. */
  lemma {:induction false} FiguresMatchUpdates(items: seq<BatchItem>, k: Key, f: Field)
    requires forall i :: 0 <= i < |items| && KeyOf(items[i]) == k ==> items[i].kind == Update && items[i].Get(f).Some?
    ensures |Figures(items, k, f)| == Count(items, k, Update)
    decreases |items|
  {
    if items != [] {
      FiguresMatchUpdates(items[..|items| - 1], k, f);
    }
  }

  /**
   * The update-count weighting is what makes batch boundaries invisible: for a
   * key whose events are all updates carrying figure `f`, ingesting `a` and
   * then `b` stores the same average as ingesting `a + b` at once, provided a
   * stored row without that average has no updates (`StoredWeightWithoutAverage`
   * shows the proviso is needed); for a new key it is the mean of all of the
   * figures.
   */
  lemma {:induction false} BatchBoundaryKeepsMean(t: HourlyTable, a: seq<BatchItem>, b: seq<BatchItem>, k: Key, f: Field)
    requires k in Group(a) || k in Group(b)
    requires forall i :: 0 <= i < |a| && KeyOf(a[i]) == k ==> a[i].kind == Update && a[i].Get(f).Some?
    requires forall i :: 0 <= i < |b| && KeyOf(b[i]) == k ==> b[i].kind == Update && b[i].Get(f).Some?
    requires k in t ==> t[k].avgs.Get(f).Some? || t[k].updateCount == 0
    ensures k in Group(a + b)
    ensures k in ApplyBatch(ApplyBatch(t, Group(a)), Group(b))
    ensures ApplyBatch(ApplyBatch(t, Group(a)), Group(b))[k].avgs.Get(f) == ApplyBatch(t, Group(a + b))[k].avgs.Get(f)
    ensures k !in t ==> ApplyBatch(ApplyBatch(t, Group(a)), Group(b))[k].avgs.Get(f) == Mean(Figures(a + b, k, f))
  {
    GroupIsStatsOf(a);
    GroupIsStatsOf(b);
    GroupIsStatsOf(a + b);
    KeysOfAppend(a, b);
    FiguresAppend(a, b, k, f);
    var t1 := ApplyBatch(t, Group(a));
    ApplyBatchUpserts(t, Group(a));
    ApplyBatchUpserts(t1, Group(b));
    ApplyBatchUpserts(t, Group(a + b));
    if k in Group(a) && k in Group(b) {
      BothBatchesKeepMean(t, a, b, k, f);
    } else {
      OneBatchHasKey(t, a, b, k);
      if k !in t {
        StatsOfAppendAbsent(a, b, k);
      }
    }
  }

  /** `BatchBoundaryKeepsMean` for a key that both batches have. */
  lemma {:induction false} BothBatchesKeepMean(t: HourlyTable, a: seq<BatchItem>, b: seq<BatchItem>, k: Key, f: Field)
    requires k in Group(a) && k in Group(b)
    requires forall i :: 0 <= i < |a| && KeyOf(a[i]) == k ==> a[i].kind == Update && a[i].Get(f).Some?
    requires forall i :: 0 <= i < |b| && KeyOf(b[i]) == k ==> b[i].kind == Update && b[i].Get(f).Some?
    requires k in t ==> t[k].avgs.Get(f).Some? || t[k].updateCount == 0
    ensures k in Group(a + b)
    ensures ApplyBatch(ApplyBatch(t, Group(a)), Group(b))[k].avgs.Get(f) == ApplyBatch(t, Group(a + b))[k].avgs.Get(f)
    ensures k !in t ==> ApplyBatch(ApplyBatch(t, Group(a)), Group(b))[k].avgs.Get(f) == Mean(Figures(a + b, k, f))
  {
    GroupIsStatsOf(a);
    GroupIsStatsOf(b);
    GroupAppendKeys(a, b, k);
    GroupCountsAppend(a, b, k);
    var sa, sb, sab := Group(a)[k], Group(b)[k], Group(a + b)[k];
    StatsOfValues(a, k, f);
    StatsOfValues(b, k, f);
    StatsOfValues(a + b, k, f);
    FiguresMatchUpdates(a, k, f);
    FiguresMatchUpdates(b, k, f);
    FiguresAppend(a, b, k, f);
    var ia :| 0 <= ia < |a| && KeyOf(a[ia]) == k;
    var ib :| 0 <= ib < |b| && KeyOf(b[ib]) == k;
    FiguresNonEmpty(a, k, f, ia);
    FiguresNonEmpty(b, k, f, ib);
    var t1 := ApplyBatch(t, Group(a));
    ApplyBatchUpserts(t, Group(a));
    ApplyBatchUpserts(t1, Group(b));
    ApplyBatchUpserts(t, Group(a + b));
    if k in t {
      MergeRowTwice(t[k], sa, sb, sab, f);
    } else {
      NewRowThenUpdate(sa, sb, sab, f);
    }
  }

  /** What the grouping loop collects for `f` under `k` is the figures of `k`'s events. */
  lemma {:induction false} StatsOfValues(items: seq<BatchItem>, k: Key, f: Field)
    ensures StatsOf(items, k).Values(f) == Figures(items, k, f)
  {
  }

  /**
   * Two batches' statistics folded into a stored row one after the other
   * leave the average `f` that their combined statistics leave.
   */
  lemma {:induction false} MergeRowTwice(row: HourlyRow, sa: KeyStats, sb: KeyStats, sab: KeyStats, f: Field)
    requires sa.Values(f) != [] && sb.Values(f) != []
    requires sa.updateCount == |sa.Values(f)| && sb.updateCount == |sb.Values(f)|
    requires sab.updateCount == sa.updateCount + sb.updateCount && sab.Values(f) == sa.Values(f) + sb.Values(f)
    requires row.avgs.Get(f).Some? || row.updateCount == 0
    ensures UpdateRow(UpdateRow(row, sa), sb).avgs.Get(f) == UpdateRow(row, sab).avgs.Get(f)
  {
    MergeTwiceIsMergeOnce(row.avgs.Get(f), row.updateCount, sa.Values(f), sb.Values(f));
  }

  /** The same for a key without a stored row: the result is the mean of all the figures. */
  lemma {:induction false} NewRowThenUpdate(sa: KeyStats, sb: KeyStats, sab: KeyStats, f: Field)
    requires sa.Values(f) != [] && sb.Values(f) != []
    requires sa.updateCount == |sa.Values(f)| && sb.updateCount == |sb.Values(f)|
    requires sab.updateCount == sa.updateCount + sb.updateCount && sab.Values(f) == sa.Values(f) + sb.Values(f)
    ensures UpdateRow(NewRow(sa), sb).avgs.Get(f) == NewRow(sab).avgs.Get(f) == Mean(sab.Values(f))
  {
    MergeOfMeansIsMeanOfAll(sa.Values(f), sb.Values(f));
  }

  lemma {:induction false} FiguresNonEmpty(items: seq<BatchItem>, k: Key, f: Field, i: nat)
    requires i < |items| && KeyOf(items[i]) == k && items[i].Get(f).Some?
    ensures Figures(items, k, f) != []
    decreases |items|
  {
    if i < |items| - 1 {
      FiguresNonEmpty(items[..|items| - 1], k, f, i);
    }
  }

  /**
   * Delete events carry prices but add no updates, so a key seen only through
   * deletes gets a row with an average and an update count of zero; a second
   * delete-only batch for it then merges two present averages of weight zero,
   * which the code as written turns into NaN.
   */
  lemma {:induction false} DeleteOnlyRowsReachNaN(t: HourlyTable, d1: BatchItem, d2: BatchItem)
    requires KeyOf(d1) !in t && KeyOf(d2) == KeyOf(d1)
    requires d1.kind == Delete && d2.kind == Delete
    requires d1.priceValue.Some? && d2.priceValue.Some?
    ensures var row := ApplyBatch(t, Group([d1]))[KeyOf(d1)];
            var s := Group([d2])[KeyOf(d2)];
            && row.updateCount == 0
            && row.avgs.avgPriceValue == d1.priceValue
            && MergeFieldAsWritten(row.avgs.avgPriceValue, row.updateCount, Mean(s.priceValues), s.updateCount) == Some(NaN)
  {
    GroupSingle(d1);
    GroupSingle(d2);
    ApplyBatchUpserts(t, Group([d1]));
    var p := d1.priceValue.value;
    assert Sum([p]) == p by {
      assert [p][..0] == [];
    }
    var s1 := AddItem(EmptyStats, d1);
    assert s1.priceValues == [p];
    assert ApplyBatch(t, Group([d1]))[KeyOf(d1)] == NewRow(s1);
    assert NewRow(s1).avgs.Get(PriceValue) == Mean([p]);
    assert AddItem(EmptyStats, d2).priceValues == [d2.priceValue.value];
  }

  /** A batch of one event groups into that event's accumulator alone. */
  lemma {:induction false} GroupSingle(b: BatchItem)
    ensures Group([b]) == map[KeyOf(b) := AddItem(EmptyStats, b)]
  {
    assert [b][..0] == [];
  }

  /*
   * The composite key of `statsByKey` and its parsing.
   */

  /** `${itemName}_${hourIso}`. */
  function EncodeKey(itemName: string, hourIso: string): string {
    itemName + "_" + hourIso
  }

  function IndexOf(s: string, c: char): (r: Option<nat>)
    ensures r.Some? ==> r.value < |s| && s[r.value] == c && c !in s[..r.value]
    ensures r.None? ==> c !in s
    decreases |s|
  {
    if s == [] then None
    else if s[0] == c then Some(0)
    else
      match IndexOf(s[1..], c)
      case None => None
      case Some(i) =>
        assert s[..i + 1] == [s[0]] + s[1..][..i];
        Some(i + 1)
  }

  function LastIndexOf(s: string, c: char): (r: Option<nat>)
    ensures r.Some? ==> r.value < |s| && s[r.value] == c && c !in s[r.value + 1..]
    ensures r.None? ==> c !in s
    decreases |s|
  {
    if s == [] then None
    else if s[|s| - 1] == c then Some(|s| - 1)
    else
      var r := LastIndexOf(s[..|s| - 1], c);
      if r.Some? then
        assert s[r.value + 1..] == s[..|s| - 1][r.value + 1..] + [s[|s| - 1]];
        r
      else
        assert s == s[..|s| - 1] + [s[|s| - 1]];
        r
  }

  /** The text before the first `c`, or all of `s` when there is none. */
  function UpTo(s: string, c: char): (r: string)
    ensures c !in r
    ensures r <= s
    ensures c !in s ==> r == s
  {
    match IndexOf(s, c)
    case None => s
    case Some(i) => s[..i]
  }

  /**
   * `const [itemName, hourStr] = key.split('_', 2)`: the first piece and the
   * second piece of the key cut at every '_'; `hourStr` is undefined when the
   * key has no '_'.
   */
  function ParseKey(key: string): (r: (string, Option<string>))
    ensures '_' !in r.0
  {
    match IndexOf(key, '_')
    case None => (key, None)
    case Some(i) => (key[..i], Some(UpTo(key[i + 1..], '_')))
  }

  /** For item names without '_' the parse recovers the name and the hour text. */
  lemma {:induction false} ParseKeyRoundTrip(itemName: string, hourIso: string)
    requires '_' !in itemName && '_' !in hourIso
    ensures ParseKey(EncodeKey(itemName, hourIso)) == (itemName, Some(hourIso))
  {
    var key := EncodeKey(itemName, hourIso);
    var i := IndexOf(key, '_');
    assert key[|itemName|] == '_';
    assert key[..|itemName|] == itemName;
    assert i == Some(|itemName|);
    assert key[|itemName| + 1..] == hourIso;
  }

  /** For every item name containing '_' the parse returns a different name. */
  lemma {:induction false} ParseKeyLosesUnderscoreNames(itemName: string, hourIso: string)
    requires '_' in itemName
    ensures ParseKey(EncodeKey(itemName, hourIso)).0 != itemName
  {
  }

  /** On a concrete key the item "Mann_Co Key" is read back as item "Mann" with hour text "Co Key". */
  lemma {:induction false} ParseKeyExample()
    ensures ParseKey(EncodeKey("Mann_Co Key", "2024-01-01T10:00:00.000Z")) == ("Mann", Some("Co Key"))
  {
    var key := EncodeKey("Mann_Co Key", "2024-01-01T10:00:00.000Z");
    assert key[..4] == "Mann";
    IndexOfFirst(key, '_', 4);
    var rest := key[5..];
    forall j | 0 <= j < 6 ensures rest[j] == "Co Key"[j] {
      assert rest[j] == key[j + 5];
    }
    assert rest[6] == '_';
    assert rest[..6] == "Co Key";
    IndexOfFirst(rest, '_', 6);
  }

  /** `IndexOf` finds the first occurrence. */
  lemma {:induction false} IndexOfFirst(s: string, c: char, i: nat)
    requires i < |s| && s[i] == c && c !in s[..i]
    ensures IndexOf(s, c) == Some(i)
  {
    assert s[i] in s;
  }

  /** Cutting at the first '_' does not look past it. */
  lemma {:induction false} UpToAppend(a: string, b: string)
    ensures UpTo(a + "_" + b, '_') == UpTo(a, '_')
  {
    var s := a + "_" + b;
    match IndexOf(a, '_')
    case None =>
      assert s[|a|] == '_' && s[..|a|] == a;
      IndexOfFirst(s, '_', |a|);
    case Some(j) =>
      assert s[..j] == a[..j] && s[j] == '_';
      IndexOfFirst(s, '_', j);
  }

  /**
   * For a name containing '_' the split of its key depends on the name alone:
   * the name's text before its first '_' and, as hour text, the next piece
   * of the name.
   */
  lemma {:induction false} HourTextOfKey(itemName: string, hourIso: string)
    requires '_' in itemName
    ensures ParseKey(EncodeKey(itemName, hourIso)) == (ParseKey(itemName).0, Some(HourTextOf(itemName)))
  {
    var key := EncodeKey(itemName, hourIso);
    var i := IndexOf(itemName, '_').value;
    assert key[..i] == itemName[..i] && key[i] == '_';
    IndexOfFirst(key, '_', i);
    assert key[i + 1..] == itemName[i + 1..] + "_" + hourIso;
    UpToAppend(itemName[i + 1..], hourIso);
  }

  /**
   * A row the lookup returns has a name without '_' (the split never yields
   * one), and it is filed under the batch key's text exactly when it has that
   * key's name and hour, which requires the name to contain no '_'.
   */
  lemma {:induction false} LookupMatchesOnlyPlainNames(storedName: string, storedIso: string, itemName: string, hourIso: string)
    requires '_' !in storedName && '_' !in storedIso && '_' !in hourIso
    ensures EncodeKey(storedName, storedIso) == EncodeKey(itemName, hourIso) <==>
      storedName == itemName && storedIso == hourIso && '_' !in itemName
  {
    ParseKeyAtLastRoundTrip(storedName, storedIso);
    ParseKeyAtLastRoundTrip(itemName, hourIso);
  }

  /** The parse the key format needs: the hour text is after the LAST '_'. */
  function ParseKeyAtLast(key: string): (r: (string, Option<string>))
    ensures r.1.Some? ==> '_' !in r.1.value
  {
    match LastIndexOf(key, '_')
    case None => (key, None)
    case Some(i) => (key[..i], Some(key[i + 1..]))
  }

  /** Since an ISO-8601 hour never contains '_', the corrected parse recovers every key. */
  lemma {:induction false} ParseKeyAtLastRoundTrip(itemName: string, hourIso: string)
    requires '_' !in hourIso
    ensures ParseKeyAtLast(EncodeKey(itemName, hourIso)) == (itemName, Some(hourIso))
  {
    var key := EncodeKey(itemName, hourIso);
    var n := |itemName|;
    assert key[n] == '_';
    assert key[n + 1..] == hourIso;
    assert key[..n] == itemName;
    var i := LastIndexOf(key, '_');
    assert i == Some(n);
  }
}
