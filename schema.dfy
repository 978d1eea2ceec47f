/**
 * The persisted tables of the collector: the item catalog `bptf_items`, the
 * hourly rollups `bptf_item_hourly_stats` and the daily rollups
 * `bptf_item_daily_stats`, with the constraints the database enforces.
 *
 * A table is a map from its unique key to the rest of the row, so that at most
 * one row per key exists by construction: `item_name` is the catalog's primary
 * key, (item_name, hour_timestamp) and (item_name, day_timestamp) are the
 * `unique_item_hour` and `unique_item_day` constraints. The serial `id`
 * columns carry no information the collector reads and are left out.
 */
module Schema {
  import opened Wrappers

  /** Selects one of the four averaged figures. */
  datatype Field = PriceValue | PriceUsd | KeysAmount | MetalAmount

  /** The four nullable `decimal` average columns of the hourly and daily tables. */
  datatype Averages = Averages(
    avgPriceValue: Option<real>,
    avgPriceUsd: Option<real>,
    avgKeysAmount: Option<real>,
    avgMetalAmount: Option<real>)
  {
    function Get(f: Field): Option<real> {
      match f
      case PriceValue => avgPriceValue
      case PriceUsd => avgPriceUsd
      case KeysAmount => avgKeysAmount
      case MetalAmount => avgMetalAmount
    }
  }

  /** Builds the four columns from one function of the field. */
  function AveragesFrom(avg: Field -> Option<real>): (a: Averages)
    ensures forall f :: a.Get(f) == avg(f)
  {
    Averages(avg(PriceValue), avg(PriceUsd), avg(KeysAmount), avg(MetalAmount))
  }

  /** A row of `bptf_items` apart from its key `item_name`; times are in milliseconds. */
  datatype CatalogEntry = CatalogEntry(
    qualityName: Option<string>,
    imageUrl: string,
    color: Option<string>,
    createdAt: int,
    updatedAt: int)

  /** The unique key of an hourly row: an item and the start of an hour. */
  datatype Key = Key(itemName: string, hour: int)

  /** A row of `bptf_item_hourly_stats` apart from its key; the counts are NOT NULL. */
  datatype HourlyRow = HourlyRow(updateCount: nat, deleteCount: nat, avgs: Averages)

  /** The unique key of a daily row: an item and the start of a day. */
  datatype DayKey = DayKey(itemName: string, day: int)

  /** A row of `bptf_item_daily_stats` apart from its key. */
  datatype DailyRow = DailyRow(updateCount: nat, deleteCount: nat, avgs: Averages)

  /** One row of a scan of the hourly table, key included. */
  datatype HourlyRecord = HourlyRecord(key: Key, row: HourlyRow)

  type Catalog = map<string, CatalogEntry>
  type HourlyTable = map<Key, HourlyRow>
  type DailyTable = map<DayKey, DailyRow>

  /** What an inserted hourly row holds when a column is not given: zero counts, null averages. */
  const DefaultHourlyRow := HourlyRow(0, 0, Averages(None, None, None, None))

  /** The foreign key from `bptf_item_hourly_stats.item_name` to `bptf_items.item_name`. */
  ghost predicate ReferencesCatalog(catalog: Catalog, hourly: HourlyTable) {
    forall k :: k in hourly ==> k.itemName in catalog
  }

  /** `rows` is a scan of `t`: every row of the table exactly once, in some order. */
  ghost predicate Lists(rows: seq<HourlyRecord>, t: HourlyTable) {
    && (forall i :: 0 <= i < |rows| ==> rows[i].key in t && t[rows[i].key] == rows[i].row)
    && (forall k :: k in t ==> exists i :: 0 <= i < |rows| && rows[i].key == k)
    && (forall i, j :: 0 <= i < j < |rows| ==> rows[i].key != rows[j].key)
  }

  /**
   * Why a statement fails: a repeated unique key, a missing catalog item, or a
   * `Date` bound into a query that is not a valid date.
   */
  datatype DbError = UniqueViolation(key: Key) | ForeignKeyViolation(itemName: string) | InvalidTimestamp(text: string)

  /**
   * A multi-row INSERT into the hourly table: it fails as a whole when a row
   * would repeat an existing (item, hour) pair or another row of the same
   * statement, or names an item that is not in the catalog.
   */
  function InsertHourly(catalog: Catalog, t: HourlyTable, rows: seq<HourlyRecord>): Result<HourlyTable, DbError>
    decreases |rows|
  {
    if rows == [] then Ok(t)
    else if rows[0].key in t then Err(UniqueViolation(rows[0].key))
    else if rows[0].key.itemName !in catalog then Err(ForeignKeyViolation(rows[0].key.itemName))
    else InsertHourly(catalog, t[rows[0].key := rows[0].row], rows[1..])
  }

  /**
   * The insert succeeds exactly when every row is new, names a catalog item
   * and no two rows share a key.
   */
  lemma {:induction false} InsertHourlySucceeds(catalog: Catalog, t: HourlyTable, rows: seq<HourlyRecord>)
    ensures InsertHourly(catalog, t, rows).Ok? <==>
      && (forall i :: 0 <= i < |rows| ==> rows[i].key !in t && rows[i].key.itemName in catalog)
      && (forall i, j :: 0 <= i < j < |rows| ==> rows[i].key != rows[j].key)
    decreases |rows|
  {
    if rows != [] && rows[0].key !in t && rows[0].key.itemName in catalog {
      var t' := t[rows[0].key := rows[0].row];
      var rest := rows[1..];
      InsertHourlySucceeds(catalog, t', rest);
      forall i | 0 < i < |rows| ensures rows[i] == rest[i - 1] { }
    }
  }

  /** A successful insert adds exactly the given rows and keeps all the others. */
  lemma {:induction false} InsertHourlyWrites(catalog: Catalog, t: HourlyTable, rows: seq<HourlyRecord>)
    requires InsertHourly(catalog, t, rows).Ok?
    ensures var r := InsertHourly(catalog, t, rows).value;
      && r.Keys == t.Keys + (set i | 0 <= i < |rows| :: rows[i].key)
      && (forall i :: 0 <= i < |rows| ==> r[rows[i].key] == rows[i].row)
      && forall k :: k in t ==> r[k] == t[k]
    decreases |rows|
  {
    if rows != [] {
      var t' := t[rows[0].key := rows[0].row];
      var rest := rows[1..];
      InsertHourlyWrites(catalog, t', rest);
      RowKeysCons(rows);
      InsertHourlySucceeds(catalog, t', rest);
      forall i | 0 < i < |rows| ensures rows[i] == rest[i - 1] { }
    }
  }

  /** The keys of a non-empty batch of rows are its first row's key and the keys of the rest. */
  lemma {:induction false} RowKeysCons(rows: seq<HourlyRecord>)
    requires rows != []
    ensures (set i | 0 <= i < |rows| :: rows[i].key) == {rows[0].key} + set i | 0 <= i < |rows[1..]| :: rows[1..][i].key
  {
    var later := set i | 0 <= i < |rows[1..]| :: rows[1..][i].key;
    forall k | k in later ensures k in set i | 0 <= i < |rows| :: rows[i].key {
      var i :| 0 <= i < |rows[1..]| && rows[1..][i].key == k;
      assert rows[i + 1].key == k;
    }
    forall k | k in set i | 0 <= i < |rows| :: rows[i].key ensures k in {rows[0].key} + later {
      var i :| 0 <= i < |rows| && rows[i].key == k;
      if i > 0 {
        assert rows[1..][i - 1].key == k;
      }
    }
  }

  /**
   * Deleting an item from the catalog: `ON DELETE CASCADE` removes its hourly
   * rows with it, so the foreign key still holds. The daily table has no
   * foreign key and keeps its rows.
   */
  function DeleteItem(catalog: Catalog, hourly: HourlyTable, name: string): (r: (Catalog, HourlyTable))
    ensures r.0.Keys == catalog.Keys - {name}
    ensures forall k :: k in r.1 <==> k in hourly && k.itemName != name
    ensures forall k :: k in r.1 ==> r.1[k] == hourly[k]
    ensures ReferencesCatalog(catalog, hourly) ==> ReferencesCatalog(r.0, r.1)
  {
    (catalog - {name}, map k | k in hourly && k.itemName != name :: hourly[k])
  }
}
