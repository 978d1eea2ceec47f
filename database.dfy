/**
 * The database the collector writes: the three tables as the fields of one
 * store, each transaction of the collector as one method that replaces them.
 * A transaction that fails leaves the tables as they were and passes its
 * error on.
 */
module Database {
  import opened Wrappers
  import opened Clock
  import opened Schema
  import Events
  import Ingestion
  import Compaction

  class Store {
    var catalog: Catalog
    var hourly: HourlyTable
    var daily: DailyTable

    /** The foreign key of the hourly table holds. */
    ghost predicate Valid()
      reads this
    {
      ReferencesCatalog(catalog, hourly)
    }

    /** A database after its migrations: empty tables. */
    constructor ()
      ensures Valid()
      ensures catalog == map[] && hourly == map[] && daily == map[]
    {
      catalog := map[];
      hourly := map[];
      daily := map[];
    }

    /**
     * `processBptfEventsFromWebsocket`: keeps the listing updates and deletes,
     * turns each into a batch item with the clock reading taken for it, and
     * applies the batch in one transaction at time `now`. It returns the
     * number of relevant events, and a batch without one writes nothing. When
     * the hourly lookup throws or misses a stored row the transaction rolls
     * back and the error is passed on; `validDate` says which texts
     * JavaScript's `Date` accepts.
     */
    method ProcessBptfEventsFromWebsocket(events: seq<Events.Event>, clock: seq<int>, now: int, validDate: string -> bool)
      returns (r: Result<nat, DbError>)
      requires Valid()
      requires |clock| == |Events.Relevant(events)|
      modifies this
      ensures Valid()
      ensures daily == old(daily)
      ensures Ingestion.IngestCommits(old(hourly), Events.Batch(events, clock), validDate) ==>
        && r == Ok(|Events.Relevant(events)|)
        && (catalog, hourly) == Ingestion.Ingest(old(catalog), old(hourly), Events.Batch(events, clock), now)
      ensures !Ingestion.IngestCommits(old(hourly), Events.Batch(events, clock), validDate) ==>
        r.Err? && catalog == old(catalog) && hourly == old(hourly)
    {
      if |Events.Relevant(events)| == 0 {
        assert Events.Batch(events, clock) == [];
        Ingestion.CommitsWithoutUnderscores(hourly, [], validDate);
        return Ok(0);
      }
      var batchItems := Events.PrepareBatch(events, clock);
      var t := Ingestion.IngestBatch(catalog, hourly, batchItems, now, validDate);
      if t.Err? {
        return Err(t.error);
      }
      catalog, hourly := t.value.0, t.value.1;
      r := Ok(|batchItems|);
    }

    /**
     * `aggregateHourlyToDailyStats`: compacts the hourly rows of the day that
     * contains `date` into daily rows and returns how many it wrote. `rows` is
     * the hourly table as the database scans it.
     */
    method AggregateHourlyToDailyStats(rows: seq<HourlyRecord>, date: int) returns (written: nat)
      requires Lists(rows, hourly)
      modifies this
      ensures (daily, written) == Compaction.Compact(old(daily), rows, TruncateToDay(date))
      ensures catalog == old(catalog) && hourly == old(hourly)
    {
      daily, written := Compaction.CompactDay(daily, rows, TruncateToDay(date));
    }

    /**
     * Deleting a catalog item: its hourly rows go with it (`ON DELETE
     * CASCADE`), its daily rows stay.
     */
    method DeleteItem(name: string)
      requires Valid()
      modifies this
      ensures Valid()
      ensures catalog.Keys == old(catalog.Keys) - {name}
      ensures forall k :: k in hourly <==> k in old(hourly) && k.itemName != name
      ensures forall k :: k in hourly ==> hourly[k] == old(hourly[k])
      ensures daily == old(daily)
    {
      var r := Schema.DeleteItem(catalog, hourly, name);
      catalog, hourly := r.0, r.1;
    }
  }
}
