# bptf-analyzer: the collector's ingest-and-aggregate path in Dafny

bptf-analyzer listens to the backpack.tf listing-event stream and keeps activity statistics per item. This project models what it does and proves properties about the model. The model follows the code as written, except for the departures below, each of which has its own line under "## Left out":
- figures are exact reals rather than floating-point numbers, and parsing is an input;
- hours and days are aligned to the epoch rather than to the local time zone;
- strings sort by character code, without the UTF-16 surrogate order outside the Basic Multilingual Plane (`Charts.SortedKeys`);
- where the hourly merge divides 0 by 0, the model stores the equal-weight mean instead of NaN (`Ingestion.UpdateRow`);
- a negative `limit` gives an empty result instead of a database error (`Ranking.QueryItemsWithFilters`);
- a fractional `hours` is rounded down, where `setHours` can reach one hour further back (`Ranking.ItemActivityRoute`);
- the transaction timer wins an exact tie (`ListingEvents.RunAttempt`);
- all rows of one attempt share one `createdAt` reading (`ListingEvents.Rows`).

For each defect listed under "## Findings", the model also has a corrected twin, and the intended property is proved about that twin.

- **The websocket connection.** A heartbeat counts missed pongs and declares the connection dead at two. A single `processingBatch` gate drops messages that arrive while a batch is still being written. Every close schedules a reconnect.
- **Hourly ingestion.** Each batch of `listing-update` and `listing-delete` events is stamped with the hour in which it arrived. The events are grouped by (item, hour), counted, and their price figures averaged. The result is merged into the hourly table `bptf_item_hourly_stats` with a mean weighted by update counts. The item catalog `bptf_items` is upserted in the same transaction.
- **Daily compaction.** The hourly rows of one day are folded into one daily row per item in `bptf_item_daily_stats`.
- **Read side:**
  - the collector's top-item query, with the hourly series and daily trends it reads back;
  - the trending collector's chart formatting;
  - the item-activity route and its parameter checks;
  - the dashboard's filtered ranking;
  - the one-hour freshness rule of the cached analysis.
- **The raw event log.** Inserts into `listing_events` retry with exponential backoff.

How the source is represented:

- **Tables are maps from their unique key to the rest of the row.** The (item, hour) and (item, day) uniqueness constraints therefore hold by construction (`Schema`).
- **The database is a class.** `Database.Store` holds the three tables as fields. Each transaction of the collector is one method, proved equal to a pure function of the old tables. A transaction that fails returns its error and leaves the tables as they were.
- **Queries are folds.** Each SQL query is a function over a scan of the table, a sequence listing every row once (`Schema.Lists`). `ORDER BY` and `LIMIT` are a sorted permutation and a prefix (`Seqs`).
- **The websocket service is a class.** `Connection.WebSocketClient` holds the service's module state. Each handler is proved to do what the state machine `Connection.Step` prescribes, and the properties are proved about `Step`.
- **Loops stay loops.** Where the source loops and mutates, the model is a method with a loop, proved against a specification function:
  - `Events.PrepareBatch`, `Ingestion.GroupBatch` and `Ingestion.UpsertHourlyStats` (ingestion);
  - `Series.GroupByName` (series grouping);
  - `Charts.CollectCounts`, `Charts.SortedKeys` and `Charts.OrderByHour` (chart formatting).
- **Numbers are `real`, and a nullable value is an `Option`.** JavaScript's truthiness tests, which turn a zero figure into null, are written out (`Events.Truthy`).
- **Times are milliseconds.** The clock, the timers, the socket library and the database's timing are inputs.

## Model

| member | source | states |
|---|---|---|
| Clock.TruncateToHour | apps/bptf-analyzer-data-collector/src/db/queries/bptf-items.ts:44-53 | the hour an event is counted under is hour-aligned, at or before its ingestion time, and less than an hour before it |
| Clock.TruncateToDay | apps/bptf-analyzer-data-collector/src/db/queries/bptf-items.ts:431-436 | the compacted day starts at a day boundary at or before the given date and less than a day before it |
| Clock.TruncateIdempotent | apps/bptf-analyzer-data-collector/src/db/queries/bptf-items.ts:44-53 | truncating an hour start again gives the same hour |
| Events.Relevant | apps/bptf-analyzer-data-collector/src/db/queries/bptf-items.ts:18-21 | keeps every update and delete event and no other kind, never more events than it was given |
| Events.NothingRelevant | apps/bptf-analyzer-data-collector/src/db/queries/bptf-items.ts:18-24 | a batch without update or delete events leaves nothing to process |
| Events.Truthy | apps/bptf-analyzer-data-collector/src/db/queries/bptf-items.ts:62-65 | a figure survives exactly when it is present and non-zero, and then unchanged: zero prices count as absent |
| Events.NonEmpty | apps/bptf-analyzer-data-collector/src/db/queries/bptf-items.ts:59-61 | a quality name or colour survives exactly when present and non-empty |
| Events.Batch | apps/bptf-analyzer-data-collector/src/db/queries/bptf-items.ts:41-67 | one batch item per relevant event, in order, with its item and kind, the hour of the clock reading taken at ingestion (not the listing's own time) and its truthy figures |
| Events.PrepareBatch | apps/bptf-analyzer-data-collector/src/db/queries/bptf-items.ts:41-67 | the loop that pushes batch items produces exactly `Batch` |
| Averaging.Mean | apps/bptf-analyzer-data-collector/src/db/queries/bptf-items.ts:193-207 | a batch average is null exactly when no event carried the figure |
| Averaging.MeanTimesCount | apps/bptf-analyzer-data-collector/src/db/queries/bptf-items.ts:193-207 | the batch average times the number of figures is their sum |
| Averaging.MeanBounds | apps/bptf-analyzer-data-collector/src/db/queries/bptf-items.ts:193-207 | the batch average lies between the smallest and largest figure |
| Averaging.WeightedMeanFacts | apps/bptf-analyzer-data-collector/src/db/queries/bptf-items.ts:223-225 | the weighted merge times the total count is the weighted sum, lies between the two averages, and a side with count 0 does not count |
| Averaging.MergeField | apps/bptf-analyzer-data-collector/src/db/queries/bptf-items.ts:216-232 | the merged average is null only when both sides are null, and equals the one present side when the other is null |
| Averaging.MergeFieldFacts | apps/bptf-analyzer-data-collector/src/db/queries/bptf-items.ts:216-232 | two present averages merge to a value between them, which with a positive total count is their mean weighted by update counts |
| Averaging.MergeFieldAsWritten | apps/bptf-analyzer-data-collector/src/db/queries/bptf-items.ts:216-232 | the merge as written yields NaN exactly when both averages are present and both update counts are 0 |
| Averaging.AsWrittenAgreesWhenWeighted | apps/bptf-analyzer-data-collector/src/db/queries/bptf-items.ts:216-232 | outside that case the code as written and the corrected merge give the same value |
| Averaging.MergeCommutes | apps/bptf-analyzer-data-collector/src/db/queries/bptf-items.ts:216-232 | merging does not depend on which side is the stored one |
| Averaging.WeightedMeanAssociates | apps/bptf-analyzer-data-collector/src/db/queries/bptf-items.ts:223-225 | merging three averages in either grouping gives the same result |
| Averaging.MergeOfMeansIsMeanOfAll | apps/bptf-analyzer-data-collector/src/db/queries/bptf-items.ts:193-232 | merging two batch means weighted by their counts gives the mean of all the figures together |
| Averaging.MergeTwiceIsMergeOnce | apps/bptf-analyzer-data-collector/src/db/queries/bptf-items.ts:216-232 | folding two batch means into a stored average one after the other equals folding in the mean of all their figures, when a stored average without value has no updates |
| Averaging.StoredWeightWithoutAverage | apps/bptf-analyzer-data-collector/src/db/queries/bptf-items.ts:216-232 | a stored row with three updates but no average, then figures 10 and 20 in two batches, stores 12; as one batch it stores 15 |
| Schema.InsertHourlySucceeds | apps/bptf-analyzer-data-collector/src/db/schema.ts:95-113 | a multi-row insert into the hourly table succeeds exactly when every row names a catalog item and a new (item, hour) pair, and no two rows share one |
| Schema.InsertHourlyWrites | apps/bptf-analyzer-data-collector/src/db/schema.ts:95-113 | a successful insert adds exactly the given rows and keeps every stored row |
| Schema.DeleteItem | apps/bptf-analyzer-data-collector/src/db/schema.ts:99-101 | deleting an item removes its hourly rows and only those, and the foreign key still holds afterwards |
| Ingestion.GroupIsStatsOf | apps/bptf-analyzer-data-collector/src/db/queries/bptf-items.ts:85-137 | the grouping has one accumulator per (item, hour) of the batch, holding that key's update and delete counts and the figures its events carried |
| Ingestion.CountsCoverEvents | apps/bptf-analyzer-data-collector/src/db/queries/bptf-items.ts:115-119 | under each key, updates plus deletes is the number of events with that key |
| Ingestion.FirstSeenKeepsFirst | apps/bptf-analyzer-data-collector/src/db/queries/bptf-items.ts:87-94 | within a batch, an item's catalog data comes from its first event |
| Ingestion.FirstSeenNames | apps/bptf-analyzer-data-collector/src/db/queries/bptf-items.ts:87-94 | the items to upsert are exactly the items of the batch |
| Ingestion.FirstSeenNamesGroup | apps/bptf-analyzer-data-collector/src/db/queries/bptf-items.ts:85-97 | every grouped key's item is among the items to upsert |
| Ingestion.Accumulate | apps/bptf-analyzer-data-collector/src/db/queries/bptf-items.ts:115-136 | the loop body bumps the event's counter and appends its non-null figures |
| Ingestion.CountItem | apps/bptf-analyzer-data-collector/src/db/queries/bptf-items.ts:99-136 | a new key starts from zero counts and no figures before the event is counted |
| Ingestion.GroupBatch | apps/bptf-analyzer-data-collector/src/db/queries/bptf-items.ts:85-137 | the grouping loop builds exactly the first-seen catalog data and the per-key grouping |
| Ingestion.BatchAverages | apps/bptf-analyzer-data-collector/src/db/queries/bptf-items.ts:193-207 | each batch average is the mean of the figures the key's events carried |
| Ingestion.UpdateRow | apps/bptf-analyzer-data-collector/src/db/queries/bptf-items.ts:210-297 | an existing row's counts grow by the batch's; each average is the update-weighted merge, which equals the source's division wherever that gives a number; no stored average is ever overwritten with null |
| Ingestion.UpsertedCounts | apps/bptf-analyzer-data-collector/src/db/queries/bptf-items.ts:210-323 | after the batch a key's counts are its old counts (0 for a new row) plus the batch's |
| Ingestion.ApplyBatchUpserts | apps/bptf-analyzer-data-collector/src/db/queries/bptf-items.ts:160-331 | the batch's keys are upserted and every other hourly row is kept as it was |
| Ingestion.VisitExisting | apps/bptf-analyzer-data-collector/src/db/queries/bptf-items.ts:191-308 | visiting a key whose stored row the lookup found updates that row in place and keeps the loop invariant |
| Ingestion.VisitNew | apps/bptf-analyzer-data-collector/src/db/queries/bptf-items.ts:311-323 | visiting a key whose stored row the lookup did not find queues a new row for it and keeps the loop invariant |
| Ingestion.VisitNewDistinct | apps/bptf-analyzer-data-collector/src/db/queries/bptf-items.ts:311-323 | the queued rows never repeat a key |
| Ingestion.VisitedAll | apps/bptf-analyzer-data-collector/src/db/queries/bptf-items.ts:311-330 | once every key is visited, and the lookup found every stored row of a batch key, the insert of the queued rows violates no constraint and yields the upserted table |
| Ingestion.VisitedMissedRow | apps/bptf-analyzer-data-collector/src/db/queries/bptf-items.ts:311-330 | a stored row that the lookup missed is queued again, and the insert then fails on its (item, hour) |
| Ingestion.InsertedIsApplyBatch | apps/bptf-analyzer-data-collector/src/db/queries/bptf-items.ts:300-330 | the updated rows plus the inserted ones are exactly the upserted table |
| Ingestion.UpsertHourlyStats | apps/bptf-analyzer-data-collector/src/db/queries/bptf-items.ts:160-331 | fails with an invalid-timestamp error when the lookup binds a text that is no date; succeeds exactly when the lookup neither throws nor misses a stored row, and then leaves the upserted table |
| Ingestion.UpsertCatalogWrites | apps/bptf-analyzer-data-collector/src/db/queries/bptf-items.ts:140-157 | every batch item gets the batch's quality, image and colour and `updatedAt = now`, keeps its `createdAt`, other items untouched |
| Ingestion.Ingest | apps/bptf-analyzer-data-collector/src/db/queries/bptf-items.ts:70-331 | one batch keeps every hourly row referencing a catalog item, and an empty batch changes nothing |
| Ingestion.IngestBatch | apps/bptf-analyzer-data-collector/src/db/queries/bptf-items.ts:70-331 | the transaction (catalog upsert, then hourly upsert) commits exactly when the hourly lookup neither throws nor misses a stored row, and then computes `Ingest` |
| Ingestion.CommitsWithoutUnderscores | apps/bptf-analyzer-data-collector/src/db/queries/bptf-items.ts:160-331 | a batch whose item names contain no '_' always commits |
| Ingestion.UnderscoreNameRollsBack | apps/bptf-analyzer-data-collector/src/db/queries/bptf-items.ts:160-331 | a batch item whose name contains '_' rolls the whole batch back, catalog upsert included, when its (item, hour) row is already stored or the hour text cut from its name is no date |
| Ingestion.NewUnderscoreRowCommits | apps/bptf-analyzer-data-collector/src/db/queries/bptf-items.ts:160-331 | a name containing '_' whose hour text is a date and whose row is new does not stop the batch from committing |
| Ingestion.ApplyBatchCounts | apps/bptf-analyzer-data-collector/src/db/queries/bptf-items.ts:210-213 | a key's stored counts after the batch are the old counts plus the batch's |
| Ingestion.GroupCountsAppend | apps/bptf-analyzer-data-collector/src/db/queries/bptf-items.ts:115-119 | the counts of two batches together are the sums of their counts |
| Ingestion.BatchBoundaryKeepsCounts | apps/bptf-analyzer-data-collector/src/db/queries/bptf-items.ts:193-232 | for every key, ingesting two batches one after the other leaves the key stored exactly when ingesting them as one does, with the same update and delete counts |
| Ingestion.OneBatchHasKey | apps/bptf-analyzer-data-collector/src/db/queries/bptf-items.ts:193-232 | a key that at most one of the two batches has ends up with the same row either way |
| Ingestion.BatchBoundaryKeepsMean | apps/bptf-analyzer-data-collector/src/db/queries/bptf-items.ts:216-232 | for a key in either batch whose events all are updates carrying the figure, two batches store the same average as one, whether or not the key has a stored row, provided a stored row without that average has no updates (`StoredWeightWithoutAverage` shows the proviso is needed); for a new key it is the mean of all the figures |
| Ingestion.DeleteOnlyRowsReachNaN | apps/bptf-analyzer-data-collector/src/db/queries/bptf-items.ts:223-225 | two delete-only batches with prices for a new key drive the merge as written to NaN |
| Ingestion.ParseKey | apps/bptf-analyzer-data-collector/src/db/queries/bptf-items.ts:163-167 | the name read back from a composite key never contains '_' |
| Ingestion.ParseKeyRoundTrip | apps/bptf-analyzer-data-collector/src/db/queries/bptf-items.ts:97-167 | for names and hour texts without '_' the key is read back as written |
| Ingestion.ParseKeyLosesUnderscoreNames | apps/bptf-analyzer-data-collector/src/db/queries/bptf-items.ts:97-167 | every item name containing '_' is read back as a different name |
| Ingestion.ParseKeyExample | apps/bptf-analyzer-data-collector/src/db/queries/bptf-items.ts:97-167 | the key of item "Mann_Co Key" is read back as item "Mann" with hour text "Co Key" |
| Ingestion.IndexOfFirst | apps/bptf-analyzer-data-collector/src/db/queries/bptf-items.ts:163-167 | the separator search finds the first '_' |
| Ingestion.HourTextOfKey | apps/bptf-analyzer-data-collector/src/db/queries/bptf-items.ts:162-166 | for a name containing '_', splitting its key gives the name's first piece as the item and the name's second piece as the hour text, whatever the hour |
| Ingestion.LookupMatchesOnlyPlainNames | apps/bptf-analyzer-data-collector/src/db/queries/bptf-items.ts:176-184 | a fetched row is filed under a batch key's text exactly when it has that key's item and hour and the name has no '_' |
| Ingestion.ParseKeyAtLast | apps/bptf-analyzer-data-collector/src/db/queries/bptf-items.ts:163-167 | the corrected parse splits at the last '_', so the hour text never contains one |
| Ingestion.ParseKeyAtLastRoundTrip | apps/bptf-analyzer-data-collector/src/db/queries/bptf-items.ts:97-167 | the corrected parse reads back every key, whatever the item name |
| Compaction.ItemRows | apps/bptf-analyzer-data-collector/src/db/queries/bptf-items.ts:441-496 | one group holds exactly the item's hourly rows with `startOfDay <= hour < endOfDay` |
| Compaction.CoalescedAverage | apps/bptf-analyzer-data-collector/src/db/queries/bptf-items.ts:448-487 | the average as written is null exactly when the summed update count is 0, else times that count it is the sum of `COALESCE(avg,0) * update_count` |
| Compaction.PresentAverage | apps/bptf-analyzer-data-collector/src/db/queries/bptf-items.ts:448-487 | the corrected average is null exactly when no hour with the average has updates, else it is the update-weighted mean over those hours |
| Compaction.PresentAverageBounds | apps/bptf-analyzer-data-collector/src/db/queries/bptf-items.ts:448-487 | the corrected average lies between the smallest and largest average it combines |
| Compaction.DailyAverageBounds | apps/bptf-analyzer-data-collector/src/db/queries/bptf-items.ts:448-487 | a daily average lies between the smallest and largest hourly average of that day |
| Compaction.AsWrittenAgreesWhenPresent | apps/bptf-analyzer-data-collector/src/db/queries/bptf-items.ts:448-487 | when every hour has the average, the query as written and the corrected average agree |
| Compaction.CoalesceDragsTowardZero | apps/bptf-analyzer-data-collector/src/db/queries/bptf-items.ts:448-487 | hours averaging 10 and null with one update each give 5 as written, 10 corrected |
| Compaction.MissingFigureBecomesZero | apps/bptf-analyzer-data-collector/src/db/queries/bptf-items.ts:448-487 | a day whose hours never had the figure gets 0 as written, null corrected |
| Compaction.CompactionExample | apps/bptf-analyzer-data-collector/src/db/queries/bptf-items.ts:448-487 | weights 10, 5, 5 with averages 2, 4, 6 give a daily average of 3.5 |
| Compaction.TwoHoursMatchHourlyMerge | apps/bptf-analyzer-data-collector/src/db/queries/bptf-items.ts:448-487 | for two hours the daily average is the same weighted merge the hourly path uses |
| Compaction.DailyRowOf | apps/bptf-analyzer-data-collector/src/db/queries/bptf-items.ts:444-513 | a daily row's counts are the sums of the day's hourly counts, and each average is the query's `SUM(COALESCE(avg, 0) * update_count) / SUM(update_count)` |
| Compaction.DailyRowAverageBounds | apps/bptf-analyzer-data-collector/src/db/queries/bptf-items.ts:448-513 | a daily average as written is null exactly when the day has no updates, and otherwise lies in any interval that contains 0 and every hourly average of the day |
| Compaction.DailyRowsWrites | apps/bptf-analyzer-data-collector/src/db/queries/bptf-items.ts:504-529 | the upserted rows are one per active item on that day, each computed from the item's hours by the query as written |
| Compaction.Compact | apps/bptf-analyzer-data-collector/src/db/queries/bptf-items.ts:428-537 | the number returned is the number of items with hourly rows that day, and no daily row is removed |
| Compaction.CompactWrites | apps/bptf-analyzer-data-collector/src/db/queries/bptf-items.ts:498-532 | each active item's daily row is overwritten with the row the query as written computes from its hours, and every other daily row is kept |
| Compaction.CompactDay | apps/bptf-analyzer-data-collector/src/db/queries/bptf-items.ts:428-537 | the compaction step computes exactly `Compact`, with the averages as written |
| Compaction.CompactIdempotent | apps/bptf-analyzer-data-collector/src/db/queries/bptf-items.ts:516-529 | compacting the same day twice leaves what compacting it once left |
| Database.Store.constructor | apps/bptf-analyzer-data-collector/src/db/schema.ts:85-132 | a fresh database has empty tables and satisfies the foreign key |
| Database.Store.ProcessBptfEventsFromWebsocket | apps/bptf-analyzer-data-collector/src/db/queries/bptf-items.ts:16-335 | when the batch commits, returns the number of update and delete events and applies `Ingest` to the catalog and hourly table; otherwise returns the error and leaves every table as it was; always keeps the foreign key and the daily table |
| Database.Store.AggregateHourlyToDailyStats | apps/bptf-analyzer-data-collector/src/db/queries/bptf-items.ts:428-537 | compacts the day containing `date` from a scan of the hourly table, with the averages as written, and changes no other table |
| Database.Store.DeleteItem | apps/bptf-analyzer-data-collector/src/db/schema.ts:99-101 | deleting a catalog item cascades to its hourly rows only and keeps the foreign key |
| Connection.Step | apps/bptf-analyzer-data-collector/src/services/websocket.ts:18-115 | every handler keeps the invariant: a running heartbeat has missed fewer than two beats and belongs to an open socket or none |
| Connection.RunValid | apps/bptf-analyzer-data-collector/src/services/websocket.ts:18-115 | any sequence of events keeps that invariant |
| Connection.HeartbeatResets | apps/bptf-analyzer-data-collector/src/services/websocket.ts:25-57 | open, pong and every message reset the missed-heartbeat counter to 0 |
| Connection.TickCounts | apps/bptf-analyzer-data-collector/src/services/websocket.ts:29-31 | each tick of a running heartbeat counts one more missed beat |
| Connection.DeadAtTwoMissed | apps/bptf-analyzer-data-collector/src/services/websocket.ts:29-37 | at two missed beats the interval is cleared, an open socket terminated, a reconnect scheduled after 1000 ms, and no ping sent |
| Connection.PingOnlyWhenAlive | apps/bptf-analyzer-data-collector/src/services/websocket.ts:29-42 | a tick pings exactly when the heartbeat runs, fewer than two beats are missed and the socket is open |
| Connection.BusyDropsMessage | apps/bptf-analyzer-data-collector/src/services/websocket.ts:55-63 | a message arriving while a batch is in hand is dropped and leaves the gate as it was |
| Connection.BatchOnlyThroughOpenGate | apps/bptf-analyzer-data-collector/src/services/websocket.ts:60-74 | a batch starts only on a parsable message through an open gate, and starting it closes the gate |
| Connection.GateReleasedOnEveryExit | apps/bptf-analyzer-data-collector/src/services/websocket.ts:65-88 | the gate is open again after a parse failure, a failed batch, and a successful batch's pacing sleep |
| Connection.PacingOnlyAfterSuccess | apps/bptf-analyzer-data-collector/src/services/websocket.ts:74-88 | the 100 ms sleep follows only a successful batch, with the gate still held |
| Connection.CloseSchedulesReconnect | apps/bptf-analyzer-data-collector/src/services/websocket.ts:91-101 | every close stops the heartbeat and schedules a reconnect after `WS_RECONNECT_TIMEOUT_MS` |
| Connection.ErrorCloses | apps/bptf-analyzer-data-collector/src/services/websocket.ts:103-107 | an error stops the heartbeat and closes the socket without scheduling a reconnect itself |
| Connection.DeadConnectionReconnectsTwice | apps/bptf-analyzer-data-collector/src/services/websocket.ts:29-101 | a dead connection's termination and the close that follows schedule two reconnects |
| Connection.ShutdownStillReconnects | apps/bptf-analyzer-data-collector/src/services/websocket.ts:91-115 | `closeWebSocket` forgets the socket, yet the close it causes still schedules a reconnect |
| Connection.WebSocketClient.constructor | apps/bptf-analyzer-data-collector/src/services/websocket.ts:6-7 | the service starts with no socket, an open gate and no heartbeat |
| Connection.WebSocketClient.Heartbeat | apps/bptf-analyzer-data-collector/src/services/websocket.ts:25-27 | resets the counter and nothing else |
| Connection.WebSocketClient.ConnectWebSocket | apps/bptf-analyzer-data-collector/src/services/websocket.ts:18-23 | updates the fields as `Step` does on a connect |
| Connection.WebSocketClient.OnOpen | apps/bptf-analyzer-data-collector/src/services/websocket.ts:44-50 | updates the fields and requests the actions of `Step` on open |
| Connection.WebSocketClient.OnPong | apps/bptf-analyzer-data-collector/src/services/websocket.ts:52-53 | as `Step` on a pong |
| Connection.WebSocketClient.OnMessage | apps/bptf-analyzer-data-collector/src/services/websocket.ts:55-74 | as `Step` on a message |
| Connection.WebSocketClient.OnBatchFinished | apps/bptf-analyzer-data-collector/src/services/websocket.ts:74-88 | as `Step` when the batch write settles |
| Connection.WebSocketClient.OnPacingElapsed | apps/bptf-analyzer-data-collector/src/services/websocket.ts:82-88 | as `Step` when the pacing sleep ends |
| Connection.WebSocketClient.CheckConnection | apps/bptf-analyzer-data-collector/src/services/websocket.ts:29-42 | as `Step` on a heartbeat tick |
| Connection.WebSocketClient.OnClose | apps/bptf-analyzer-data-collector/src/services/websocket.ts:91-101 | as `Step` on a close |
| Connection.WebSocketClient.OnError | apps/bptf-analyzer-data-collector/src/services/websocket.ts:103-107 | as `Step` on an error |
| Connection.WebSocketClient.CloseWebSocket | apps/bptf-analyzer-data-collector/src/services/websocket.ts:110-115 | as `Step` on shutdown |
| ListingEvents.SecondsToMs | apps/bptf-analyzer-data-collector/src/db/queries/listing-events.ts:82-83 | a time in seconds becomes a whole number of milliseconds that divides back to it |
| ListingEvents.ClientOf | apps/bptf-analyzer-data-collector/src/db/queries/listing-events.ts:58 | the client is "Not Specified" exactly when the user agent or its client is missing or empty (or is that text), otherwise the client |
| ListingEvents.RowsMapEvents | apps/bptf-analyzer-data-collector/src/db/queries/listing-events.ts:13-89 | one row per event in order, with the event's id, kind and amounts, the attempt's time and its second-based times in milliseconds |
| ListingEvents.InsertSucceedsIff | apps/bptf-analyzer-data-collector/src/db/queries/listing-events.ts:91-93 | the insert succeeds exactly when every status is an enum value and every id is new and appears once |
| ListingEvents.InsertWrites | apps/bptf-analyzer-data-collector/src/db/queries/listing-events.ts:91-93 | a successful insert adds exactly the batch's rows by id and keeps the stored ones |
| ListingEvents.Insert | apps/bptf-analyzer-data-collector/src/db/queries/listing-events.ts:91-93 | only a non-empty statement can fail, and a successful one keeps every stored id |
| ListingEvents.Transaction | apps/bptf-analyzer-data-collector/src/db/queries/listing-events.ts:12-94 | an empty batch runs no statement and succeeds |
| ListingEvents.RunAttempt | apps/bptf-analyzer-data-collector/src/db/queries/listing-events.ts:96-102 | an attempt succeeds exactly when it beats the 30 s timer, keeps its connection and the insert succeeds; a timeout is a failure |
| ListingEvents.BackoffMs | apps/bptf-analyzer-data-collector/src/db/queries/listing-events.ts:110 | every backoff is at least one second |
| ListingEvents.AttemptWrites | apps/bptf-analyzer-data-collector/src/db/queries/listing-events.ts:12-102 | an attempt keeps every stored row, and a successful one has stored each event's row under its id |
| ListingEvents.AddBatch | apps/bptf-analyzer-data-collector/src/db/queries/listing-events.ts:6-118 | at least one attempt and one backoff sleep between consecutive attempts; every stored row is kept, and a call that returns has stored each event's row, built at the last attempt's time, under the event's id |
| ListingEvents.RetryAttempts | apps/bptf-analyzer-data-collector/src/db/queries/listing-events.ts:105-117 | at most `MAX_RETRIES + 1` attempts, and an error is rethrown only after all of them |
| ListingEvents.RetryWaits | apps/bptf-analyzer-data-collector/src/db/queries/listing-events.ts:109-113 | the sleep after the attempt with `retryCount = k` lasts 2^k * 1000 ms |
| ListingEvents.FirstCallSchedule | apps/bptf-analyzer-data-collector/src/db/queries/listing-events.ts:106-117 | from the first call: 1 to 4 attempts, sleeps a prefix of 1000, 2000, 4000, all three before an error |
| ListingEvents.TimeoutIsFailure | apps/bptf-analyzer-data-collector/src/db/queries/listing-events.ts:97-102 | an attempt that takes 30000 ms or more is retried, or on the last attempt rethrown as a timeout |
| ListingEvents.RejectedBatchExhaustsRetries | apps/bptf-analyzer-data-collector/src/db/queries/listing-events.ts:105-117 | a batch the database rejects is retried until the attempts run out, fails with the rejection and stores nothing |
| ListingEvents.RejectedAttempt | apps/bptf-analyzer-data-collector/src/db/queries/listing-events.ts:91-102 | one attempt on a rejected batch fails with the rejection and leaves the table as it was |
| ListingEvents.LateCommitFailsRetries | apps/bptf-analyzer-data-collector/src/db/queries/listing-events.ts:96-117 | a transaction that commits after losing to the timer makes every retry a duplicate-id failure, although the rows are stored |
| ListingEvents.EmptyBatchStoresNothing | apps/bptf-analyzer-data-collector/src/db/queries/listing-events.ts:91-93 | an empty batch stores nothing and succeeds at once unless the attempt times out or loses its connection |
| ListingEvents.EmptyAttempt | apps/bptf-analyzer-data-collector/src/db/queries/listing-events.ts:91-102 | one attempt on an empty batch leaves the table alone and fails only on a timeout or a lost connection |
| Charts.Smallest | apps/bptf-analyzer-data-collector/src/services/trending-collector.ts:48 | finds the string smaller than every other key, in `sort()`'s order |
| Charts.SortedKeys | apps/bptf-analyzer-data-collector/src/services/trending-collector.ts:48 | `Object.keys(...).sort()` lists every hour key once, in strictly ascending order |
| Charts.LatestIsLastRow | apps/bptf-analyzer-data-collector/src/services/trending-collector.ts:36-41 | an item has an hour exactly when some row has that (item, hour), and its count is the last such row's |
| Charts.CollectCounts | apps/bptf-analyzer-data-collector/src/services/trending-collector.ts:33-41 | the first loop has one entry per item of the input, each holding the last count per hour |
| Charts.OrderByHour | apps/bptf-analyzer-data-collector/src/services/trending-collector.ts:44-52 | the second loop keeps every item and lists its counts in ascending hour order, one per distinct hour |
| Charts.HourSeries | apps/bptf-analyzer-data-collector/src/services/trending-collector.ts:48-51 | one item's counts in ascending hour order |
| Charts.FormatHourlyDataForCharts | apps/bptf-analyzer-data-collector/src/services/trending-collector.ts:28-55 | one array per item of the input, holding its last count of each distinct hour in ascending hour order |
| Charts.ConvertItem | apps/bptf-analyzer-data-collector/src/services/trending-collector.ts:92-102 | the converted item keeps the row's fields, keeps null averages null, and sets `eventCount = totalCount` |
| Charts.TrendingOutput | apps/bptf-analyzer-data-collector/src/services/trending-collector.ts:92-130 | every ranked row is converted; the hourly breakdown is queried only when some item was found, else it is empty, and then each item's entry is the hour-ordered series of that item's latest counts |
| Series.GroupByName | apps/bptf-analyzer-data-collector/src/db/queries/bptf-items.ts:411-420 | the grouping loop has an entry for exactly the items of the rows, holding their values in row order |
| Series.SelectionNames | apps/bptf-analyzer-data-collector/src/db/queries/bptf-items.ts:392-408 | an item appears in a query's result exactly when it has a selected row |
| Series.ItemPartOfSelection | apps/bptf-analyzer-data-collector/src/db/queries/bptf-items.ts:392-408 | an item's part of an ordered query result is sorted and holds exactly its selected rows |
| Series.ItemsHourlyData | apps/bptf-analyzer-data-collector/src/db/queries/bptf-items.ts:383-423 | no names give no data; otherwise one entry per listed item with a row in the window, holding the selected hours' activity |
| Series.HourlySeriesInOrder | apps/bptf-analyzer-data-collector/src/db/queries/bptf-items.ts:392-420 | an item's series is the activity of its own rows in the window, each once, in ascending hour order |
| Series.ToTrendPoint | apps/bptf-analyzer-data-collector/src/db/queries/bptf-items.ts:588-595 | a trend point carries the day's counts, their sum as the total, and the two price averages |
| Series.DailyTrends | apps/bptf-analyzer-data-collector/src/db/queries/bptf-items.ts:549-598 | no top items give no trends; otherwise one entry per top item with a daily row since the cut-off, one point per such row |
| Series.TrendInDayOrder | apps/bptf-analyzer-data-collector/src/db/queries/bptf-items.ts:555-596 | an item's trend holds exactly its daily rows since the cut-off, in ascending day order |
| TopItems.JoinedRows | apps/bptf-analyzer-data-collector/src/db/queries/bptf-items.ts:360-366 | the left join gives an item exactly its hourly rows inside the window |
| TopItems.AvgColumn | apps/bptf-analyzer-data-collector/src/db/queries/bptf-items.ts:350-357 | `AVG` is null exactly when the group has no non-null value |
| TopItems.StatsOf | apps/bptf-analyzer-data-collector/src/db/queries/bptf-items.ts:350-372 | an item's group carries its catalog data, and its sums are null exactly when it has no row in the window |
| TopItems.SumTotalsSplits | apps/bptf-analyzer-data-collector/src/db/queries/bptf-items.ts:350-357 | the total activity is the update sum plus the delete sum |
| TopItems.Groups | apps/bptf-analyzer-data-collector/src/db/queries/bptf-items.ts:360-372 | one group per catalog item |
| TopItems.RankByActivity | apps/bptf-analyzer-data-collector/src/db/queries/bptf-items.ts:374-375 | the corrected order returns `itemCount` groups, or all when fewer |
| TopItems.RankByActivityIsTop | apps/bptf-analyzer-data-collector/src/db/queries/bptf-items.ts:374-375 | the corrected ranking is in descending activity and no group left out is more active than one returned |
| TopItems.RankAsWritten | apps/bptf-analyzer-data-collector/src/db/queries/bptf-items.ts:374-375 | `ORDER BY SUM(...) DESC LIMIT` as PostgreSQL runs it: `itemCount` groups or all, every NULL-sum group before every active one, the active ones in descending activity, a sub-multiset of the groups |
| TopItems.RankAsWrittenIsTop | apps/bptf-analyzer-data-collector/src/db/queries/bptf-items.ts:374-375 | the groups returned are the first of the NULLS FIRST order: an idle group is left out only when every group returned is idle, and an active group left out is no more active than any active group returned |
| TopItems.TopBptfItems | apps/bptf-analyzer-data-collector/src/db/queries/bptf-items.ts:340-378 | as many rows as asked for or the whole catalog when it is smaller, each a different catalog item's group; items without activity in the window come first, then the active ones in descending activity |
| TopItems.TopBptfItemsIsTop | apps/bptf-analyzer-data-collector/src/db/queries/bptf-items.ts:340-378 | the rows are the first of the NULLS FIRST order over the whole catalog: an item without activity is left out only when every row returned is such an item, and an active item left out is no more active than any active item returned |
| TopItems.CatalogScanSize | apps/bptf-analyzer-data-collector/src/db/schema.ts:86 | with `item_name` as the primary key, a catalog scan has one row per item |
| TopItems.AsWrittenFillsWithIdleItems | apps/bptf-analyzer-data-collector/src/db/queries/bptf-items.ts:360-375 | with at least `itemCount` idle items, the query as written returns only idle items |
| TopItems.IdleItemRanksFirst | apps/bptf-analyzer-data-collector/src/db/queries/bptf-items.ts:360-375 | between an item with five events and one with none, the query as written ranks the idle one first |
| TopItems.ActiveItemRanksFirst | apps/bptf-analyzer-data-collector/src/db/queries/bptf-items.ts:360-375 | the corrected ranking ranks the active one first |
| ItemCollector.FormatItem | apps/bptf-analyzer-data-collector/src/services/bptf-item-collector.ts:41-53 | fields are kept, null averages stay null, and missing counts become 0 |
| ItemCollector.AnalyzeTopBptfItems | apps/bptf-analyzer-data-collector/src/services/bptf-item-collector.ts:28-71 | the analysis is the formatted rows of the top-item query (whose selection `TopItems.TopBptfItemsIsTop` states), each item once, with hourly data for exactly those of them active in the same window, stamped `now` |
| ItemCollector.GetLatestBptfItemsAnalysis | apps/bptf-analyzer-data-collector/src/services/bptf-item-collector.ts:76-97 | the cache is served exactly when it was read and is younger than an hour; otherwise a fresh analysis of the query as written is made |
| ItemCollector.FreshForOneHour | apps/bptf-analyzer-data-collector/src/services/bptf-item-collector.ts:84-89 | an analysis written at `t` is fresh exactly before `t + 3600000` |
| Seqs.Filter | apps/bptf-analyzer-data-collector/src/db/queries/bptf-items.ts:18-21 | the filter keeps exactly the elements that pass, each from the input |
| Seqs.SortBy | apps/bptf-analyzer-data-collector/src/api/routes/trending-v2.ts:80 | `ORDER BY` yields a sorted permutation of its input |
| Seqs.Take | apps/bptf-analyzer-data-collector/src/api/routes/trending-v2.ts:81 | `LIMIT n` keeps a prefix of length `n`, or everything when there are fewer |
| Seqs.TakeSortedIsTop | apps/bptf-analyzer-data-collector/src/api/routes/trending-v2.ts:80-81 | the limited sorted rows are sorted, and no row left out sorts before one kept |
| Ranking.TopN | apps/bptf-analyzer-data-collector/src/api/routes/trending-v2.ts:80-81 | at most `limit` groups, drawn from the candidates |
| Ranking.TopNRanks | apps/bptf-analyzer-data-collector/src/api/routes/trending-v2.ts:80-81 | the ranked groups are in descending total, and none left out has a larger total than one kept |
| Ranking.ItemNames | apps/bptf-analyzer-data-collector/src/api/routes/trending-v2.ts:74-79 | `GROUP BY` yields each item with a row exactly once |
| Ranking.GroupTotals | apps/bptf-analyzer-data-collector/src/api/routes/trending-v2.ts:58-79 | each group is an item with the sum of its update counts |
| Ranking.GroupsInCatalog | apps/bptf-analyzer-data-collector/src/api/routes/trending-v2.ts:66-70 | every ranked item is in the catalog: the inner join drops the others |
| Ranking.RankedIsGroup | apps/bptf-analyzer-data-collector/src/api/routes/trending-v2.ts:58-81 | a ranked entry is an item with a qualifying row, with that item's update total |
| Ranking.RankedDistinct | apps/bptf-analyzer-data-collector/src/api/routes/trending-v2.ts:74-81 | no item is ranked twice |
| Ranking.LeftOutRanksLower | apps/bptf-analyzer-data-collector/src/api/routes/trending-v2.ts:80-81 | an item left out has a total no larger than any ranked item's |
| Ranking.Entry | apps/bptf-analyzer-data-collector/src/api/routes/trending-v2.ts:104-113 | an entry carries the item's name and total and the points of its series rows |
| Ranking.Breakdown | apps/bptf-analyzer-data-collector/src/api/routes/trending-v2.ts:84-115 | one entry per ranked item, in ranking order |
| Ranking.EntryOfRanking | apps/bptf-analyzer-data-collector/src/api/routes/trending-v2.ts:58-113 | each chart entry is a qualifying item with its update total and its series |
| Ranking.ChartIsRanking | apps/bptf-analyzer-data-collector/src/api/routes/trending-v2.ts:58-115 | the chart lists the ranked groups, in order, with their totals |
| Ranking.RankingFacts | apps/bptf-analyzer-data-collector/src/api/routes/trending-v2.ts:58-81 | the ranking has `limit` distinct qualifying items (or all), each with its update total, in descending order, none left out ranking higher |
| Ranking.RankAndChartRanks | apps/bptf-analyzer-data-collector/src/api/routes/trending-v2.ts:58-81 | the chart's items and totals are such a ranking of the rows passing the join and the conditions |
| Ranking.SeriesRowsFacts | apps/bptf-analyzer-data-collector/src/api/routes/trending-v2.ts:86-102 | a series holds exactly the item's rows in the window, each as often as stored, in ascending hour order |
| Ranking.RankAndChartSeries | apps/bptf-analyzer-data-collector/src/api/routes/trending-v2.ts:86-102 | each chart entry's points are its own in-window rows, in ascending hour order |
| Ranking.RankAndChartTotals | apps/bptf-analyzer-dashboard/src/db/queries/get-items-with-filters.ts:51-93 | when the ranking conditions imply the window, a total is at most its series' updates; when they equal it, exactly them |
| Ranking.ActivityTotalMatchesSeries | apps/bptf-analyzer-dashboard/src/db/queries/get-item-activity.ts:12-77 | each entry's total activity is the sum of the update counts of the series shown, which holds the item's rows since the start time |
| Ranking.TopItemsActivityForChart | apps/bptf-analyzer-dashboard/src/db/queries/get-item-activity.ts:12-77 | at most `topItemsCount` entries, each for a catalog item |
| Ranking.ParamNumber | apps/bptf-analyzer-data-collector/src/api/routes/trending-v2.ts:11-12 | a missing or empty parameter takes its default, any other text its numeric value |
| Ranking.ValidateParams | apps/bptf-analyzer-data-collector/src/api/routes/trending-v2.ts:15-20 | valid exactly when `topItems` is a number in [1, 50] and `hours` one in [1, 168]; otherwise the first failing check's message |
| Ranking.DefaultParams | apps/bptf-analyzer-data-collector/src/api/routes/trending-v2.ts:11-20 | with both parameters missing or empty the route uses 10 items over 24 hours |
| Ranking.TopItemsCheckedFirst | apps/bptf-analyzer-data-collector/src/api/routes/trending-v2.ts:15-17 | a bad `topItems` is reported whatever `hours` holds |
| Ranking.ItemActivityRoute | apps/bptf-analyzer-data-collector/src/api/routes/trending-v2.ts:8-40 | a 400 with the validation message exactly when validation fails; otherwise the parsed parameters (the defaults 10 and 24 when absent or empty) and the chart data of `TopItemsActivityForChart` for them, at most `topItems` entries |
| Ranking.OrDefault | apps/bptf-analyzer-dashboard/src/db/queries/get-items-with-filters.ts:15-16 | an absent or zero option takes the default, any other value is kept |
| Ranking.WindowExcludesCurrentHour | apps/bptf-analyzer-dashboard/src/db/queries/get-items-with-filters.ts:23-30 | no row of the current hour or later is in the window |
| Ranking.WindowCoversPastHours | apps/bptf-analyzer-dashboard/src/db/queries/get-items-with-filters.ts:19-30 | every complete hour from the window start up to the previous hour is in the window |
| Ranking.FiltersStayInWindow | apps/bptf-analyzer-dashboard/src/db/queries/get-items-with-filters.ts:27-48 | a row passing all the conditions is in the time window |
| Ranking.UnfilteredIsWindow | apps/bptf-analyzer-dashboard/src/db/queries/get-items-with-filters.ts:27-48 | with no price or quality option, the conditions are the window alone |
| Ranking.FiltersOnlyNarrow | apps/bptf-analyzer-dashboard/src/db/queries/get-items-with-filters.ts:36-48 | dropping the price and quality filters never excludes a row that passed them |
| Ranking.FilteredTotalWithinSeries | apps/bptf-analyzer-dashboard/src/db/queries/get-items-with-filters.ts:51-93 | a filtered item's total counts only rows passing the filters, so it is at most its series' updates, and equal to them without filters |
| Ranking.QueryItemsWithFilters | apps/bptf-analyzer-dashboard/src/db/queries/get-items-with-filters.ts:13-93 | at most `limit` entries (10 when the option is absent or 0), each for a catalog item |

## Left out

- Database I/O, the query builder and the SQL text are not modelled. The tables are maps and each query is a function over a scan. A failed transaction rolls back: the ingest transaction returns its error and leaves the tables as they were. Failures of the database itself, such as a lost connection, are modelled only in the event-log retry loop.
- Whether JavaScript's `Date` accepts a text is an input, `validDate`, of `Ingestion.UpsertHourlyStats`. In the model, binding an invalid `Date` into the lookup query throws, as drizzle's conversion of the `Date` to text does.
- The clock is an input. Local-time truncation (`setHours`, the `Date` constructor from local parts) is modelled with hours and days aligned to the epoch. Daylight-saving and time-zone offsets are not modelled.
- The socket library, its timers and the event loop are inputs: each callback is an event and each request is an action. Closures of superseded sockets, which go on reacting to their own events, are not modelled. Neither are `console` logging and the parsed batch's contents. The message handler always calls `processBptfEventsFromWebsocket`, which `Database.Store` models; the call into `addBatchDataInTransaction` is commented out in the source.
- `parseFloat`, `Number`, JSON parsing and decimal-string round trips are not modelled. Figures are exact reals, and a parse result is an input. NaN is modelled only where the source creates it from arithmetic (`Averaging.MergeFieldAsWritten`, `Ranking.Num`).
- ListingEvents.Rows: every row of an attempt gets the attempt's start time as `createdAt`. The source calls `new Date()` once per event inside `events.map`, so its readings can differ by the time the mapping takes. No property proved here depends on `createdAt`.
- ListingEvents.RunAttempt: the timer wins a tie at exactly 30000 ms. `Promise.race` settles a tie by event-loop order, which is not modelled.
- Charts.SortedKeys: orders strings by character code, as `Array.prototype.sort` does. The difference between UTF-16 code units and code points for characters outside the Basic Multilingual Plane is not modelled.
- The two queries of `collectTopTrendingItems` over the listing-event log are not modelled. Their results are parameters of `Charts.TrendingOutput`.
- The JSON file writes of the trending collector and the item collector are not modelled. The cache read is an input of `ItemCollector.GetLatestBptfItemsAnalysis`.
- `getTopBptfItemsWithDailyTrend`: only its shaping is modelled (`Series.DailyTrends`). The top-item names are a parameter.
- Columns that are copied through unchanged (the user, payload and price-text columns of `listing_events`, and the quality and image columns where they are only carried) are not modelled.
- The order in which the database scans a table is a parameter, the scan sequence. Ties in `ORDER BY` may come out in any order.
- Ranking.ItemActivityRoute: a fractional `hours` is rounded down. The source subtracts it from the local hour and `setHours` truncates that toward zero, which can go one hour further back. A fractional `topItems` is also rounded down, and how PostgreSQL rounds a fractional `LIMIT` is not modelled.
- Ranking.ItemActivityRoute: the 500 response for a failing query and the `Cache-Control` header are not modelled.
- `Promise.all` over the per-item series queries is modelled as a map, and what happens when one of them fails is not modelled.
- Ingestion.UpdateRow: when a stored average and a batch average are both present and both update counts are 0, the source divides 0 by 0 and stores NaN. PostgreSQL's numeric type accepts NaN, and every later merge of that row keeps it. The model stores the equal-weight mean, because its average columns hold a number or null. `Ingestion.UpsertHourlyStats`, `Ingestion.Ingest`, `Ingestion.IngestBatch` and `Database.Store.ProcessBptfEventsFromWebsocket` inherit this. `Ingestion.DeleteOnlyRowsReachNaN` exhibits the case with the source's arithmetic.
- Ranking.QueryItemsWithFilters: a negative `limit` option gives an empty result here. The source passes it to `LIMIT`, which PostgreSQL rejects with an error. The dashboard's callers pass 9 or a value from a fixed list.
- The serial `id` columns of the hourly and daily tables are not modelled, because nothing reads them. The raw `listing_events` table is keyed by its primary key `id`.

## Findings

| source | as written | input that shows it | evidently intended | confidence | as-written member | corrected member |
|---|---|---|---|---|---|---|
| apps/bptf-analyzer-data-collector/src/db/queries/bptf-items.ts:163-167 | the composite key `name + "_" + hourIso` is split with `split('_', 2)`, which cuts at the first '_', so the lookup never finds the stored row of an item whose name contains '_' | item "Mann_Co Key": the name read back is "Mann", the hour text "Co Key"; with that item's row already stored, or with an hour text that is no date, the whole batch rolls back | recover the item name and the hour for every item, so that every batch commits; the hour text never contains '_', so split at the last one | high, not executed | Ingestion.UnderscoreNameRollsBack | Ingestion.ParseKeyAtLastRoundTrip |
| apps/bptf-analyzer-data-collector/src/db/queries/bptf-items.ts:223-225 | two present averages are merged by dividing by `existing.updateCount + stat.updateCount`, even when that is 0 | two delete-only batches with prices for the same new (item, hour): the stored update count is 0, so the merge is 0/0 = NaN | a merged average that is a number; with zero total weight the model gives both averages equal weight | medium, not executed | Ingestion.DeleteOnlyRowsReachNaN | Averaging.AsWrittenAgreesWhenWeighted |
| apps/bptf-analyzer-data-collector/src/db/queries/bptf-items.ts:448-487 | the daily average divides `SUM(COALESCE(avg, 0) * update_count)` by the total update count, so hours without the average count as 0 | hours with averages 10 and null, one update each: daily average 5 | the update-weighted mean of the hours that have the average, null when none has, as the hourly merge treats nulls | medium, not executed | Compaction.CoalesceDragsTowardZero | Compaction.DailyAverageBounds |
| apps/bptf-analyzer-data-collector/src/db/queries/bptf-items.ts:360-375 | the catalog is LEFT JOINed with the window's rows and ordered by `SUM(...) DESC`; PostgreSQL sorts NULL first in a descending order, so items without activity rank above every active item | one item with five events and one with none, top 1: the idle item is returned | the most active items first, with no activity counting as 0 | high, not executed | TopItems.IdleItemRanksFirst | TopItems.RankByActivityIsTop |
