/**
 * `addBatchDataInTransaction`: every event of a batch becomes one row of the
 * raw `listing_events` table, inserted in one transaction that must finish
 * within 30 seconds; a failed attempt is retried after an exponential backoff
 * (1 s, 2 s, 4 s) and the error of the fourth attempt is rethrown.
 *
 * The database's timing and availability are the environment: `Attempt` says,
 * for each attempt, when it starts, how long the transaction takes, whether the
 * connection fails and whether a transaction that lost the race against the
 * timeout still commits afterwards (the timeout does not cancel it).
 */
module ListingEvents {
  import opened Wrappers
  import opened Events

  const MAX_RETRIES: nat := 3
  const TRANSACTION_TIMEOUT_MS: nat := 30000
  const NOT_SPECIFIED: string := "Not Specified"

  /** The columns of a `listing_events` row that the mapping computes rather than copies; times in milliseconds. */
  datatype ListingRow = ListingRow(
    id: string,
    event: string,
    createdAt: int,
    listingId: string,
    itemName: string,
    metalAmount: Option<real>,
    keysAmount: Option<real>,
    itemQualityName: Option<string>,
    itemQualityColor: Option<string>,
    userAgentClient: string,
    userAgentLastPulse: Option<int>,
    listedAt: int,
    bumpedAt: int,
    creationStatus: string)

  /** `new Date(seconds * 1000)`: a time in seconds as milliseconds. */
  function SecondsToMs(seconds: int): (ms: int)
    ensures ms / 1000 == seconds && ms % 1000 == 0
  {
    seconds * 1000
  }

  /** `userAgent?.client || "Not Specified"`: a missing or empty client becomes the placeholder. */
  function ClientOf(ua: Option<UserAgent>): (client: string)
    ensures client == NOT_SPECIFIED <==> ua.None? || ua.value.client == "" || ua.value.client == NOT_SPECIFIED
    ensures client != NOT_SPECIFIED ==> ua.Some? && client == ua.value.client
  {
    if ua.Some? && ua.value.client != "" then ua.value.client else NOT_SPECIFIED
  }

  /** The row for one event, built when the attempt started at `now`. */
  function ToRow(e: Event, now: int): ListingRow {
    ListingRow(
      e.id,
      e.kind,
      now,
      e.listingId,
      e.itemName,
      e.metal,
      e.keys,
      NonEmpty(if e.quality.Some? then Some(e.quality.value.name) else None),
      NonEmpty(if e.quality.Some? then Some(e.quality.value.color) else None),
      ClientOf(e.userAgent),
      if e.userAgent.Some? then Some(SecondsToMs(e.userAgent.value.lastPulse)) else None,
      SecondsToMs(e.listedAt),
      SecondsToMs(e.bumpedAt),
      e.kind)
  }

  /**
   * `events.map(...)`: one row per event, in order, whatever its kind. The row
   * keeps the event's id and kind, its amounts as they are (a zero amount is
   * kept, unlike the truthiness test of the hourly aggregation) and its
   * second-based times in milliseconds.
   */
  function Rows(events: seq<Event>, now: int): seq<ListingRow> {
    seq(|events|, i requires 0 <= i < |events| => ToRow(events[i], now))
  }

  /**
   * One row per event, in order: the row keeps the event's id and kind, its
   * amounts as they are and its second-based times in milliseconds.
   */
  lemma {:induction false} RowsMapEvents(events: seq<Event>, now: int)
    ensures var r := Rows(events, now);
      && |r| == |events|
      && forall i :: 0 <= i < |r| ==>
        && r[i].id == events[i].id && r[i].event == events[i].kind && r[i].creationStatus == events[i].kind
        && r[i].createdAt == now
        && r[i].metalAmount == events[i].metal && r[i].keysAmount == events[i].keys
        && r[i].listedAt / 1000 == events[i].listedAt && r[i].bumpedAt / 1000 == events[i].bumpedAt
        && (r[i].userAgentLastPulse.Some? <==> events[i].userAgent.Some?)
  {
  }

  /** The `listing_events` table, keyed by its primary key `id`. */
  type ListingTable = map<string, ListingRow>

  /** `creation_status` is the enum ('listing-update', 'listing-delete'). */
  predicate ValidStatus(status: string) {
    status == LISTING_UPDATE || status == LISTING_DELETE
  }

  datatype InsertError = DuplicateId(id: string) | InvalidCreationStatus(status: string)

  /**
   * The multi-row INSERT: it fails as a whole when a row's `creation_status`
   * is not one of the enum's values, or its id repeats a stored row or an
   * earlier row of the same statement. Only a non-empty statement can fail,
   * and a successful one keeps every stored id.
   */
  function Insert(table: ListingTable, rows: seq<ListingRow>): (r: Result<ListingTable, InsertError>)
    ensures r.Err? ==> rows != []
    ensures r.Ok? ==> table.Keys <= r.value.Keys
    decreases |rows|
  {
    if rows == [] then Ok(table)
    else if !ValidStatus(rows[0].creationStatus) then Err(InvalidCreationStatus(rows[0].creationStatus))
    else if rows[0].id in table then Err(DuplicateId(rows[0].id))
    else
      Insert(table[rows[0].id := rows[0]], rows[1..])
  }

  /**
   * A successful INSERT adds exactly the batch's ids, each with its row, and
   * keeps every stored row.
   */
  lemma {:induction false} InsertWrites(table: ListingTable, rows: seq<ListingRow>)
    requires Insert(table, rows).Ok?
    ensures Insert(table, rows).value.Keys == table.Keys + set i | 0 <= i < |rows| :: rows[i].id
    ensures forall i :: 0 <= i < |rows| ==> Insert(table, rows).value[rows[i].id] == rows[i]
    ensures forall id :: id in table ==> Insert(table, rows).value[id] == table[id]
    decreases |rows|
  {
    if rows != [] {
      var rest := rows[1..];
      var table' := table[rows[0].id := rows[0]];
      InsertWrites(table', rest);
      RowIdsCons(rows);
      var r := Insert(table, rows).value;
      assert r == Insert(table', rest).value;
      forall i | 0 <= i < |rows| ensures r[rows[i].id] == rows[i] {
        if i > 0 {
          assert rows[i] == rest[i - 1];
        }
      }
    }
  }

  /** The ids of a non-empty batch of rows are its first row's id and the ids of the rest. */
  lemma {:induction false} RowIdsCons(rows: seq<ListingRow>)
    requires rows != []
    ensures (set i | 0 <= i < |rows| :: rows[i].id) == {rows[0].id} + set i | 0 <= i < |rows[1..]| :: rows[1..][i].id
  {
    var later := set i | 0 <= i < |rows[1..]| :: rows[1..][i].id;
    forall id | id in later ensures id in set i | 0 <= i < |rows| :: rows[i].id {
      var i :| 0 <= i < |rows[1..]| && rows[1..][i].id == id;
      assert rows[i + 1].id == id;
    }
    forall id | id in set i | 0 <= i < |rows| :: rows[i].id ensures id in {rows[0].id} + later {
      var i :| 0 <= i < |rows| && rows[i].id == id;
      if i > 0 {
        assert rows[1..][i - 1].id == id;
      }
    }
  }

  /** The INSERT succeeds exactly when every status is valid and every id is new and appears once. */
  lemma {:induction false} InsertSucceedsIff(table: ListingTable, rows: seq<ListingRow>)
    ensures Insert(table, rows).Ok? <==>
      && (forall i :: 0 <= i < |rows| ==> ValidStatus(rows[i].creationStatus) && rows[i].id !in table)
      && (forall i, j :: 0 <= i < j < |rows| ==> rows[i].id != rows[j].id)
    decreases |rows|
  {
    if rows != [] && ValidStatus(rows[0].creationStatus) && rows[0].id !in table {
      InsertSucceedsIff(table[rows[0].id := rows[0]], rows[1..]);
      if Insert(table, rows).Ok? {
        forall i, j | 0 <= i < j < |rows| ensures rows[i].id != rows[j].id {
          if i > 0 {
            assert rows[1..][i - 1] == rows[i] && rows[1..][j - 1] == rows[j];
          } else {
            assert rows[1..][j - 1] == rows[j];
          }
        }
      }
    }
  }

  /** The transaction body: no statement at all for an empty batch, else the INSERT. */
  function Transaction(table: ListingTable, events: seq<Event>, now: int): (r: Result<ListingTable, InsertError>)
    ensures events == [] ==> r == Ok(table)
  {
    var rows := Rows(events, now);
    if |rows| > 0 then Insert(table, rows) else Ok(table)
  }

  /** What the environment does with one attempt. */
  datatype Attempt = Attempt(startedAt: int, durationMs: nat, connectionLost: bool, commitsAfterTimeout: bool)

  datatype Failure = Timeout | ConnectionLost | Rejected(error: InsertError)

  /** One attempt lost the race against the timeout timer (the timer wins a tie). */
  predicate TimedOut(a: Attempt) {
    a.durationMs >= TRANSACTION_TIMEOUT_MS
  }

  /** The outcome of one attempt and the table afterwards. */
  function RunAttempt(table: ListingTable, events: seq<Event>, a: Attempt): (r: (Result<(), Failure>, ListingTable))
    ensures TimedOut(a) ==> r.0 == Err(Timeout)
    ensures r.0.Ok? <==> !TimedOut(a) && !a.connectionLost && Transaction(table, events, a.startedAt).Ok?
    ensures r.0.Ok? ==> r.1 == Transaction(table, events, a.startedAt).value
    ensures r.1 == table || Transaction(table, events, a.startedAt) == Ok(r.1)
  {
    var tx := Transaction(table, events, a.startedAt);
    if TimedOut(a) then
      (Err(Timeout), if a.commitsAfterTimeout && !a.connectionLost && tx.Ok? then tx.value else table)
    else if a.connectionLost then (Err(ConnectionLost), table)
    else if tx.Ok? then (Ok(()), tx.value)
    else (Err(Rejected(tx.error)), table)
  }

  /**
   * An attempt keeps every stored row, and one that succeeds has stored each
   * event's row under the event's id.
   */
  lemma {:induction false} AttemptWrites(table: ListingTable, events: seq<Event>, a: Attempt)
    ensures var r := RunAttempt(table, events, a);
      forall id :: id in table ==> id in r.1 && r.1[id] == table[id]
    ensures var r := RunAttempt(table, events, a);
      r.0.Ok? ==> forall i :: 0 <= i < |events| ==> events[i].id in r.1 && r.1[events[i].id] == ToRow(events[i], a.startedAt)
  {
    var rows := Rows(events, a.startedAt);
    if |rows| > 0 && Insert(table, rows).Ok? {
      InsertWrites(table, rows);
      assert forall i :: 0 <= i < |events| ==> rows[i] == ToRow(events[i], a.startedAt);
    }
  }

  /** `Math.pow(2, retryCount) * 1000`. */
  function BackoffMs(retryCount: nat): (ms: nat)
    ensures ms >= 1000
    decreases retryCount
  {
    if retryCount == 0 then 1000 else 2 * BackoffMs(retryCount - 1)
  }

  /** The result of a call, the table it leaves, the backoff sleeps in order and the number of attempts. */
  datatype Call = Call(result: Result<(), Failure>, table: ListingTable, waits: seq<nat>, attempts: nat)

  /**
   * `addBatchDataInTransaction(events, retryCount)`: `env(k)` describes the
   * attempt made with `retryCount == k`.
   */
  function AddBatch(table: ListingTable, events: seq<Event>, env: nat -> Attempt, retryCount: nat): (c: Call)
    ensures c.attempts >= 1 && |c.waits| == c.attempts - 1
    ensures forall id :: id in table ==> id in c.table && c.table[id] == table[id]
    ensures c.result.Ok? ==> forall i :: 0 <= i < |events| ==>
      events[i].id in c.table && c.table[events[i].id] == ToRow(events[i], env(retryCount + c.attempts - 1).startedAt)
    decreases if retryCount < MAX_RETRIES then MAX_RETRIES - retryCount else 0
  {
    AttemptWrites(table, events, env(retryCount));
    var (outcome, after) := RunAttempt(table, events, env(retryCount));
    if outcome.Ok? then Call(Ok(()), after, [], 1)
    else if retryCount < MAX_RETRIES then
      var rest := AddBatch(after, events, env, retryCount + 1);
      Call(rest.result, rest.table, [BackoffMs(retryCount)] + rest.waits, rest.attempts + 1)
    else Call(outcome, after, [], 1)
  }

  /**
   * A call started at `retryCount` makes at most `MAX_RETRIES + 1 - retryCount`
   * attempts and gives up only when no retry is left.
   */
  lemma {:induction false} RetryAttempts(table: ListingTable, events: seq<Event>, env: nat -> Attempt, retryCount: nat)
    requires retryCount <= MAX_RETRIES
    ensures var c := AddBatch(table, events, env, retryCount);
      && c.attempts <= MAX_RETRIES + 1 - retryCount
      && (c.result.Err? ==> c.attempts == MAX_RETRIES + 1 - retryCount)
    decreases MAX_RETRIES - retryCount
  {
    var first := RunAttempt(table, events, env(retryCount));
    if first.0.Err? && retryCount < MAX_RETRIES {
      var c := AddBatch(table, events, env, retryCount);
      var rest := AddBatch(first.1, events, env, retryCount + 1);
      RetryAttempts(first.1, events, env, retryCount + 1);
      assert c.attempts == rest.attempts + 1 && c.result == rest.result;
    }
  }

  /** The sleep after the failed attempt made with `retryCount == k` lasts `2^k * 1000` ms. */
  lemma {:induction false} RetryWaits(table: ListingTable, events: seq<Event>, env: nat -> Attempt, retryCount: nat)
    ensures var c := AddBatch(table, events, env, retryCount);
      forall i :: 0 <= i < |c.waits| ==> c.waits[i] == BackoffMs(retryCount + i)
    decreases if retryCount < MAX_RETRIES then MAX_RETRIES - retryCount else 0
  {
    var first := RunAttempt(table, events, env(retryCount));
    if first.0.Err? && retryCount < MAX_RETRIES {
      var c := AddBatch(table, events, env, retryCount);
      var rest := AddBatch(first.1, events, env, retryCount + 1);
      RetryWaits(first.1, events, env, retryCount + 1);
      assert c.waits == [BackoffMs(retryCount)] + rest.waits;
      forall i | 0 < i < |c.waits| ensures c.waits[i] == BackoffMs(retryCount + i) {
        assert c.waits[i] == rest.waits[i - 1];
      }
    }
  }

  /** From the first call: at most four attempts, and the sleeps are 1000, 2000 and 4000 ms in that order. */
  lemma {:induction false} FirstCallSchedule(table: ListingTable, events: seq<Event>, env: nat -> Attempt)
    ensures var c := AddBatch(table, events, env, 0);
      && 1 <= c.attempts <= 4
      && c.waits <= [1000, 2000, 4000]
      && (c.result.Err? ==> c.waits == [1000, 2000, 4000])
  {
    RetryAttempts(table, events, env, 0);
    RetryWaits(table, events, env, 0);
    var c := AddBatch(table, events, env, 0);
    assert BackoffMs(1) == 2000 && BackoffMs(2) == 4000;
    assert forall i :: 0 <= i < |c.waits| ==> c.waits[i] == [1000, 2000, 4000][i];
  }

  /** An attempt the transaction does not finish within 30000 ms counts as failed, whatever the database does. */
  lemma {:induction false} TimeoutIsFailure(table: ListingTable, events: seq<Event>, env: nat -> Attempt, retryCount: nat)
    requires TimedOut(env(retryCount))
    ensures AddBatch(table, events, env, retryCount).attempts > 1 || retryCount >= MAX_RETRIES
    ensures retryCount >= MAX_RETRIES ==> AddBatch(table, events, env, retryCount).result == Err(Timeout)
  {
  }

  /**
   * The error of the last attempt is the one rethrown: a batch the database
   * rejects (here, one holding an event whose kind is not a listing update or
   * delete) fails all four attempts, with all three sleeps, and stores nothing.
   */
  lemma {:induction false} RejectedBatchExhaustsRetries(table: ListingTable, events: seq<Event>, env: nat -> Attempt, retryCount: nat, i: nat)
    requires retryCount <= MAX_RETRIES
    requires i < |events| && !ValidStatus(events[i].kind)
    requires forall k :: !TimedOut(env(k)) && !env(k).connectionLost
    ensures var c := AddBatch(table, events, env, retryCount);
      c.result.Err? && c.result.error.Rejected? && c.table == table && c.attempts == MAX_RETRIES + 1 - retryCount
    decreases MAX_RETRIES - retryCount
  {
    RejectedAttempt(table, events, env(retryCount), i);
    var first := RunAttempt(table, events, env(retryCount));
    assert first.0.Err? && first.1 == table;
    if retryCount < MAX_RETRIES {
      RejectedBatchExhaustsRetries(table, events, env, retryCount + 1, i);
      var rest := AddBatch(table, events, env, retryCount + 1);
      assert AddBatch(table, events, env, retryCount).result == rest.result;
      assert AddBatch(table, events, env, retryCount).table == rest.table;
    }
  }

  /** One attempt on a batch the database rejects fails with the rejection and leaves the table as it was. */
  lemma {:induction false} RejectedAttempt(table: ListingTable, events: seq<Event>, a: Attempt, i: nat)
    requires i < |events| && !ValidStatus(events[i].kind)
    requires !TimedOut(a) && !a.connectionLost
    ensures RunAttempt(table, events, a).0.Err? && RunAttempt(table, events, a).0.error.Rejected?
    ensures RunAttempt(table, events, a).1 == table
  {
    var rows := Rows(events, a.startedAt);
    RowsMapEvents(events, a.startedAt);
    assert !ValidStatus(rows[i].creationStatus);
    InsertSucceedsIff(table, rows);
  }

  /**
   * A first attempt that times out but commits afterwards makes every retry
   * fail on the primary key: the call throws although the rows are stored.
   */
  lemma {:induction false} LateCommitFailsRetries(table: ListingTable, events: seq<Event>, env: nat -> Attempt)
    requires |events| > 0
    requires Transaction(table, events, env(0).startedAt).Ok?
    requires TimedOut(env(0)) && env(0).commitsAfterTimeout && !env(0).connectionLost
    requires forall k :: k > 0 ==> !TimedOut(env(k)) && !env(k).connectionLost
    ensures var c := AddBatch(table, events, env, 0);
      && c.result == Err(Rejected(DuplicateId(events[0].id)))
      && c.attempts == MAX_RETRIES + 1
      && forall i :: 0 <= i < |events| ==> events[i].id in c.table
  {
    var stored := Transaction(table, events, env(0).startedAt).value;
    var rows0 := Rows(events, env(0).startedAt);
    RowsMapEvents(events, env(0).startedAt);
    assert rows0[0].id == events[0].id;
    InsertWrites(table, rows0);
    assert forall i :: 0 <= i < |events| ==> events[i].id in stored by {
      forall i | 0 <= i < |events| ensures events[i].id in stored {
        assert rows0[i].id == events[i].id;
      }
    }
    assert ValidStatus(rows0[0].creationStatus);
    forall k | 1 <= k <= MAX_RETRIES
      ensures Transaction(stored, events, env(k).startedAt) == Err(DuplicateId(events[0].id))
    {
      var rows := Rows(events, env(k).startedAt);
      RowsMapEvents(events, env(k).startedAt);
      assert rows[0].id == events[0].id && rows[0].creationStatus == events[0].kind;
    }
  }

  /** An empty batch runs no statement: it stores nothing, and succeeds unless the attempt times out or loses its connection. */
  lemma {:induction false} EmptyBatchStoresNothing(table: ListingTable, env: nat -> Attempt, retryCount: nat)
    requires retryCount <= MAX_RETRIES
    ensures AddBatch(table, [], env, retryCount).table == table
    ensures !TimedOut(env(retryCount)) && !env(retryCount).connectionLost ==>
      AddBatch(table, [], env, retryCount) == Call(Ok(()), table, [], 1)
    decreases MAX_RETRIES - retryCount
  {
    EmptyAttempt(table, env(retryCount));
    if retryCount < MAX_RETRIES {
      EmptyBatchStoresNothing(table, env, retryCount + 1);
    }
  }

  /** One attempt on an empty batch leaves the table as it was, and fails only on a timeout or a lost connection. */
  lemma {:induction false} EmptyAttempt(table: ListingTable, a: Attempt)
    ensures RunAttempt(table, [], a).1 == table
    ensures RunAttempt(table, [], a).0.Ok? <==> !TimedOut(a) && !a.connectionLost
  {
    assert Transaction(table, [], a.startedAt) == Ok(table);
  }
}
