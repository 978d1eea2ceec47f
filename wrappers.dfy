/** Optional values and results with an error, as used throughout the model. */
module Wrappers {

  /** A value that may be absent: SQL NULL, a JavaScript `null` or `undefined`. */
  datatype Option<+T> = None | Some(value: T) {
    function GetOr(default: T): T {
      match this
      case Some(v) => v
      case None => default
    }
  }

  /** The outcome of an operation that can fail with an error `E`. */
  datatype Result<+T, +E> = Ok(value: T) | Err(error: E)
}

/** Wall-clock arithmetic on millisecond timestamps (JavaScript `Date.getTime()` values). */
module Clock {

  const SECOND_MS: int := 1000
  const MINUTE_MS: int := 60 * SECOND_MS
  const HOUR_MS: int := 60 * MINUTE_MS
  const DAY_MS: int := 24 * HOUR_MS

  /**
   * The start of the hour that contains `t`: the source builds a `Date` from
   * the year, month, day and hour of `t` with minutes, seconds and milliseconds
   * set to zero. Time zones are left out: hours are aligned to the epoch.
   */
  function TruncateToHour(t: int): (h: int)
    ensures h <= t < h + HOUR_MS
    ensures h % HOUR_MS == 0
  {
    t - t % HOUR_MS
  }

  /**
   * The start of the day that contains `t` (`setHours(0, 0, 0, 0)`), with
   * days aligned to the epoch as hours are.
   */
  function TruncateToDay(t: int): (d: int)
    ensures d <= t < d + DAY_MS
    ensures d % DAY_MS == 0
  {
    t - t % DAY_MS
  }

  /** Truncating an hour-aligned time changes nothing, so bucketing is idempotent. */
  lemma {:induction false} TruncateIdempotent(t: int)
    ensures TruncateToHour(TruncateToHour(t)) == TruncateToHour(t)
  {
  }
}
