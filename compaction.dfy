/**
 * Daily compaction (`aggregateHourlyToDailyStats`): the hourly rows of one day
 * are grouped by item, their counts summed and their averages combined with
 * the hours' update counts as weights, and one daily row per item is upserted.
 * The query reads a missing hourly average as zero (`DailyAverageAsWritten`);
 * `DailyAverage` is the reading that skips such hours, as the hourly merge
 * does, and is kept beside it for comparison.
 *
 * The query works on a scan `rows` of the hourly table (see `Schema.Lists`).
 */
module Compaction {
  import opened Wrappers
  import opened Schema
  import opened Averaging
  import Seqs

  /** `endOfDay - startOfDay` for a day of 24 hours: 23:59:59.999 minus 00:00. */
  const DAY_WINDOW_MS: int := 86_399_999

  /** `hour_timestamp >= startOfDay AND hour_timestamp < endOfDay`. */
  predicate InDay(r: HourlyRecord, startOfDay: int) {
    startOfDay <= r.key.hour < startOfDay + DAY_WINDOW_MS
  }

  /** The hourly rows of item `name` on the day starting at `startOfDay` (one GROUP BY group). */
  function ItemRows(rows: seq<HourlyRecord>, name: string, startOfDay: int): (r: seq<HourlyRecord>)
    ensures forall i :: 0 <= i < |r| ==> r[i] in rows && r[i].key.itemName == name && InDay(r[i], startOfDay)
    ensures forall i :: 0 <= i < |rows| && rows[i].key.itemName == name && InDay(rows[i], startOfDay) ==> rows[i] in r
  {
    Seqs.Filter(rows, (x: HourlyRecord) => InDay(x, startOfDay) && x.key.itemName == name)
  }

  /** The item names that have at least one hourly row on the day: one result row each. */
  function DayNames(rows: seq<HourlyRecord>, startOfDay: int): set<string> {
    set i | 0 <= i < |rows| && InDay(rows[i], startOfDay) :: rows[i].key.itemName
  }

  /** `SUM(update_count)`. */
  function SumUpdates(rows: seq<HourlyRecord>): nat
    decreases |rows|
  {
    if rows == [] then 0 else SumUpdates(rows[..|rows| - 1]) + rows[|rows| - 1].row.updateCount
  }

  /** `SUM(delete_count)`. */
  function SumDeletes(rows: seq<HourlyRecord>): nat
    decreases |rows|
  {
    if rows == [] then 0 else SumDeletes(rows[..|rows| - 1]) + rows[|rows| - 1].row.deleteCount
  }

  /** One hour's average of a figure with that hour's update count as its weight. */
  datatype Weighted = Weighted(weight: nat, avg: Option<real>)

  /** The weighted averages of figure `f` over some hours. */
  function Column(rows: seq<HourlyRecord>, f: Field): (c: seq<Weighted>)
    ensures |c| == |rows|
    ensures forall i :: 0 <= i < |rows| ==> c[i] == Weighted(rows[i].row.updateCount, rows[i].row.avgs.Get(f))
  {
    seq(|rows|, i requires 0 <= i < |rows| => Weighted(rows[i].row.updateCount, rows[i].row.avgs.Get(f)))
  }

  /** The sum of all weights. */
  function TotalWeight(ws: seq<Weighted>): nat
    decreases |ws|
  {
    if ws == [] then 0 else TotalWeight(ws[..|ws| - 1]) + ws[|ws| - 1].weight
  }

  /** `SUM(COALESCE(avg, 0) * update_count)`: an hour without the average counts as zero. */
  function CoalescedSum(ws: seq<Weighted>): real
    decreases |ws|
  {
    if ws == [] then 0.0
    else CoalescedSum(ws[..|ws| - 1]) + ws[|ws| - 1].avg.GetOr(0.0) * ws[|ws| - 1].weight as real
  }

  /**
   * The daily average as written: `SUM(COALESCE(avg, 0) * u) / SUM(u)`, null
   * exactly when the hours have no updates.
   */
  function CoalescedAverage(ws: seq<Weighted>): (r: Option<real>)
    ensures r.None? <==> TotalWeight(ws) == 0
    ensures r.Some? ==> r.value * TotalWeight(ws) as real == CoalescedSum(ws)
  {
    if TotalWeight(ws) > 0 then Some(CoalescedSum(ws) / TotalWeight(ws) as real) else None
  }

  /** The weights of the hours that have the average. */
  function PresentWeight(ws: seq<Weighted>): nat
    decreases |ws|
  {
    if ws == [] then 0
    else PresentWeight(ws[..|ws| - 1]) + (if ws[|ws| - 1].avg.Some? then ws[|ws| - 1].weight else 0)
  }

  /** The weighted sum over the hours that have the average. */
  function PresentSum(ws: seq<Weighted>): real
    decreases |ws|
  {
    if ws == [] then 0.0
    else
      var last := ws[|ws| - 1];
      PresentSum(ws[..|ws| - 1]) + (if last.avg.Some? then last.avg.value * last.weight as real else 0.0)
  }

  /**
   * The average as the hourly merge combines averages: hours without the
   * average are left out instead of counting as zero, and the result is null
   * when no hour with the average has an update.
   */
  function PresentAverage(ws: seq<Weighted>): (r: Option<real>)
    ensures r.None? <==> PresentWeight(ws) == 0
    ensures r.Some? ==> r.value * PresentWeight(ws) as real == PresentSum(ws)
  {
    if PresentWeight(ws) > 0 then Some(PresentSum(ws) / PresentWeight(ws) as real) else None
  }

  /** The daily average of figure `f` as written. */
  function DailyAverageAsWritten(rows: seq<HourlyRecord>, f: Field): Option<real> {
    CoalescedAverage(Column(rows, f))
  }

  /** The daily average of figure `f`, skipping hours without it as the hourly merge does. */
  function DailyAverage(rows: seq<HourlyRecord>, f: Field): Option<real> {
    PresentAverage(Column(rows, f))
  }

  /** A lower bound of the present averages bounds their weighted sum. */
  lemma {:induction false} WeightedSumAtLeast(ws: seq<Weighted>, lo: real)
    requires forall i :: 0 <= i < |ws| && ws[i].avg.Some? ==> lo <= ws[i].avg.value
    ensures lo * PresentWeight(ws) as real <= PresentSum(ws)
    decreases |ws|
  {
    if ws != [] {
      var init := ws[..|ws| - 1];
      assert forall i :: 0 <= i < |init| ==> init[i] == ws[i];
      WeightedSumAtLeast(init, lo);
      AtLeastStep(ws, lo);
    }
  }

  /** The step of `WeightedSumAtLeast`: one more hour keeps the bound. */
  lemma {:induction false} AtLeastStep(ws: seq<Weighted>, lo: real)
    requires ws != []
    requires lo * PresentWeight(ws[..|ws| - 1]) as real <= PresentSum(ws[..|ws| - 1])
    requires ws[|ws| - 1].avg.Some? ==> lo <= ws[|ws| - 1].avg.value
    ensures lo * PresentWeight(ws) as real <= PresentSum(ws)
  {
    var init, last := ws[..|ws| - 1], ws[|ws| - 1];
    if last.avg.Some? {
      StepAtLeast(lo, PresentWeight(init) as real, PresentSum(init), last.weight as real, last.avg.value,
        PresentWeight(ws) as real, PresentSum(ws));
    } else {
      StepAtLeast(lo, PresentWeight(init) as real, PresentSum(init), 0.0, lo, PresentWeight(ws) as real, PresentSum(ws));
    }
  }

  /** An upper bound of the present averages bounds their weighted sum. */
  lemma {:induction false} WeightedSumAtMost(ws: seq<Weighted>, hi: real)
    requires forall i :: 0 <= i < |ws| && ws[i].avg.Some? ==> ws[i].avg.value <= hi
    ensures PresentSum(ws) <= hi * PresentWeight(ws) as real
    decreases |ws|
  {
    if ws != [] {
      var init := ws[..|ws| - 1];
      assert forall i :: 0 <= i < |init| ==> init[i] == ws[i];
      WeightedSumAtMost(init, hi);
      AtMostStep(ws, hi);
    }
  }

  /** The step of `WeightedSumAtMost`: one more hour keeps the bound. */
  lemma {:induction false} AtMostStep(ws: seq<Weighted>, hi: real)
    requires ws != []
    requires PresentSum(ws[..|ws| - 1]) <= hi * PresentWeight(ws[..|ws| - 1]) as real
    requires ws[|ws| - 1].avg.Some? ==> ws[|ws| - 1].avg.value <= hi
    ensures PresentSum(ws) <= hi * PresentWeight(ws) as real
  {
    var init, last := ws[..|ws| - 1], ws[|ws| - 1];
    if last.avg.Some? {
      StepAtMost(hi, PresentWeight(init) as real, PresentSum(init), last.weight as real, last.avg.value,
        PresentWeight(ws) as real, PresentSum(ws));
    } else {
      StepAtMost(hi, PresentWeight(init) as real, PresentSum(init), 0.0, hi, PresentWeight(ws) as real, PresentSum(ws));
    }
  }

  /** A quotient of a sum that lies between w * lo and w * hi lies between lo and hi. */
  lemma {:induction false} QuotientBounds(r: real, w: real, sum: real, lo: real, hi: real)
    requires w > 0.0 && r * w == sum
    requires lo * w <= sum <= hi * w
    ensures lo <= r <= hi
  {
    assert (r - lo) * w == sum - lo * w && (hi - r) * w == hi * w - sum;
    NonNegFactor(r - lo, w);
    NonNegFactor(hi - r, w);
  }

  /** The merged average lies between the smallest and the largest average it combines. */
  lemma {:induction false} PresentAverageBounds(ws: seq<Weighted>, lo: real, hi: real)
    requires forall i :: 0 <= i < |ws| && ws[i].avg.Some? ==> lo <= ws[i].avg.value <= hi
    requires PresentAverage(ws).Some?
    ensures lo <= PresentAverage(ws).value <= hi
  {
    var r, w, sum := PresentAverage(ws).value, PresentWeight(ws) as real, PresentSum(ws);
    assert r * w == sum && w > 0.0;
    assert lo * w <= sum by {
      WeightedSumAtLeast(ws, lo);
    }
    assert sum <= hi * w by {
      WeightedSumAtMost(ws, hi);
    }
    QuotientBounds(r, w, sum, lo, hi);
  }

  /** The daily average lies between the smallest and the largest hourly average of the day. */
  lemma {:induction false} DailyAverageBounds(rows: seq<HourlyRecord>, f: Field, lo: real, hi: real)
    requires forall i :: 0 <= i < |rows| && rows[i].row.avgs.Get(f).Some? ==> lo <= rows[i].row.avgs.Get(f).value <= hi
    requires DailyAverage(rows, f).Some?
    ensures lo <= DailyAverage(rows, f).value <= hi
  {
    PresentAverageBounds(Column(rows, f), lo, hi);
  }

  lemma {:induction false} AllPresentSums(ws: seq<Weighted>)
    requires forall i :: 0 <= i < |ws| ==> ws[i].avg.Some?
    ensures PresentWeight(ws) == TotalWeight(ws)
    ensures PresentSum(ws) == CoalescedSum(ws)
    decreases |ws|
  {
    if ws != [] {
      AllPresentSums(ws[..|ws| - 1]);
    }
  }

  /** When every hour of the day has the average, COALESCE changes nothing. */
  lemma {:induction false} AsWrittenAgreesWhenPresent(rows: seq<HourlyRecord>, f: Field)
    requires forall i :: 0 <= i < |rows| ==> rows[i].row.avgs.Get(f).Some?
    ensures DailyAverageAsWritten(rows, f) == DailyAverage(rows, f)
  {
    AllPresentSums(Column(rows, f));
  }

  /**
   * An hour with updates but no average drags the day towards zero: one update
   * at 10 and one update without the figure give 5 as written, 10 as merged.
   */
  lemma {:induction false} CoalesceDragsTowardZero()
    ensures var ws := [Weighted(1, Some(10.0)), Weighted(1, None)];
            CoalescedAverage(ws) == Some(5.0) && PresentAverage(ws) == Some(10.0)
  {
    var ws := [Weighted(1, Some(10.0)), Weighted(1, None)];
    assert ws[..1] == [ws[0]];
    assert ws[..1][..0] == [];
    assert TotalWeight(ws[..1]) == 1 && CoalescedSum(ws[..1]) == 10.0;
    assert PresentWeight(ws[..1]) == 1 && PresentSum(ws[..1]) == 10.0;
    assert TotalWeight(ws) == 2 && CoalescedSum(ws) == 10.0;
    assert PresentWeight(ws) == 1 && PresentSum(ws) == 10.0;
  }

  /**
   * Hours that all lack the average but have updates: as written the day gets
   * an average of 0, merged it stays null.
   */
  lemma {:induction false} MissingFigureBecomesZero()
    ensures CoalescedAverage([Weighted(4, None)]) == Some(0.0)
    ensures PresentAverage([Weighted(4, None)]) == None
  {
    var ws := [Weighted(4, None)];
    assert ws[..0] == [];
    assert TotalWeight(ws) == 4 && CoalescedSum(ws) == 0.0;
    assert PresentWeight(ws) == 0;
  }

  /**
   * Hours with weights 10, 5, 5 and averages 2, 4, 6 give a daily average of
   * 70 / 20 = 3.5, as written and merged alike.
   */
  lemma {:induction false} CompactionExample()
    ensures CoalescedAverage([Weighted(10, Some(2.0)), Weighted(5, Some(4.0)), Weighted(5, Some(6.0))]) == Some(3.5)
    ensures PresentAverage([Weighted(10, Some(2.0)), Weighted(5, Some(4.0)), Weighted(5, Some(6.0))]) == Some(3.5)
  {
    var ws := [Weighted(10, Some(2.0)), Weighted(5, Some(4.0)), Weighted(5, Some(6.0))];
    assert ws[..2] == [ws[0], ws[1]];
    assert ws[..2][..1] == [ws[0]];
    assert ws[..2][..1][..0] == [];
    assert PresentWeight(ws[..2][..1]) == 10 && PresentSum(ws[..2][..1]) == 20.0;
    assert PresentWeight(ws[..2]) == 15 && PresentSum(ws[..2]) == 40.0;
    assert PresentWeight(ws) == 20 && PresentSum(ws) == 70.0;
    assert TotalWeight(ws[..2][..1]) == 10 && CoalescedSum(ws[..2][..1]) == 20.0;
    assert TotalWeight(ws[..2]) == 15 && CoalescedSum(ws[..2]) == 40.0;
    assert TotalWeight(ws) == 20 && CoalescedSum(ws) == 70.0;
  }

  /** For two hours, the merged average is the hourly weighted merge of their averages. */
  lemma {:induction false} TwoHoursMatchHourlyMerge(w1: Weighted, w2: Weighted)
    requires w1.avg.Some? && w2.avg.Some? && w1.weight + w2.weight > 0
    ensures PresentAverage([w1, w2]) == MergeField(w1.avg, w1.weight, w2.avg, w2.weight)
  {
    var ws := [w1, w2];
    assert ws[..1] == [w1];
    assert ws[..1][..0] == [];
    assert PresentWeight(ws[..1]) == w1.weight && PresentSum(ws[..1]) == w1.avg.value * w1.weight as real;
    assert PresentWeight(ws) == w1.weight + w2.weight;
    assert PresentSum(ws) == w1.avg.value * w1.weight as real + w2.avg.value * w2.weight as real;
    var d := PresentAverage(ws).value;
    var m := MergeField(w1.avg, w1.weight, w2.avg, w2.weight).value;
    var w := (w1.weight + w2.weight) as real;
    assert d * w == m * w;
    MulEqCancel(d, m, w);
  }

  /**
   * The daily row computed for one item's hours, with the averages as the
   * query writes them (see `DailyAverageAsWritten`).
   */
  function DailyRowOf(hours: seq<HourlyRecord>): (r: DailyRow)
    ensures r.updateCount == SumUpdates(hours) && r.deleteCount == SumDeletes(hours)
    ensures forall f :: r.avgs.Get(f) == DailyAverageAsWritten(hours, f)
  {
    DailyRow(SumUpdates(hours), SumDeletes(hours), AveragesFrom(f => DailyAverageAsWritten(hours, f)))
  }

  /**
   * A daily row's average as written lies between the smallest and largest
   * hourly average once zero is counted among them, since an hour without the
   * average counts as zero; it is null exactly when the hours have no update.
   */
  lemma {:induction false} DailyRowAverageBounds(hours: seq<HourlyRecord>, f: Field, lo: real, hi: real)
    requires lo <= 0.0 <= hi
    requires forall i :: 0 <= i < |hours| && hours[i].row.avgs.Get(f).Some? ==> lo <= hours[i].row.avgs.Get(f).value <= hi
    ensures DailyRowOf(hours).avgs.Get(f).None? <==> SumUpdates(hours) == 0
    ensures DailyRowOf(hours).avgs.Get(f).Some? ==> lo <= DailyRowOf(hours).avgs.Get(f).value <= hi
  {
    var ws := Column(hours, f);
    TotalWeightIsSumUpdates(hours, f);
    if CoalescedAverage(ws).Some? {
      CoalescedAverageBounds(ws, lo, hi);
    }
  }

  /** The weights of a column are the update counts of its hours. */
  lemma {:induction false} TotalWeightIsSumUpdates(rows: seq<HourlyRecord>, f: Field)
    ensures TotalWeight(Column(rows, f)) == SumUpdates(rows)
    decreases |rows|
  {
    if rows != [] {
      var init := rows[..|rows| - 1];
      TotalWeightIsSumUpdates(init, f);
      assert Column(rows, f)[..|rows| - 1] == Column(init, f);
    }
  }

  /** The average as written lies between bounds of the averages that include zero. */
  lemma {:induction false} CoalescedAverageBounds(ws: seq<Weighted>, lo: real, hi: real)
    requires lo <= 0.0 <= hi
    requires forall i :: 0 <= i < |ws| && ws[i].avg.Some? ==> lo <= ws[i].avg.value <= hi
    requires CoalescedAverage(ws).Some?
    ensures lo <= CoalescedAverage(ws).value <= hi
  {
    var r, w, sum := CoalescedAverage(ws).value, TotalWeight(ws) as real, CoalescedSum(ws);
    assert r * w == sum && w > 0.0;
    assert lo * w <= sum by {
      CoalescedSumAtLeast(ws, lo);
    }
    assert sum <= hi * w by {
      CoalescedSumAtMost(ws, hi);
    }
    QuotientBounds(r, w, sum, lo, hi);
  }

  /** A lower bound of the averages and of zero bounds the coalesced sum. */
  lemma {:induction false} CoalescedSumAtLeast(ws: seq<Weighted>, lo: real)
    requires lo <= 0.0
    requires forall i :: 0 <= i < |ws| && ws[i].avg.Some? ==> lo <= ws[i].avg.value
    ensures lo * TotalWeight(ws) as real <= CoalescedSum(ws)
    decreases |ws|
  {
    if ws != [] {
      var init, last := ws[..|ws| - 1], ws[|ws| - 1];
      assert forall i :: 0 <= i < |init| ==> init[i] == ws[i];
      CoalescedSumAtLeast(init, lo);
      StepAtLeast(lo, TotalWeight(init) as real, CoalescedSum(init), last.weight as real, last.avg.GetOr(0.0),
        TotalWeight(ws) as real, CoalescedSum(ws));
    }
  }

  /** An upper bound of the averages and of zero bounds the coalesced sum. */
  lemma {:induction false} CoalescedSumAtMost(ws: seq<Weighted>, hi: real)
    requires 0.0 <= hi
    requires forall i :: 0 <= i < |ws| && ws[i].avg.Some? ==> ws[i].avg.value <= hi
    ensures CoalescedSum(ws) <= hi * TotalWeight(ws) as real
    decreases |ws|
  {
    if ws != [] {
      var init, last := ws[..|ws| - 1], ws[|ws| - 1];
      assert forall i :: 0 <= i < |init| ==> init[i] == ws[i];
      CoalescedSumAtMost(init, hi);
      StepAtMost(hi, TotalWeight(init) as real, CoalescedSum(init), last.weight as real, last.avg.GetOr(0.0),
        TotalWeight(ws) as real, CoalescedSum(ws));
    }
  }

  /** The rows the compaction upserts: one per item of `names`, computed from its hours of the day. */
  function DailyRows(rows: seq<HourlyRecord>, names: set<string>, day: int): DailyTable {
    map k | k in (set n | n in names :: DayKey(n, day)) :: DailyRowOf(ItemRows(rows, k.itemName, day))
  }

  /** `DailyRows` holds exactly the keys of `names` on `day`, each with the row of the item's hours. */
  lemma {:induction false} DailyRowsWrites(rows: seq<HourlyRecord>, names: set<string>, day: int)
    ensures forall k :: k in DailyRows(rows, names, day) <==> k.day == day && k.itemName in names
    ensures forall n :: n in names ==>
      DayKey(n, day) in DailyRows(rows, names, day) && DailyRows(rows, names, day)[DayKey(n, day)] == DailyRowOf(ItemRows(rows, n, day))
  {
    forall k: DayKey | k.day == day && k.itemName in names ensures k in DailyRows(rows, names, day) {
      assert k == DayKey(k.itemName, day);
    }
  }

  /**
   * The daily table after compacting the day that starts at `startOfDay`, and
   * the number of daily rows written: one per item with hourly rows that day.
   * Compaction only adds or overwrites daily rows.
   */
  function Compact(daily: DailyTable, rows: seq<HourlyRecord>, startOfDay: int): (r: (DailyTable, nat))
    ensures r.1 == |DayNames(rows, startOfDay)|
    ensures daily.Keys <= r.0.Keys
  {
    var names := DayNames(rows, startOfDay);
    if |names| == 0 then (daily, 0)
    else (daily + DailyRows(rows, names, startOfDay), |names|)
  }

  /**
   * The compaction writes one row per item with hourly rows that day,
   * computed from those rows, overwriting an earlier row for the same (item,
   * day); every other daily row is kept.
   */
  lemma {:induction false} CompactWrites(daily: DailyTable, rows: seq<HourlyRecord>, startOfDay: int)
    ensures var r := Compact(daily, rows, startOfDay).0;
      && (forall n :: n in DayNames(rows, startOfDay) ==>
            DayKey(n, startOfDay) in r && r[DayKey(n, startOfDay)] == DailyRowOf(ItemRows(rows, n, startOfDay)))
      && (forall k :: k in r <==> k in daily || (k.day == startOfDay && k.itemName in DayNames(rows, startOfDay)))
      && forall k :: k in daily && !(k.day == startOfDay && k.itemName in DayNames(rows, startOfDay)) ==> r[k] == daily[k]
  {
    var names := DayNames(rows, startOfDay);
    if |names| > 0 {
      var d := DailyRows(rows, names, startOfDay);
      DailyRowsWrites(rows, names, startOfDay);
      assert Compact(daily, rows, startOfDay).0 == daily + d;
    }
  }

  /**
   * The statement the store runs: nothing is written when the day has no
   * hourly row, otherwise the rows of `Compact`.
   */
  method CompactDay(daily: DailyTable, rows: seq<HourlyRecord>, startOfDay: int) returns (newDaily: DailyTable, written: nat)
    ensures (newDaily, written) == Compact(daily, rows, startOfDay)
  {
    var names := DayNames(rows, startOfDay);
    if |names| == 0 {
      return daily, 0;
    }
    newDaily := daily + DailyRows(rows, names, startOfDay);
    written := |names|;
  }

  /** Running the compaction twice for the same day leaves what running it once left. */
  lemma {:induction false} CompactIdempotent(daily: DailyTable, rows: seq<HourlyRecord>, startOfDay: int)
    ensures Compact(Compact(daily, rows, startOfDay).0, rows, startOfDay).0 == Compact(daily, rows, startOfDay).0
  {
    var names := DayNames(rows, startOfDay);
    if |names| > 0 {
      OverrideTwice(daily, DailyRows(rows, names, startOfDay));
    }
  }

  /** Upserting the same rows a second time changes nothing. */
  lemma {:induction false} OverrideTwice(m: DailyTable, d: DailyTable)
    ensures (m + d) + d == m + d
  {
  }
}
