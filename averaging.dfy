/**
 * Averages of price figures and the weighted merge that folds a batch's
 * averages into the averages already stored for an (item, hour).
 */
module Averaging {
  import opened Wrappers

  /** `values.reduce((sum, val) => sum + val, 0)`. */
  function Sum(s: seq<real>): real
    decreases |s|
  {
    if s == [] then 0.0 else Sum(s[..|s| - 1]) + s[|s| - 1]
  }

  lemma {:induction false} SumAppend(a: seq<real>, b: seq<real>)
    ensures Sum(a + b) == Sum(a) + Sum(b)
    decreases |b|
  {
    if b != [] {
      var b' := b[..|b| - 1];
      assert (a + b)[..|a + b| - 1] == a + b';
      SumAppend(a, b');
    } else {
      assert a + b == a;
    }
  }

  lemma {:induction false} SumBounds(s: seq<real>, lo: real, hi: real)
    requires forall i :: 0 <= i < |s| ==> lo <= s[i] <= hi
    ensures |s| as real * lo <= Sum(s) <= |s| as real * hi
    decreases |s|
  {
    if s != [] {
      SumBounds(s[..|s| - 1], lo, hi);
    }
  }

  /** The arithmetic mean of the figures a batch carried; null when none did. */
  function Mean(s: seq<real>): (r: Option<real>)
    ensures r.None? <==> s == []
  {
    if |s| > 0 then Some(Sum(s) / |s| as real) else None
  }

  /** The mean times the number of figures is their sum. */
  lemma {:induction false} MeanTimesCount(s: seq<real>)
    requires s != []
    ensures Mean(s).value * |s| as real == Sum(s)
  {
  }

  /** The mean lies between the smallest and the largest figure. */
  lemma {:induction false} MeanBounds(s: seq<real>, lo: real, hi: real)
    requires s != []
    requires forall i :: 0 <= i < |s| ==> lo <= s[i] <= hi
    ensures lo <= Mean(s).value <= hi
  {
    SumBounds(s, lo, hi);
    MeanTimesCount(s);
    var n := |s| as real;
    var m := Mean(s).value;
    assert (m - lo) * n == Sum(s) - n * lo && (hi - m) * n == n * hi - Sum(s);
    NonNegFactor(m - lo, n);
    NonNegFactor(hi - m, n);
  }

  /** The product of two non-negative numbers is non-negative. */
  lemma {:induction false} NonNegProduct(p: real, q: real)
    requires p >= 0.0 && q >= 0.0
    ensures p * q >= 0.0
  {
  }

  /** A negative number times a positive one is negative. */
  lemma {:induction false} NegProduct(p: real, q: real)
    requires p < 0.0 && q > 0.0
    ensures p * q < 0.0
  {
  }

  /** A number whose product with a positive one is non-negative is non-negative. */
  lemma {:induction false} NonNegFactor(p: real, q: real)
    requires q > 0.0 && p * q >= 0.0
    ensures p >= 0.0
  {
    if p < 0.0 {
      NegProduct(p, q);
    }
  }

  /** Multiplying out a sum. */
  lemma {:induction false} MulAdd(c: real, p: real, q: real, s: real)
    requires s == p + q
    ensures c * s == c * p + c * q
  {
  }

  /** Adding weight `w` of a figure `v` at least `lo` keeps a weighted sum at least `lo` times its weight. */
  lemma {:induction false} StepAtLeast(lo: real, weight: real, sum: real, w: real, v: real, weight': real, sum': real)
    requires lo * weight <= sum && lo <= v && w >= 0.0
    requires weight' == weight + w && sum' == sum + v * w
    ensures lo * weight' <= sum'
  {
    MulAdd(lo, weight, w, weight');
    NonNegProduct(v - lo, w);
  }

  /** Adding weight `w` of a figure `v` at most `hi` keeps a weighted sum at most `hi` times its weight. */
  lemma {:induction false} StepAtMost(hi: real, weight: real, sum: real, w: real, v: real, weight': real, sum': real)
    requires sum <= hi * weight && v <= hi && w >= 0.0
    requires weight' == weight + w && sum' == sum + v * w
    ensures sum' <= hi * weight'
  {
    MulAdd(hi, weight, w, weight');
    NonNegProduct(hi - v, w);
  }

  /** A positive factor can be cancelled from an equation. */
  lemma {:induction false} MulEqCancel(x: real, y: real, c: real)
    requires c > 0.0 && x * c == y * c
    ensures x == y
  {
    assert (x - y) * c == 0.0 && (y - x) * c == 0.0;
    NonNegFactor(x - y, c);
    NonNegFactor(y - x, c);
  }

  predicate Between(r: real, x: real, y: real) {
    (x <= r <= y) || (y <= r <= x)
  }

  /** `(x * a + y * b) / (a + b)`: two averages weighted by their update counts. */
  function WeightedMean(x: real, a: nat, y: real, b: nat): real
    requires a + b > 0
  {
    (x * a as real + y * b as real) / (a + b) as real
  }

  /**
   * The weighted mean times the total weight is the weighted sum, it lies
   * between the two figures, and a side without weight does not count.
   */
  lemma {:induction false} WeightedMeanFacts(x: real, a: nat, y: real, b: nat)
    requires a + b > 0
    ensures WeightedMean(x, a, y, b) * (a + b) as real == x * a as real + y * b as real
    ensures Between(WeightedMean(x, a, y, b), x, y)
    ensures a == 0 ==> WeightedMean(x, a, y, b) == y
    ensures b == 0 ==> WeightedMean(x, a, y, b) == x
  {
    var r := WeightedMean(x, a, y, b);
    assert r * (a + b) as real == x * a as real + y * b as real;
    WeightedMeanBetween(x, a, y, b, r);
  }

  lemma {:induction false} WeightedMeanBetween(x: real, a: nat, y: real, b: nat, r: real)
    requires a + b > 0
    requires r * (a + b) as real == x * a as real + y * b as real
    ensures Between(r, x, y)
    ensures a == 0 ==> r == y
    ensures b == 0 ==> r == x
  {
    var ar, br := a as real, b as real;
    assert (a + b) as real == ar + br;
    if x <= y {
      WeightedAtLeast(x, x, ar, y, br, r);
      WeightedAtMost(y, x, ar, y, br, r);
    } else {
      WeightedAtLeast(y, x, ar, y, br, r);
      WeightedAtMost(x, x, ar, y, br, r);
    }
    if a == 0 {
      OneSided(y, br, x, ar, r);
    }
    if b == 0 {
      OneSided(x, ar, y, br, r);
    }
  }

  /** A lower bound of both figures bounds their weighted mean. */
  lemma {:induction false} WeightedAtLeast(lo: real, x: real, ar: real, y: real, br: real, r: real)
    requires lo <= x && lo <= y && ar >= 0.0 && br >= 0.0 && ar + br > 0.0
    requires r * (ar + br) == x * ar + y * br
    ensures lo <= r
  {
    assert (r - lo) * (ar + br) == (x - lo) * ar + (y - lo) * br;
    NonNegProduct(x - lo, ar);
    NonNegProduct(y - lo, br);
    NonNegFactor(r - lo, ar + br);
  }

  /** An upper bound of both figures bounds their weighted mean. */
  lemma {:induction false} WeightedAtMost(hi: real, x: real, ar: real, y: real, br: real, r: real)
    requires x <= hi && y <= hi && ar >= 0.0 && br >= 0.0 && ar + br > 0.0
    requires r * (ar + br) == x * ar + y * br
    ensures r <= hi
  {
    assert (hi - r) * (ar + br) == (hi - x) * ar + (hi - y) * br;
    NonNegProduct(hi - x, ar);
    NonNegProduct(hi - y, br);
    NonNegFactor(hi - r, ar + br);
  }

  /** With no weight on one side the weighted mean is the other figure. */
  lemma {:induction false} OneSided(x: real, ar: real, y: real, br: real, r: real)
    requires ar > 0.0 && br == 0.0
    requires r * (ar + br) == x * ar + y * br || r * (br + ar) == y * br + x * ar
    ensures r == x
  {
    assert ar + br == ar && br + ar == ar;
    assert y * br == 0.0;
    MulEqCancel(r, x, ar);
  }


  /**
   * The stored average after a batch, as the merge is meant to work: a side
   * that is null leaves the other unchanged, and two present averages are
   * weighted by their update counts. When both counts are zero (rows created by
   * delete events only) the two averages are given equal weight.
   */
  function MergeField(existing: Option<real>, existingUpdates: nat, batch: Option<real>, batchUpdates: nat): (r: Option<real>)
    ensures r.None? <==> existing.None? && batch.None?
    ensures existing.Some? && batch.None? ==> r == existing
    ensures existing.None? && batch.Some? ==> r == batch
  {
    match (existing, batch)
    case (Some(x), Some(y)) =>
      if existingUpdates + batchUpdates > 0 then Some(WeightedMean(x, existingUpdates, y, batchUpdates))
      else Some(WeightedMean(x, 1, y, 1))
    case (Some(_), None) => existing
    case (None, _) => batch
  }

  /**
   * Two present averages merge to a figure between them, and with a positive
   * total count the merge is their mean weighted by the update counts.
   */
  lemma {:induction false} MergeFieldFacts(existing: real, existingUpdates: nat, batch: real, batchUpdates: nat)
    ensures var r := MergeField(Some(existing), existingUpdates, Some(batch), batchUpdates);
      && Between(r.value, existing, batch)
      && (existingUpdates + batchUpdates > 0 ==>
        r.value * (existingUpdates + batchUpdates) as real == existing * existingUpdates as real + batch * batchUpdates as real)
  {
    if existingUpdates + batchUpdates > 0 {
      WeightedMeanFacts(existing, existingUpdates, batch, batchUpdates);
    } else {
      WeightedMeanFacts(existing, 1, batch, 1);
    }
  }

  /** A JavaScript number: a finite value or NaN. */
  datatype Num = Finite(value: real) | NaN

  function AsNum(x: Option<real>): Option<Num> {
    if x.Some? then Some(Finite(x.value)) else None
  }

  /**
   * The merge as written: with two present averages it divides by the sum of
   * the update counts even when that sum is zero, which yields NaN.
   */
  function MergeFieldAsWritten(existing: Option<real>, existingUpdates: nat, batch: Option<real>, batchUpdates: nat): (r: Option<Num>)
    ensures r.None? <==> existing.None? && batch.None?
    ensures r == Some(NaN) <==> existing.Some? && batch.Some? && existingUpdates + batchUpdates == 0
  {
    match (existing, batch)
    case (Some(x), Some(y)) =>
      if existingUpdates + batchUpdates == 0 then Some(NaN)
      else Some(Finite((x * existingUpdates as real + y * batchUpdates as real) / (existingUpdates + batchUpdates) as real))
    case (Some(x), None) => Some(Finite(x))
    case (None, Some(y)) => Some(Finite(y))
    case (None, None) => None
  }

  /** Outside the zero-weight case the code as written and the intended merge agree. */
  lemma {:induction false} AsWrittenAgreesWhenWeighted(existing: Option<real>, existingUpdates: nat, batch: Option<real>, batchUpdates: nat)
    requires existing.None? || batch.None? || existingUpdates + batchUpdates > 0
    ensures MergeFieldAsWritten(existing, existingUpdates, batch, batchUpdates)
      == AsNum(MergeField(existing, existingUpdates, batch, batchUpdates))
  {
  }

  /** The merge does not depend on which side is the stored one. */
  lemma {:induction false} MergeCommutes(existing: Option<real>, existingUpdates: nat, batch: Option<real>, batchUpdates: nat)
    ensures MergeField(existing, existingUpdates, batch, batchUpdates) == MergeField(batch, batchUpdates, existing, existingUpdates)
  {
    if existing.Some? && batch.Some? {
      var r := MergeField(existing, existingUpdates, batch, batchUpdates).value;
      var r' := MergeField(batch, batchUpdates, existing, existingUpdates).value;
      var w := if existingUpdates + batchUpdates > 0 then (existingUpdates + batchUpdates) as real else 2.0;
      if existingUpdates + batchUpdates > 0 {
        WeightedMeanFacts(existing.value, existingUpdates, batch.value, batchUpdates);
        WeightedMeanFacts(batch.value, batchUpdates, existing.value, existingUpdates);
      } else {
        WeightedMeanFacts(existing.value, 1, batch.value, 1);
        WeightedMeanFacts(batch.value, 1, existing.value, 1);
      }
      assert r * w == r' * w;
      MulEqCancel(r, r', w);
    }
  }

  /**
   * Merging three averages in either grouping gives the same result, as long
   * as each pairwise merge has a positive total weight.
   */
  lemma {:induction false} WeightedMeanAssociates(x: real, a: nat, y: real, b: nat, z: real, c: nat)
    requires a + b > 0 && b + c > 0
    ensures WeightedMean(WeightedMean(x, a, y, b), a + b, z, c) == WeightedMean(x, a, WeightedMean(y, b, z, c), b + c)
  {
    var l := WeightedMean(WeightedMean(x, a, y, b), a + b, z, c);
    var r := WeightedMean(x, a, WeightedMean(y, b, z, c), b + c);
    var w := (a + b + c) as real;
    var total := x * a as real + y * b as real + z * c as real;
    WeightedMeanFacts(x, a, y, b);
    WeightedMeanFacts(WeightedMean(x, a, y, b), a + b, z, c);
    WeightedMeanFacts(y, b, z, c);
    WeightedMeanFacts(x, a, WeightedMean(y, b, z, c), b + c);
    assert l * w == total;
    assert r * w == total;
    MulEqCancel(l, r, w);
  }

  /**
   * Folding one batch's mean into another's, each weighted by the number of
   * figures it averaged, is the mean of all the figures together.
   */
  lemma {:induction false} MergeOfMeansIsMeanOfAll(va: seq<real>, vb: seq<real>)
    requires va != [] && vb != []
    ensures MergeField(Mean(va), |va|, Mean(vb), |vb|) == Mean(va + vb)
  {
    WeightedMeanFacts(Mean(va).value, |va|, Mean(vb).value, |vb|);
    MeanTimesCount(va);
    MeanTimesCount(vb);
    MeanTimesCount(va + vb);
    SumAppend(va, vb);
    assert |va + vb| == |va| + |vb|;
    MulEqCancel(WeightedMean(Mean(va).value, |va|, Mean(vb).value, |vb|), Mean(va + vb).value, (|va| + |vb|) as real);
  }

  /**
   * Folding two batch means into a stored average one after the other, each
   * weighted by the number of its figures, gives what folding the mean of all
   * their figures in at once gives, provided a stored average without value
   * carries no weight.
   */
  lemma {:induction false} MergeTwiceIsMergeOnce(stored: Option<real>, storedUpdates: nat, va: seq<real>, vb: seq<real>)
    requires va != [] && vb != []
    requires stored.Some? || storedUpdates == 0
    ensures MergeField(MergeField(stored, storedUpdates, Mean(va), |va|), storedUpdates + |va|, Mean(vb), |vb|)
      == MergeField(stored, storedUpdates, Mean(va + vb), |va| + |vb|)
  {
    MergeOfMeansIsMeanOfAll(va, vb);
    if stored.Some? {
      WeightedMeanAssociates(stored.value, storedUpdates, Mean(va).value, |va|, Mean(vb).value, |vb|);
    }
  }

  /**
   * Without the proviso the boundary shows: a stored row with three updates
   * but no average, then batches with figures 10 and 20, stores 12; the two
   * batches as one store 15.
   */
  lemma {:induction false} StoredWeightWithoutAverage()
    ensures MergeField(MergeField(None, 3, Some(10.0), 1), 4, Some(20.0), 1) == Some(12.0)
    ensures MergeField(None, 3, Mean([10.0, 20.0]), 2) == Some(15.0)
  {
    assert Sum([10.0, 20.0]) == 30.0 by {
      assert [10.0, 20.0][..1] == [10.0];
      assert Sum([10.0]) == 10.0 by { assert [10.0][..0] == []; }
    }
  }
}
