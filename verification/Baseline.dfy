/**
 * Self-learning baselines: median and median absolute deviation, the normal
 * band, and the anomaly rule.  Arithmetic is over the reals; `round2` stands
 * for rounding to two decimals and is any monotone function that fixes 0.
 */
module Baseline {
  import opened Wrappers
  import opened OrderStatistics

  const MAD_SCALE := 0.6745
  const Z_THRESHOLD := 3.5
  const MIN_SAMPLES := 12

  const MIN_DELTA: map<string, real> := map[
    "cpu_percent" := 15.0, "mem_percent" := 10.0, "swap_percent" := 10.0, "disk_percent" := 5.0, "load_per_core" := 0.5]
  const DEFAULT_MIN_DELTA := 10.0
  const ABSOLUTE_CEILING: map<string, real> := map[
    "cpu_percent" := 95.0, "mem_percent" := 95.0, "swap_percent" := 80.0, "disk_percent" := 90.0,
    "load_per_core" := 4.0]

  function MinDelta(metric: string): real {
    if metric in MIN_DELTA then MIN_DELTA[metric] else DEFAULT_MIN_DELTA
  }

  datatype Baseline = Baseline(median: real, mad: real, sampleCount: nat, lower: real, upper: real, learned: bool)

  function Abs(x: real): real {
    if x < 0.0 then -x else x
  }

  function Max(x: real, y: real): real {
    if x < y then y else x
  }

  function Clean(values: seq<Option<real>>): seq<real> {
    if values == [] then []
    else (if values[0].Some? then [values[0].value] else []) + Clean(values[1..])
  }

  function Deviations(s: seq<real>, m: real): (d: seq<real>)
    ensures |d| == |s|
    ensures forall i :: 0 <= i < |s| ==> d[i] == Abs(s[i] - m)
  {
    if s == [] then [] else [Abs(s[0] - m)] + Deviations(s[1..], m)
  }

  function Mad(s: seq<real>): real
    requires s != []
  {
    Median(Deviations(s, Median(s)))
  }

  function HalfWidth(metric: string, mad: real): real {
    Max(mad * Z_THRESHOLD / MAD_SCALE, MinDelta(metric))
  }

  function LearnClean(metric: string, clean: seq<real>): Baseline {
    if |clean| < MIN_SAMPLES then
      var median := if clean == [] then 0.0 else Median(clean);
      Baseline(median, 0.0, |clean|, median, median, false)
    else
      var median, mad := Median(clean), Mad(clean);
      var half := HalfWidth(metric, mad);
      Baseline(median, mad, |clean|, Max(0.0, median - half), median + half, true)
  }

  function LearnBaseline(metric: string, values: seq<Option<real>>): Baseline {
    LearnClean(metric, Clean(values))
  }

  // ----- The anomaly rule -----

  datatype Anomaly = Normal | Warning | Critical

  function Rank(a: Anomaly): nat {
    match a case Normal => 0 case Warning => 1 case Critical => 2
  }

  function ModifiedZ(round2: real -> real, value: real, b: Baseline): Option<real> {
    if !b.learned || b.mad <= 0.0 then None
    else Some(round2(MAD_SCALE * (value - b.median) / b.mad))
  }

  predicate OutsideBand(value: real, b: Baseline) {
    b.learned && (value < b.lower || value > b.upper)
  }

  predicate AboveCeiling(metric: string, value: real) {
    metric in ABSOLUTE_CEILING && value >= ABSOLUTE_CEILING[metric]
  }

  predicate FarOut(round2: real -> real, value: real, b: Baseline) {
    var z := ModifiedZ(round2, value, b);
    || (z.Some? && Abs(z.value) >= Z_THRESHOLD * 2.0)
    || Abs(value - b.median) >= 2.0 * Max(b.upper - b.median, 0.000000001)
  }

  function Evaluate(round2: real -> real, metric: string, value: real, b: Baseline): Anomaly {
    if !OutsideBand(value, b) && !AboveCeiling(metric, value) then Normal
    else if AboveCeiling(metric, value) then Critical
    else if FarOut(round2, value, b) then Critical
    else Warning
  }

  // The widest deviation from the median that is normal above it: that of the score 3.5, or the
  // metric's minimum delta where that is wider.
  function Tolerance(metric: string, clean: seq<real>): real
    requires clean != []
  {
    var statistical := 3.5 * Median(Deviations(clean, Median(clean))) / 0.6745;
    var least := if metric in MIN_DELTA then MIN_DELTA[metric] else 10.0;
    if statistical < least then least else statistical
  }

  /**
   * What a value is judged, on its history: critical from the metric's ceiling on;
   * otherwise, with at least 12 samples, outside the tolerance or below 0 it is
   * critical from twice the tolerance or a rounded score of 7 on, and else a
   * warning.
   */
  lemma {:induction false} EvaluateExactly(round2: real -> real, metric: string, values: seq<Option<real>>, value: real)
    ensures var s := Clean(values);
            Evaluate(round2, metric, value, LearnBaseline(metric, values)) ==
            if metric in ABSOLUTE_CEILING && value >= ABSOLUTE_CEILING[metric] then Critical
            else if |s| < 12 then Normal
            else
              var m, mad := Median(s), Median(Deviations(s, Median(s)));
              var tolerance, deviation := Tolerance(metric, s), if value < m then m - value else value - m;
              if value >= 0.0 && m - tolerance <= value <= m + tolerance then Normal
              else if deviation >= 2.0 * tolerance || ScoreReaches(round2, value - m, mad, 7.0) then Critical
              else Warning
  {
    hide Median, Deviations, Clean, MIN_DELTA, ABSOLUTE_CEILING;
    var s := Clean(values);
    if |s| >= 12 {
      MadNonNegative(s);
      HalfWidthCovers(metric, Mad(s));
      assert Tolerance(metric, s) == HalfWidth(metric, Mad(s));
    }
  }

  // The modified score, rounded, reaches a bound on either side; it is undefined for a MAD of 0.
  predicate ScoreReaches(round2: real -> real, deviation: real, mad: real, bound: real) {
    mad > 0.0 && (round2(0.6745 * deviation / mad) >= bound || round2(0.6745 * deviation / mad) <= -bound)
  }

  // ----- Robustness -----

  // How many positions differ.
  function Changed(xs: seq<real>, ys: seq<real>): nat
    requires |xs| == |ys|
  {
    if xs == [] then 0 else (if xs[0] != ys[0] then 1 else 0) + Changed(xs[1..], ys[1..])
  }

  // `lo` and `hi` bound the samples that are the same in both histories.
  predicate BoundsUnchanged(xs: seq<real>, ys: seq<real>, lo: real, hi: real)
    requires |xs| == |ys|
  {
    forall i :: 0 <= i < |xs| && xs[i] == ys[i] ==> lo <= xs[i] <= hi
  }

  // What holds of every unchanged sample is counted often enough.
  lemma {:induction false} UnchangedCounted(xs: seq<real>, ys: seq<real>, p: real -> bool)
    requires |xs| == |ys| && forall i :: 0 <= i < |xs| && xs[i] == ys[i] ==> p(ys[i])
    ensures Count(ys, p) >= |ys| - Changed(xs, ys)
  {
    if xs != [] {
      UnchangedCounted(xs[1..], ys[1..], p);
    }
  }

  lemma {:induction false} UnchangedDeviations(xs: seq<real>, ys: seq<real>, m: real, p: real -> bool)
    requires |xs| == |ys| && forall i :: 0 <= i < |xs| && xs[i] == ys[i] ==> p(Abs(ys[i] - m))
    ensures Count(Deviations(ys, m), p) >= |ys| - Changed(xs, ys)
  {
    if xs != [] {
      UnchangedDeviations(xs[1..], ys[1..], m, p);
    }
  }

  /**
   * Breakdown point: changing fewer than half of the samples, to anything,
   * leaves the median within the bounds of the others and the MAD within their spread.
   */
  lemma {:induction false} MedianRobust(xs: seq<real>, ys: seq<real>, lo: real, hi: real)
    requires |xs| == |ys| && xs != [] && 2 * Changed(xs, ys) < |xs| && BoundsUnchanged(xs, ys, lo, hi)
    ensures lo <= Median(ys) <= hi && Mad(ys) <= hi - lo
  {
    hide Median, Changed, Count;
    var atMost, atLeast := (x: real) => x <= hi, (x: real) => x >= lo;
    UnchangedCounted(xs, ys, atMost);
    UnchangedCounted(xs, ys, atLeast);
    MedianBelow(ys, hi, atMost);
    MedianAbove(ys, lo, atLeast);
    var m, near := Median(ys), (x: real) => x <= hi - lo;
    UnchangedDeviations(xs, ys, m, near);
    MedianBelow(Deviations(ys, m), hi - lo, near);
  }

  /** Whatever fewer than half of the history was changed to, a value far above or below the rest is still flagged. */
  lemma {:induction false} OutlierStillFlagged(round2: real -> real, metric: string, xs: seq<real>, ys: seq<real>,
                                               history: seq<Option<real>>, lo: real, hi: real, value: real)
    requires ys == Clean(history)
    requires |xs| == |ys| >= MIN_SAMPLES && 2 * Changed(xs, ys) < |xs| && BoundsUnchanged(xs, ys, lo, hi)
    requires var margin := HalfWidth(metric, hi - lo); value > hi + margin || value < lo - margin
    ensures Evaluate(round2, metric, value, LearnBaseline(metric, history)) != Normal
  {
    hide Median, Changed, MinDelta, AboveCeiling, FarOut;
    MedianRobust(xs, ys, lo, hi);
    HalfWidthMonotone(metric, Mad(ys), hi - lo);
  }

  lemma {:induction false} HalfWidthMonotone(metric: string, a: real, b: real)
    requires a <= b
    ensures HalfWidth(metric, a) <= HalfWidth(metric, b)
  {
    hide MinDelta;
    assert a * Z_THRESHOLD <= b * Z_THRESHOLD;
    assert a * Z_THRESHOLD / MAD_SCALE <= b * Z_THRESHOLD / MAD_SCALE;
  }

  // ----- Half of the history is normal -----

  lemma {:induction false} DeviationsImply(s: seq<real>, m: real, near: real -> bool, p: real -> bool)
    requires forall i :: 0 <= i < |s| && near(Abs(s[i] - m)) ==> p(s[i])
    ensures Count(s, p) >= Count(Deviations(s, m), near)
  {
    if s != [] {
      DeviationsImply(s[1..], m, near, p);
    }
  }

  lemma {:induction false} MadNonNegative(s: seq<real>)
    requires s != []
    ensures Mad(s) >= 0.0
  {
    hide Median, Count;
    var d, p := Deviations(s, Median(s)), (x: real) => x >= 0.0;
    AllCounted(d, p);
    MedianAbove(d, 0.0, p);
  }

  lemma {:induction false} AllCounted(s: seq<real>, p: real -> bool)
    requires forall i :: 0 <= i < |s| ==> p(s[i])
    ensures Count(s, p) == |s|
  {
    if s != [] { AllCounted(s[1..], p); }
  }

  lemma {:induction false} HalfWidthCovers(metric: string, mad: real)
    requires mad >= 0.0
    ensures HalfWidth(metric, mad) >= mad && HalfWidth(metric, mad) > 0.000000001
  {
    assert mad * Z_THRESHOLD / MAD_SCALE >= mad;
  }

  /** At least half of a learned, non-negative history, rounded up, lies inside the learned band. */
  lemma {:induction false} HalfIsNormal(metric: string, values: seq<Option<real>>)
    requires var s := Clean(values); |s| >= MIN_SAMPLES && forall i :: 0 <= i < |s| ==> s[i] >= 0.0
    ensures var s, b := Clean(values), LearnBaseline(metric, values);
            2 * Count(s, x => !OutsideBand(x, b)) >= |s|
  {
    hide Median, Count, HalfWidth, Clean;
    var s, b := Clean(values), LearnBaseline(metric, values);
    var m, mad := Median(s), Mad(s);
    var near := (x: real) => x <= mad;
    HalfBelowMedian(Deviations(s, m), near);
    MadNonNegative(s);
    HalfWidthCovers(metric, mad);
    DeviationsImply(s, m, near, x => !OutsideBand(x, b));
  }

  // ----- Severity is ordered -----

  ghost predicate Rounding(round2: real -> real) {
    round2(0.0) == 0.0 && forall x, y :: x <= y ==> round2(x) <= round2(y)
  }

  // At and above the median, a larger value is never judged less severe.
  ghost predicate SeverityOrdered(round2: real -> real, metric: string, b: Baseline) {
    forall v, w :: b.median <= v <= w ==>
      Rank(Evaluate(round2, metric, v, b)) <= Rank(Evaluate(round2, metric, w, b))
  }

  lemma {:induction false} FarOutMonotone(round2: real -> real, b: Baseline, v: real, w: real)
    requires Rounding(round2) && b.median <= v <= w && FarOut(round2, v, b)
    ensures FarOut(round2, w, b)
  {
    if b.learned && b.mad > 0.0 {
      var x, y := MAD_SCALE * (v - b.median) / b.mad, MAD_SCALE * (w - b.median) / b.mad;
      Scale(v - b.median, w - b.median, b.mad);
      assert 0.0 <= x <= y;
      assert 0.0 <= round2(x) <= round2(y);
    }
  }

  lemma {:induction false} Scale(a: real, b: real, mad: real)
    requires 0.0 <= a <= b && mad > 0.0
    ensures 0.0 <= MAD_SCALE * a / mad <= MAD_SCALE * b / mad
  {
    assert MAD_SCALE * a <= MAD_SCALE * b;
    DivMonotone(0.0, MAD_SCALE * a, mad);
    DivMonotone(MAD_SCALE * a, MAD_SCALE * b, mad);
  }

  lemma {:induction false} DivMonotone(a: real, b: real, d: real)
    requires a <= b && d > 0.0
    ensures a / d <= b / d
  {
  }

  /**
   * Severity grows with the value exactly when the clamp of the lower bound at 0
   * does not cut into the band above the median: always for a median >= 0, and
   * never for a negative median whose band reaches 0.
   */
  lemma {:induction false} SeverityOrderedExactly(round2: real -> real, metric: string, values: seq<Option<real>>)
    requires Rounding(round2) && |Clean(values)| >= MIN_SAMPLES
    ensures var b := LearnBaseline(metric, values);
            SeverityOrdered(round2, metric, b) <==> !(b.median < 0.0 <= b.upper)
  {
    hide Median, FarOut, HalfWidth, Mad, Clean;
    var b := LearnBaseline(metric, values);
    MadNonNegative(Clean(values));
    HalfWidthCovers(metric, b.mad);
    if b.median < 0.0 <= b.upper {
      CeilingPositive(metric);
      assert Rank(Evaluate(round2, metric, b.median, b)) > Rank(Evaluate(round2, metric, 0.0, b));
    } else {
      forall v, w | b.median <= v <= w
        ensures Rank(Evaluate(round2, metric, v, b)) <= Rank(Evaluate(round2, metric, w, b))
      {
        CeilingMonotone(metric, v, w);
        if FarOut(round2, v, b) { FarOutMonotone(round2, b, v, w); }
      }
    }
  }

  lemma {:induction false} CeilingPositive(metric: string)
    ensures !AboveCeiling(metric, 0.0)
  {
  }

  lemma {:induction false} CeilingMonotone(metric: string, v: real, w: real)
    requires v <= w
    ensures AboveCeiling(metric, v) ==> AboveCeiling(metric, w)
  {
  }
}
