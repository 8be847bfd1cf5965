/** The z-score strategy (src/openhamster/strategy/mean_reversion.py) in exact arithmetic. The
    standard deviation is a square root, so z-scores are compared by their squares. */
module MeanReversion {
  import opened Prelude
  import opened StrategyAdapter

  datatype Params = Params(window: Window, entry: real, exit: real, useShort: bool)

  function CloseSum(bars: seq<Bar>, lo: nat, hi: nat): real
    requires lo <= hi <= |bars|
  {
    if lo == hi then 0.0 else CloseSum(bars, lo, hi - 1) + bars[hi - 1].close
  }

  function Square(x: real): (r: real)
    ensures r >= 0.0
  {
    x * x
  }

  function SquaredDeviations(bars: seq<Bar>, lo: nat, hi: nat, mean: real): (r: real)
    requires lo <= hi <= |bars|
    ensures r >= 0.0
  {
    if lo == hi then 0.0
    else SquaredDeviations(bars, lo, hi - 1, mean) + Square(bars[hi - 1].close - mean)
  }

  /** A bar's distance from the rolling mean and the rolling sample variance. */
  datatype Deviation = Deviation(distance: real, variance: real)

  /** Undefined before a full window, for a window of one (no sample variance) and, as the source
      replaces a zero deviation by NaN, for constant prices. */
  function DeviationAt(bars: seq<Bar>, window: Window, i: nat): (d: Option<Deviation>)
    requires i < |bars|
    ensures d.Some? ==> d.value.variance > 0.0
  {
    if i + 1 < window || window == 1 then None
    else
      var lo := i + 1 - window;
      var mean := CloseSum(bars, lo, i + 1) / window as real;
      var variance := SquaredDeviations(bars, lo, i + 1, mean) / (window - 1) as real;
      if variance == 0.0 then None
      else
        assert variance > 0.0;
        Some(Deviation(bars[i].close - mean, variance))
  }

  /** `distance > t * s` for the positive `s` whose square is the variance. */
  predicate Exceeds(distance: real, variance: real, t: real) {
    if t >= 0.0 then distance > 0.0 && Square(distance) > Square(t) * variance
    else distance >= 0.0 || Square(distance) < Square(t) * variance
  }

  predicate FarBelow(d: Option<Deviation>, t: real) {
    d.Some? && Exceeds(-d.value.distance, d.value.variance, t)
  }

  predicate FarAbove(d: Option<Deviation>, t: real) {
    d.Some? && Exceeds(d.value.distance, d.value.variance, t)
  }

  function SignalOf(d: Option<Deviation>, p: Params): int {
    if FarAbove(d, -p.exit) && FarBelow(d, -p.exit) then 0
    else if p.useShort && FarAbove(d, p.entry) then -1
    else if FarBelow(d, p.entry) then 1
    else 0
  }

  function Signals(bars: seq<Bar>, p: Params): (signals: seq<int>)
    ensures |signals| == |bars|
    ensures forall i | 0 <= i < |bars| :: signals[i] == SignalOf(DeviationAt(bars, p.window, i), p)
  {
    seq(|bars|, i requires 0 <= i < |bars| => SignalOf(DeviationAt(bars, p.window, i), p))
  }

  /** Three masks written over a fresh series, the later ones over the earlier. */
  method GenerateSignals(bars: seq<Bar>, p: Params) returns (result: seq<int>)
    ensures result == Signals(bars, p)
  {
    var signals := new int[|bars|](_ => 0);
    forall i | 0 <= i < |bars| && FarBelow(DeviationAt(bars, p.window, i), p.entry) {
      signals[i] := 1;
    }
    if p.useShort {
      forall i | 0 <= i < |bars| && FarAbove(DeviationAt(bars, p.window, i), p.entry) {
        signals[i] := -1;
      }
    }
    forall i | 0 <= i < |bars| && FarAbove(DeviationAt(bars, p.window, i), -p.exit)
                              && FarBelow(DeviationAt(bars, p.window, i), -p.exit) {
      signals[i] := 0;
    }
    result := signals[..];
  }

  // ----- Comparing squares compares z-scores -----

  lemma SquareOfSum(x: real, y: real)
    ensures Square(x + y) == Square(x) + 2.0 * (x * y) + Square(y)
  {
  }

  lemma SquareIsPositive(x: real)
    requires x != 0.0
    ensures Square(x) > 0.0
  {
    if Square(x) == 0.0 {
      NoZeroDivisors(x, x);
    }
  }

  lemma SquareGrows(x: real, y: real)
    requires x > y >= 0.0
    ensures Square(x) > Square(y)
  {
    var d := x - y;
    SquareOfSum(y, d);
    SquareIsPositive(d);
    if y > 0.0 {
      PositiveProduct(y, d);
    }
    assert y + d == x;
    assert Square(y + d) == Square(x);
    assert y * d >= 0.0;
  }

  lemma SquaresCompare(x: real, y: real)
    requires x >= 0.0 && y >= 0.0
    ensures x > y <==> Square(x) > Square(y)
    ensures x < y <==> Square(x) < Square(y)
  {
    if x > y {
      SquareGrows(x, y);
    } else if x < y {
      SquareGrows(y, x);
    }
  }

  lemma PositiveProduct(x: real, y: real)
    requires x > 0.0 && y > 0.0
    ensures x * y > 0.0
  {
  }

  lemma SquareOfProduct(t: real, s: real, variance: real)
    requires Square(s) == variance
    ensures Square(t * s) == Square(t) * variance && Square(-t * s) == Square(t) * variance
  {
  }

  lemma SignOfProduct(t: real, s: real)
    requires s > 0.0
    ensures t >= 0.0 ==> t * s >= 0.0
    ensures t < 0.0 ==> -t * s > 0.0
    ensures -t * s == -(t * s)
  {
  }

  lemma ExceedsMeansAbove(distance: real, variance: real, t: real, s: real)
    requires s > 0.0 && Square(s) == variance
    ensures Exceeds(distance, variance, t) <==> distance > t * s
  {
    SquareOfProduct(t, s, variance);
    SignOfProduct(t, s);
    assert Square(-distance) == Square(distance);
    if t >= 0.0 {
      if distance > 0.0 {
        SquaresCompare(distance, t * s);
      }
    } else if distance < 0.0 {
      SquaresCompare(-distance, -t * s);
    }
  }

  lemma ScaleCompares(z: real, distance: real, t: real, s: real)
    requires s > 0.0 && distance == z * s
    ensures distance > t * s <==> z > t
    ensures -distance > t * s <==> z < -t
  {
  }

  /** For the bar's deviation `s` and z-score `z`: flat strictly inside the exit band, otherwise
      short above the entry threshold when shorting is on, long below its negative, and flat
      between. Thresholds of any sign are covered. */
  lemma SignalFollowsZScore(bars: seq<Bar>, p: Params, i: nat, s: real, z: real)
    requires i < |bars| && DeviationAt(bars, p.window, i).Some?
    requires var d := DeviationAt(bars, p.window, i).value;
             s > 0.0 && Square(s) == d.variance && d.distance == z * s
    ensures Signals(bars, p)[i] ==
              if -p.exit < z < p.exit then 0
              else if p.useShort && z > p.entry then -1
              else if z < -p.entry then 1
              else 0
  {
    var d := DeviationAt(bars, p.window, i).value;
    ZBounds(d, p.entry, s, z);
    ZBounds(d, -p.exit, s, z);
  }

  lemma ZBounds(d: Deviation, t: real, s: real, z: real)
    requires s > 0.0 && Square(s) == d.variance && d.distance == z * s
    ensures FarAbove(Some(d), t) <==> z > t
    ensures FarBelow(Some(d), t) <==> z < -t
  {
    ExceedsMeansAbove(d.distance, d.variance, t, s);
    ExceedsMeansAbove(-d.distance, d.variance, t, s);
    ScaleCompares(z, d.distance, t, s);
  }

  /** A bar has no z-score, and the strategy is flat, exactly before a full window, for a window of
      one, and when every close in the window is the same. */
  lemma NoZScoreIff(bars: seq<Bar>, p: Params, i: nat)
    requires i < |bars|
    ensures DeviationAt(bars, p.window, i).None? <==>
              || i + 1 < p.window || p.window == 1
              || (forall j | i + 1 - p.window <= j <= i :: bars[j].close == bars[i].close)
    ensures DeviationAt(bars, p.window, i).None? ==> Signals(bars, p)[i] == 0
  {
    if i + 1 >= p.window && p.window > 1 {
      var lo := i + 1 - p.window;
      if forall j | lo <= j <= i :: bars[j].close == bars[i].close {
        ConstantPrices(bars, lo, i + 1, bars[i].close);
      } else {
        var mean := CloseSum(bars, lo, i + 1) / p.window as real;
        if SquaredDeviations(bars, lo, i + 1, mean) == 0.0 {
          ZeroDeviations(bars, lo, i + 1, mean);
        } else {
          QuotientNotZero(SquaredDeviations(bars, lo, i + 1, mean), p.window - 1);
        }
      }
    }
  }

  lemma QuotientNotZero(x: real, n: nat)
    requires x != 0.0 && n > 0
    ensures x / n as real != 0.0
  {
  }

  lemma {:induction false} ZeroDeviations(bars: seq<Bar>, lo: nat, hi: nat, mean: real)
    requires lo <= hi <= |bars| && SquaredDeviations(bars, lo, hi, mean) == 0.0
    ensures forall j | lo <= j < hi :: bars[j].close == mean
  {
    if lo < hi {
      if bars[hi - 1].close != mean {
        SquareIsPositive(bars[hi - 1].close - mean);
      }
      ZeroDeviations(bars, lo, hi - 1, mean);
    }
  }

  lemma {:induction false} ConstantSum(bars: seq<Bar>, lo: nat, hi: nat, c: real)
    requires lo <= hi <= |bars| && forall j | lo <= j < hi :: bars[j].close == c
    ensures CloseSum(bars, lo, hi) == (hi - lo) as real * c
    ensures SquaredDeviations(bars, lo, hi, c) == 0.0
  {
    if lo < hi {
      ConstantSum(bars, lo, hi - 1, c);
    }
  }

  lemma ConstantPrices(bars: seq<Bar>, lo: nat, hi: nat, c: real)
    requires lo < hi <= |bars| && forall j | lo <= j < hi :: bars[j].close == c
    ensures CloseSum(bars, lo, hi) / (hi - lo) as real == c
    ensures SquaredDeviations(bars, lo, hi, c) == 0.0
  {
  }

  // ----- The signal from the closes -----

  function Closes(bars: seq<Bar>, lo: nat, hi: nat): (xs: seq<real>)
    requires lo <= hi <= |bars|
  {
    seq(hi - lo, k requires 0 <= k < hi - lo => bars[lo + k].close)
  }

  function SumOfSquares(xs: seq<real>, m: real): real {
    if xs == [] then 0.0
    else
      var d := xs[|xs| - 1] - m;
      SumOfSquares(xs[..|xs| - 1], m) + d * d
  }

  predicate IsMean(xs: seq<real>, m: real) {
    |xs| as real * m == Total(xs)
  }

  /** The sample deviation of values with mean `m`. */
  predicate IsDeviation(xs: seq<real>, m: real, s: real) {
    s > 0.0 && (|xs| - 1) as real * (s * s) == SumOfSquares(xs, m)
  }

  lemma {:induction false} SumsAreTotals(bars: seq<Bar>, lo: nat, hi: nat, m: real)
    requires lo <= hi <= |bars|
    ensures CloseSum(bars, lo, hi) == Total(Closes(bars, lo, hi))
    ensures SquaredDeviations(bars, lo, hi, m) == SumOfSquares(Closes(bars, lo, hi), m)
  {
    if lo < hi {
      assert Closes(bars, lo, hi)[..hi - 1 - lo] == Closes(bars, lo, hi - 1);
      SumsAreTotals(bars, lo, hi - 1, m);
    }
  }

  lemma QuotientIs(x: real, n: nat, q: real)
    requires n > 0 && n as real * q == x
    ensures x / n as real == q
  {
  }

  lemma MeanOfWindow(bars: seq<Bar>, lo: nat, hi: nat, m: real)
    requires lo < hi <= |bars| && IsMean(Closes(bars, lo, hi), m)
    ensures CloseSum(bars, lo, hi) / (hi - lo) as real == m
  {
    SumsAreTotals(bars, lo, hi, m);
    QuotientIs(CloseSum(bars, lo, hi), hi - lo, m);
  }

  lemma VarianceOfWindow(bars: seq<Bar>, lo: nat, hi: nat, m: real, s: real)
    requires lo + 1 < hi <= |bars| && IsDeviation(Closes(bars, lo, hi), m, s)
    ensures SquaredDeviations(bars, lo, hi, m) / (hi - lo - 1) as real == Square(s) > 0.0
  {
    SumsAreTotals(bars, lo, hi, m);
    QuotientIs(SquaredDeviations(bars, lo, hi, m), hi - lo - 1, Square(s));
    SquareIsPositive(s);
  }

  lemma DeviationIs(bars: seq<Bar>, window: Window, i: nat, m: real, s: real)
    requires i < |bars| && 2 <= window <= i + 1
    requires IsMean(Closes(bars, i + 1 - window, i + 1), m) && IsDeviation(Closes(bars, i + 1 - window, i + 1), m, s)
    ensures DeviationAt(bars, window, i) == Some(Deviation(bars[i].close - m, Square(s)))
  {
    MeanOfWindow(bars, i + 1 - window, i + 1, m);
    VarianceOfWindow(bars, i + 1 - window, i + 1, m, s);
  }

  /** Take the mean `m` of the closes of the window that ends with bar `i`, their sample deviation `s`,
      and the z-score `z` of its close. The bar is flat strictly inside the exit band, otherwise short
      above the entry threshold when shorting is on, long below its negative, and flat between. */
  lemma SignalFollowsCloses(bars: seq<Bar>, p: Params, i: nat, m: real, s: real, z: real)
    requires i < |bars| && 2 <= p.window <= i + 1
    requires IsMean(Closes(bars, i + 1 - p.window, i + 1), m)
    requires IsDeviation(Closes(bars, i + 1 - p.window, i + 1), m, s)
    requires z * s == bars[i].close - m
    ensures Signals(bars, p)[i] ==
              if -p.exit < z < p.exit then 0
              else if p.useShort && z > p.entry then -1
              else if z < -p.entry then 1
              else 0
  {
    DeviationIs(bars, p.window, i, m, s);
    SignalFollowsZScore(bars, p, i, s, z);
  }

  // ----- No signal depends on later bars -----

  lemma {:induction false} SumsOfPrefix(bars: seq<Bar>, n: nat, lo: nat, hi: nat, mean: real)
    requires lo <= hi <= n <= |bars|
    ensures CloseSum(bars[..n], lo, hi) == CloseSum(bars, lo, hi)
    ensures SquaredDeviations(bars[..n], lo, hi, mean) == SquaredDeviations(bars, lo, hi, mean)
  {
    if lo < hi {
      SumsOfPrefix(bars, n, lo, hi - 1, mean);
    }
  }

  lemma DeviationOfPrefix(bars: seq<Bar>, window: Window, n: nat, i: nat)
    requires i < n <= |bars|
    ensures DeviationAt(bars[..n], window, i) == DeviationAt(bars, window, i)
  {
    if i + 1 >= window {
      var lo := i + 1 - window;
      SumsOfPrefix(bars, n, lo, i + 1, CloseSum(bars, lo, i + 1) / window as real);
    }
  }

  function Strategy(p: Params): seq<Bar> -> seq<int> {
    bars => Signals(bars, p)
  }

  /** Asked bar by bar on every prefix, the strategy gives the series of one call on all the data. */
  lemma StreamIsVectorised(bars: seq<Bar>, p: Params)
    ensures Stream(Strategy(p), bars) == Signals(bars, p)
  {
    var f := Strategy(p);
    forall data: seq<Bar>, n: nat | n < |data| && n < |f(data)| && n < |f(data[..n + 1])|
      ensures f(data[..n + 1])[n] == f(data)[n]
    {
      DeviationOfPrefix(data, p.window, n + 1, n);
    }
    CausalStreamAgrees(f, bars);
  }
}
