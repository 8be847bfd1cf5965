/** The Donchian channel strategy with its stop loop (src/openhamster/strategy/channel_breakout.py),
    on complete price data. */
module ChannelBreakout {
  import opened Prelude
  import opened StrategyAdapter

  datatype Params = Params(channelWindow: Window, atrWindow: Window, atrK: real, useStopLoss: bool)

  function Higher(a: real, b: real): real {
    if a < b then b else a
  }

  function Abs(x: real): real {
    if x < 0.0 then -x else x
  }

  function HighestHigh(bars: seq<Bar>, lo: nat, hi: nat): real
    requires lo < hi <= |bars|
  {
    if hi == lo + 1 then bars[lo].high else Higher(HighestHigh(bars, lo, hi - 1), bars[hi - 1].high)
  }

  function LowestLow(bars: seq<Bar>, lo: nat, hi: nat): real
    requires lo < hi <= |bars|
  {
    if hi == lo + 1 then bars[lo].low else -Higher(-LowestLow(bars, lo, hi - 1), -bars[hi - 1].low)
  }

  /** `close > upper_channel.shift(1)`; the shifted channel is undefined before a full window. */
  predicate BreaksOut(bars: seq<Bar>, window: Window, i: nat)
    requires i < |bars|
  {
    i >= window && bars[i].close > HighestHigh(bars, i - window, i)
  }

  predicate BreaksDown(bars: seq<Bar>, window: Window, i: nat)
    requires i < |bars|
  {
    i >= window && bars[i].close < LowestLow(bars, i - window, i)
  }

  /** The first bar has no previous close: its range is high minus low. */
  function TrueRange(bars: seq<Bar>, i: nat): real
    requires i < |bars|
  {
    var spread := bars[i].high - bars[i].low;
    if i == 0 then spread
    else Higher(Higher(spread, Abs(bars[i].high - bars[i - 1].close)), Abs(bars[i].low - bars[i - 1].close))
  }

  function RangeSum(bars: seq<Bar>, lo: nat, hi: nat): real
    requires lo <= hi <= |bars|
  {
    if lo == hi then 0.0 else RangeSum(bars, lo, hi - 1) + TrueRange(bars, hi - 1)
  }

  function Atr(bars: seq<Bar>, window: Window, i: nat): Option<real>
    requires i < |bars|
  {
    if i + 1 < window then None else Some(RangeSum(bars, i + 1 - window, i + 1) / window as real)
  }

  function StopPrice(entry: real, k: real, atr: real): real {
    entry - k * atr
  }

  /** The close lies below the stop set from `entry`; a comparison with an undefined ATR is false. */
  predicate StopHit(bars: seq<Bar>, p: Params, entry: real, i: nat)
    requires i < |bars|
  {
    var atr := Atr(bars, p.atrWindow, i);
    atr.Some? && bars[i].close < StopPrice(entry, p.atrK, atr.value)
  }

  /** The position before the stop loop. */
  function RawAt(bars: seq<Bar>, p: Params, i: nat): int
    requires i < |bars|
  {
    if BreaksOut(bars, p.channelWindow, i) && !BreaksDown(bars, p.channelWindow, i) then 1 else 0
  }

  function Raw(bars: seq<Bar>, p: Params): (signals: seq<int>)
    ensures |signals| == |bars| && forall i | 0 <= i < |bars| :: signals[i] == RawAt(bars, p, i)
  {
    seq(|bars|, i requires 0 <= i < |bars| => RawAt(bars, p, i))
  }

  datatype Scan = Scan(signals: seq<int>, inPosition: bool)

  /** One turn of the stop loop. The entry price read is the one stored for bar `i` itself. */
  function StopStep(s: Scan, bars: seq<Bar>, p: Params, i: nat): (s': Scan)
    requires i < |bars| == |s.signals|
    ensures |s'.signals| == |bars|
  {
    if s.signals[i] == 1 && !s.inPosition then s.(inPosition := true)
    else if s.inPosition && s.signals[i] == 0 then s.(inPosition := false)
    else if s.inPosition && StopHit(bars, p, bars[i].close, i) then Scan(s.signals[i := 0], false)
    else s
  }

  /** The stop loop over the bars before `n`. */
  function StopTo(raw: seq<int>, bars: seq<Bar>, p: Params, n: nat): (s: Scan)
    requires n <= |bars| == |raw|
    ensures |s.signals| == |bars|
  {
    if n <= p.channelWindow then Scan(raw, false) else StopStep(StopTo(raw, bars, p, n - 1), bars, p, n - 1)
  }

  function Signals(bars: seq<Bar>, p: Params): (signals: seq<int>)
    ensures |signals| == |bars|
  {
    if p.useStopLoss then StopTo(Raw(bars, p), bars, p, |bars|).signals else Raw(bars, p)
  }

  /** The stop loop, overwriting `signals` in place. */
  method ApplyStops(bars: seq<Bar>, p: Params, signals: array<int>)
    requires signals.Length == |bars|
    modifies signals
    ensures signals[..] == StopTo(old(signals[..]), bars, p, |bars|).signals
  {
    ghost var raw := signals[..];
    var entryPrice := new real[|bars|](i requires 0 <= i < |bars| => bars[i].close);
    var inPosition := false;
    var i: nat := p.channelWindow;
    while i < signals.Length
      invariant i >= p.channelWindow
      invariant signals.Length == entryPrice.Length == |bars|
      invariant forall j | 0 <= j < |bars| :: entryPrice[j] == bars[j].close
      invariant Scan(signals[..], inPosition) == StopTo(raw, bars, p, Min(i, |bars|))
    {
      ghost var before := Scan(signals[..], inPosition);
      if signals[i] == 1 && !inPosition {
        entryPrice[i] := bars[i].close;
        inPosition := true;
      } else if inPosition && signals[i] == 0 {
        inPosition := false;
      } else if inPosition {
        if StopHit(bars, p, entryPrice[i], i) {
          signals[i] := 0;
          inPosition := false;
        }
      }
      assert Scan(signals[..], inPosition) == StopStep(before, bars, p, i);
      i := i + 1;
    }
  }

  method GenerateSignals(bars: seq<Bar>, p: Params) returns (result: seq<int>)
    ensures result == Signals(bars, p)
  {
    var signals := new int[|bars|](_ => 0);
    forall i | 0 <= i < |bars| && BreaksOut(bars, p.channelWindow, i) {
      signals[i] := 1;
    }
    forall i | 0 <= i < |bars| && BreaksDown(bars, p.channelWindow, i) {
      signals[i] := 0;
    }
    assert signals[..] == Raw(bars, p);
    if p.useStopLoss {
      ApplyStops(bars, p, signals);
    }
    result := signals[..];
  }

  // ----- What a breakout is -----

  lemma {:induction false} ChannelBounds(bars: seq<Bar>, lo: nat, hi: nat, x: real)
    requires lo < hi <= |bars|
    ensures x > HighestHigh(bars, lo, hi) <==> forall j | lo <= j < hi :: x > bars[j].high
    ensures x < LowestLow(bars, lo, hi) <==> forall j | lo <= j < hi :: x < bars[j].low
  {
    if hi > lo + 1 {
      ChannelBounds(bars, lo, hi - 1, x);
    }
  }

  /** A bar is long before stops exactly when a full window precedes it, it closes above every high
      of that window, and not below every low of it. */
  lemma LongIffAboveEveryHigh(bars: seq<Bar>, p: Params, i: nat)
    requires i < |bars|
    ensures Raw(bars, p)[i] == 1 <==>
              && i >= p.channelWindow
              && (forall j | i - p.channelWindow <= j < i :: bars[i].close > bars[j].high)
              && (exists j | i - p.channelWindow <= j < i :: bars[i].close >= bars[j].low)
  {
    if i >= p.channelWindow {
      ChannelBounds(bars, i - p.channelWindow, i, bars[i].close);
    }
  }

  // ----- What the ATR is -----

  /** The true range of a bar: the greatest of its spread and its two distances from the last close. */
  predicate IsTrueRange(bars: seq<Bar>, i: nat, r: real)
    requires i < |bars|
  {
    var spread := bars[i].high - bars[i].low;
    if i == 0 then r == spread
    else
      var up, down := bars[i].high - bars[i - 1].close, bars[i].low - bars[i - 1].close;
      && r >= spread && r >= up && r >= -up && r >= down && r >= -down
      && (r == spread || r == up || r == -up || r == down || r == -down)
  }

  lemma {:induction false} RangeSumIsTotal(bars: seq<Bar>, lo: nat, hi: nat, ranges: seq<real>)
    requires lo <= hi <= |bars| && |ranges| == hi - lo
    requires forall k | 0 <= k < hi - lo :: IsTrueRange(bars, lo + k, ranges[k])
    ensures RangeSum(bars, lo, hi) == Total(ranges)
  {
    if lo < hi {
      RangeSumIsTotal(bars, lo, hi - 1, ranges[..hi - 1 - lo]);
      assert IsTrueRange(bars, lo + (hi - 1 - lo), ranges[hi - 1 - lo]);
    }
  }

  lemma MeanIs(sum: real, window: Window, mean: real)
    ensures sum / window as real == mean <==> window as real * mean == sum
  {
  }

  /** The ATR is the mean of the true ranges of the window that ends with the bar, and undefined before
      a full window. */
  lemma AtrIsMeanRange(bars: seq<Bar>, window: Window, i: nat, ranges: seq<real>, mean: real)
    requires i < |bars| && |ranges| == window
    requires i + 1 >= window ==> forall k | 0 <= k < window :: IsTrueRange(bars, i + 1 - window + k, ranges[k])
    ensures Atr(bars, window, i) == Some(mean) <==> i + 1 >= window && window as real * mean == Total(ranges)
  {
    if i + 1 >= window {
      RangeSumIsTotal(bars, i + 1 - window, i + 1, ranges);
      MeanIs(Total(ranges), window, mean);
    }
  }

  // ----- When the stop does anything -----

  /** The stop price lies above the close it is set from: the multiple times the ATR is negative. */
  predicate Inverted(bars: seq<Bar>, p: Params, i: nat)
    requires i < |bars|
  {
    var atr := Atr(bars, p.atrWindow, i);
    atr.Some? && p.atrK * atr.value < 0.0
  }

  /** Before bar `n`, no bar that follows a long bar is itself long with an inverted stop. */
  predicate NeverInverted(bars: seq<Bar>, p: Params, n: nat)
    requires n <= |bars|
  {
    forall i | p.channelWindow < i < n :: Raw(bars, p)[i - 1] == 1 && Raw(bars, p)[i] == 1 ==> !Inverted(bars, p, i)
  }

  lemma {:induction false} StopsChangeOnlyIfInverted(bars: seq<Bar>, p: Params, n: nat)
    requires n <= |bars| && NeverInverted(bars, p, n)
    ensures StopTo(Raw(bars, p), bars, p, n)
         == Scan(Raw(bars, p), n > p.channelWindow && Raw(bars, p)[n - 1] == 1)
  {
    if n > p.channelWindow {
      StopsChangeOnlyIfInverted(bars, p, n - 1);
    }
  }

  /** The loop leaves alone what it has not reached, and a position it took away stays away. */
  lemma {:induction false} StopsOnlyLower(raw: seq<int>, bars: seq<Bar>, p: Params, n: nat, i: nat)
    requires i < |bars| == |raw| && n <= |bars|
    ensures i >= n ==> StopTo(raw, bars, p, n).signals[i] == raw[i]
    ensures StopTo(raw, bars, p, n).signals[i] == raw[i] || StopTo(raw, bars, p, n).signals[i] == 0
  {
    if n > p.channelWindow {
      StopsOnlyLower(raw, bars, p, n - 1, i);
    }
  }

  lemma {:induction false} StopsKeepEarlier(raw: seq<int>, bars: seq<Bar>, p: Params, n: nat, m: nat, i: nat)
    requires i < n <= m <= |bars| == |raw|
    ensures StopTo(raw, bars, p, m).signals[i] == StopTo(raw, bars, p, n).signals[i]
  {
    if n < m {
      StopsKeepEarlier(raw, bars, p, n, m - 1, i);
    }
  }

  lemma FirstInverted(bars: seq<Bar>, p: Params, n: nat) returns (i: nat)
    requires n <= |bars| && !NeverInverted(bars, p, n)
    ensures p.channelWindow < i < n && NeverInverted(bars, p, i)
    ensures Raw(bars, p)[i - 1] == 1 && Raw(bars, p)[i] == 1 && Inverted(bars, p, i)
  {
    if NeverInverted(bars, p, n - 1) {
      i := n - 1;
    } else {
      i := FirstInverted(bars, p, n - 1);
    }
  }

  /** The stop loop changes the signals exactly when some long bar that follows a long bar has a
      negative multiple of the ATR; it never depends on how far the price fell. */
  lemma StopsChangeIffInverted(bars: seq<Bar>, p: Params)
    requires p.useStopLoss
    ensures Signals(bars, p) == Raw(bars, p) <==> NeverInverted(bars, p, |bars|)
  {
    var raw := Raw(bars, p);
    if NeverInverted(bars, p, |bars|) {
      StopsChangeOnlyIfInverted(bars, p, |bars|);
    } else {
      var i := FirstInverted(bars, p, |bars|);
      StopsChangeOnlyIfInverted(bars, p, i);
      assert StopTo(raw, bars, p, i + 1).signals[i] == 0;
      StopsKeepEarlier(raw, bars, p, i + 1, |bars|, i);
    }
  }

  lemma StepTurns(s: Scan, bars: seq<Bar>, p: Params, i: nat)
    requires i < |bars| == |s.signals| && 0 <= s.signals[i] <= 1
    ensures var s' := StopStep(s, bars, p, i);
            && (s'.inPosition <==> s'.signals[i] == 1)
            && (s'.signals[i] == 1 <==> s.signals[i] == 1 && !(s.inPosition && Inverted(bars, p, i)))
  {
  }

  /** While the loop runs, it holds a position exactly when the bar before is still long. */
  lemma {:induction false} StopTurns(bars: seq<Bar>, p: Params, n: nat)
    requires p.channelWindow < n <= |bars|
    ensures var raw, s := Raw(bars, p), StopTo(Raw(bars, p), bars, p, n);
            var held := n - 1 > p.channelWindow && StopTo(raw, bars, p, n - 1).signals[n - 2] == 1;
            && (s.inPosition <==> s.signals[n - 1] == 1)
            && (s.signals[n - 1] == 1 <==> raw[n - 1] == 1 && !(held && Inverted(bars, p, n - 1)))
  {
    var before := StopTo(Raw(bars, p), bars, p, n - 1);
    StopsOnlyLower(Raw(bars, p), bars, p, n - 1, n - 1);
    StepTurns(before, bars, p, n - 1);
    if n - 1 > p.channelWindow {
      StopTurns(bars, p, n - 1);
    }
  }

  /** Every signal from the one before: a bar that breaks out is long, unless stops are on, the bar
      before is long and the stop is inverted. All other bars are flat. */
  lemma SignalFollowsPrevious(bars: seq<Bar>, p: Params, i: nat)
    requires i < |bars|
    ensures var signals := Signals(bars, p);
            signals[i] == if Raw(bars, p)[i] == 1
                             && !(&& p.useStopLoss && i > p.channelWindow && signals[i - 1] == 1
                                  && Inverted(bars, p, i))
                          then 1 else 0
  {
    var raw := Raw(bars, p);
    if p.useStopLoss {
      StopsOnlyLower(raw, bars, p, |bars|, i);
      if i >= p.channelWindow {
        StopTurns(bars, p, i + 1);
        StopsKeepEarlier(raw, bars, p, i + 1, |bars|, i);
      }
      if i > p.channelWindow {
        StopsKeepEarlier(raw, bars, p, i, |bars|, i - 1);
      }
    }
  }

  lemma {:induction false} RangesNotNegative(bars: seq<Bar>, lo: nat, hi: nat)
    requires lo <= hi <= |bars| && (bars == [] || bars[0].low <= bars[0].high)
    ensures RangeSum(bars, lo, hi) >= 0.0
  {
    if lo < hi {
      RangesNotNegative(bars, lo, hi - 1);
    }
  }

  lemma ScaledMeanNotNegative(k: real, sum: real, window: Window)
    requires k >= 0.0 && sum >= 0.0
    ensures k * (sum / window as real) >= 0.0
  {
  }

  /** With a non-negative multiple and a first bar whose high is not below its low, the stop never
      fires: the switch makes no difference. */
  lemma StopNeverFires(bars: seq<Bar>, p: Params)
    requires p.atrK >= 0.0 && (bars == [] || bars[0].low <= bars[0].high)
    ensures Signals(bars, p) == Signals(bars, p.(useStopLoss := false))
  {
    forall i | p.channelWindow < i < |bars| && i + 1 >= p.atrWindow
      ensures !Inverted(bars, p, i)
    {
      RangesNotNegative(bars, i + 1 - p.atrWindow, i + 1);
      ScaledMeanNotNegative(p.atrK, RangeSum(bars, i + 1 - p.atrWindow, i + 1), p.atrWindow);
    }
    assert Raw(bars, p) == Raw(bars, p.(useStopLoss := false));
    if p.useStopLoss {
      StopsChangeIffInverted(bars, p);
    }
  }

  // ----- No signal depends on later bars -----

  lemma {:induction false} ChannelOfPrefix(bars: seq<Bar>, n: nat, lo: nat, hi: nat)
    requires lo < hi <= n <= |bars|
    ensures HighestHigh(bars[..n], lo, hi) == HighestHigh(bars, lo, hi)
    ensures LowestLow(bars[..n], lo, hi) == LowestLow(bars, lo, hi)
  {
    if hi > lo + 1 {
      ChannelOfPrefix(bars, n, lo, hi - 1);
    }
  }

  lemma {:induction false} RangeSumOfPrefix(bars: seq<Bar>, n: nat, lo: nat, hi: nat)
    requires lo <= hi <= n <= |bars|
    ensures RangeSum(bars[..n], lo, hi) == RangeSum(bars, lo, hi)
  {
    if lo < hi {
      RangeSumOfPrefix(bars, n, lo, hi - 1);
    }
  }

  lemma AtrOfPrefix(bars: seq<Bar>, window: Window, n: nat, i: nat)
    requires i < n <= |bars|
    ensures Atr(bars[..n], window, i) == Atr(bars, window, i)
  {
    if i + 1 >= window {
      RangeSumOfPrefix(bars, n, i + 1 - window, i + 1);
    }
  }

  lemma BarOfPrefix(bars: seq<Bar>, p: Params, n: nat, i: nat)
    requires i < n <= |bars|
    ensures RawAt(bars[..n], p, i) == RawAt(bars, p, i)
    ensures StopHit(bars[..n], p, bars[i].close, i) == StopHit(bars, p, bars[i].close, i)
  {
    if i >= p.channelWindow {
      ChannelOfPrefix(bars, n, i - p.channelWindow, i);
    }
    AtrOfPrefix(bars, p.atrWindow, n, i);
  }

  lemma {:induction false} StopsOfPrefix(bars: seq<Bar>, p: Params, n: nat, m: nat)
    requires m <= n <= |bars|
    ensures var part, whole := StopTo(Raw(bars[..n], p), bars[..n], p, m), StopTo(Raw(bars, p), bars, p, m);
            part.inPosition == whole.inPosition && part.signals == whole.signals[..n]
  {
    if m <= p.channelWindow {
      forall i | 0 <= i < n
        ensures RawAt(bars[..n], p, i) == RawAt(bars, p, i)
      {
        BarOfPrefix(bars, p, n, i);
      }
    } else {
      StopsOfPrefix(bars, p, n, m - 1);
      BarOfPrefix(bars, p, n, m - 1);
    }
  }

  lemma SignalsOfPrefix(bars: seq<Bar>, p: Params, n: nat)
    requires n <= |bars|
    ensures Signals(bars[..n], p) == Signals(bars, p)[..n]
  {
    if p.useStopLoss {
      StopsOfPrefix(bars, p, n, n);
      forall i | 0 <= i < n
        ensures Signals(bars[..n], p)[i] == Signals(bars, p)[i]
      {
        StopsKeepEarlier(Raw(bars, p), bars, p, n, |bars|, i);
      }
    } else {
      forall i | 0 <= i < n
        ensures RawAt(bars[..n], p, i) == RawAt(bars, p, i)
      {
        BarOfPrefix(bars, p, n, i);
      }
    }
  }

  lemma SignalsAreLongOrFlat(bars: seq<Bar>, p: Params, i: nat)
    requires i < |bars|
    ensures 0 <= Signals(bars, p)[i] <= 1
  {
    StopsOnlyLower(Raw(bars, p), bars, p, |bars|, i);
  }

  function Strategy(p: Params): seq<Bar> -> seq<int> {
    bars => Signals(bars, p)
  }

  /** Asked bar by bar on every prefix, the strategy gives the series of one call on all the data. */
  lemma StreamIsVectorised(bars: seq<Bar>, p: Params)
    ensures Stream(Strategy(p), bars) == Signals(bars, p)
  {
    var f := Strategy(p);
    forall data: seq<Bar>, i | 0 <= i < |data|
      ensures -1 <= f(data)[i] <= 1
    {
      SignalsAreLongOrFlat(data, p, i);
    }
    forall data: seq<Bar>, n: nat | n < |data| && n < |f(data)| && n < |f(data[..n + 1])|
      ensures f(data[..n + 1])[n] == f(data)[n]
    {
      SignalsOfPrefix(data, p, n + 1);
    }
    CausalStreamAgrees(f, bars);
  }
}
