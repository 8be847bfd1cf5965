/** The adapter that runs a vectorised strategy bar by bar (src/openhamster/strategy/factory.py and
    base_strategy.py). A strategy is a function from a price series to a series of positions. */
module StrategyAdapter {
  import opened Prelude

  datatype Bar = Bar(high: real, low: real, close: real)

  /** The length of a rolling window. */
  type Window = n: nat | n >= 1 witness 1

  /** `generate_signal`: the sign of the last value, or HOLD for an empty series. */
  function ReadLast(series: seq<int>): Signal {
    if series == [] then HOLD
    else if series[|series| - 1] > 0 then BUY
    else if series[|series| - 1] < 0 then SELL
    else HOLD
  }

  function Encode(s: Signal): int {
    match s
    case BUY => 1
    case SELL => -1
    case HOLD => 0
  }

  /** The bar-by-bar series: the strategy is asked again on every prefix. */
  function Stream(strategy: seq<Bar> -> seq<int>, data: seq<Bar>): (signals: seq<int>)
    ensures |signals| == |data|
  {
    if data == [] then []
    else Stream(strategy, data[..|data| - 1]) + [Encode(ReadLast(strategy(data)))]
  }

  class Adapter {
    const strategy: seq<Bar> -> seq<int>
    var position: int

    constructor (strategy: seq<Bar> -> seq<int>)
      ensures this.strategy == strategy && position == 0
    {
      this.strategy := strategy;
      position := 0;
    }

    method Reset()
      modifies this
      ensures position == 0
    {
      position := 0;
    }

    method GenerateSignal(data: seq<Bar>) returns (signal: Signal)
      ensures signal == ReadLast(strategy(data))
    {
      var series := strategy(data);
      if |series| == 0 {
        return HOLD;
      }
      var value := series[|series| - 1];
      if value > 0 {
        return BUY;
      }
      if value < 0 {
        return SELL;
      }
      return HOLD;
    }

    /** `BaseStrategy.generate_signals`. */
    method GenerateSignals(data: seq<Bar>) returns (signals: seq<int>)
      modifies this
      ensures signals == Stream(strategy, data) && position == 0
    {
      signals := [];
      Reset();
      for i := 0 to |data|
        invariant signals == Stream(strategy, data[..i])
        invariant position == 0
      {
        var signal := GenerateSignal(data[..i + 1]);
        assert data[..i + 1][..i] == data[..i];
        match signal {
          case BUY => signals := signals + [1];
          case SELL => signals := signals + [-1];
          case HOLD => signals := signals + [0];
        }
      }
      assert data[..|data|] == data;
    }
  }

  /** One position of -1, 0 or 1 for every bar. */
  ghost predicate WellFormed(strategy: seq<Bar> -> seq<int>) {
    forall data: seq<Bar> ::
      |strategy(data)| == |data| && forall i | 0 <= i < |data| :: -1 <= strategy(data)[i] <= 1
  }

  /** No position depends on later bars. */
  ghost predicate Causal(strategy: seq<Bar> -> seq<int>) {
    forall data: seq<Bar>, n: nat | n < |data| && n < |strategy(data)| && n < |strategy(data[..n + 1])| ::
      strategy(data[..n + 1])[n] == strategy(data)[n]
  }

  lemma {:induction false} StreamAt(strategy: seq<Bar> -> seq<int>, data: seq<Bar>, i: nat)
    requires i < |data|
    ensures Stream(strategy, data)[i] == Encode(ReadLast(strategy(data[..i + 1])))
  {
    var n := |data| - 1;
    if i < n {
      StreamAt(strategy, data[..n], i);
      assert data[..n][..i + 1] == data[..i + 1];
    } else {
      assert data[..i + 1] == data;
    }
  }

  /** Each bar of the stream has the sign of the last value the strategy gives up to it, and is flat if
      there is none. */
  lemma StreamIsSign(strategy: seq<Bar> -> seq<int>, data: seq<Bar>, i: nat)
    requires i < |data|
    ensures var series := strategy(data[..i + 1]);
            Stream(strategy, data)[i] ==
              if series == [] || series[|series| - 1] == 0 then 0
              else if series[|series| - 1] > 0 then 1
              else -1
  {
    StreamAt(strategy, data, i);
  }

  lemma StreamReadsPrefix(strategy: seq<Bar> -> seq<int>, data: seq<Bar>, i: nat)
    requires WellFormed(strategy) && i < |data|
    ensures |strategy(data[..i + 1])| == i + 1
    ensures Stream(strategy, data)[i] == strategy(data[..i + 1])[i]
  {
    StreamAt(strategy, data, i);
    var series := strategy(data[..i + 1]);
    assert |data[..i + 1]| == i + 1;
    assert -1 <= series[i] <= 1;
  }

  /** The bar-by-bar series is the vectorised one, on all data, exactly when the strategy never looks
      ahead. */
  lemma StreamAgreesIffCausal(strategy: seq<Bar> -> seq<int>)
    requires WellFormed(strategy)
    ensures (forall data: seq<Bar> :: Stream(strategy, data) == strategy(data)) <==> Causal(strategy)
  {
    if forall data: seq<Bar> :: Stream(strategy, data) == strategy(data) {
      forall data: seq<Bar>, n: nat | n < |data| && n < |strategy(data)| && n < |strategy(data[..n + 1])|
        ensures strategy(data[..n + 1])[n] == strategy(data)[n]
      {
        StreamReadsPrefix(strategy, data, n);
      }
    }
    if Causal(strategy) {
      forall data: seq<Bar>
        ensures Stream(strategy, data) == strategy(data)
      {
        CausalStreamAgrees(strategy, data);
      }
    }
  }

  lemma CausalStreamAgrees(strategy: seq<Bar> -> seq<int>, data: seq<Bar>)
    requires WellFormed(strategy) && Causal(strategy)
    ensures Stream(strategy, data) == strategy(data)
  {
    assert |strategy(data)| == |data|;
    forall i | 0 <= i < |data|
      ensures Stream(strategy, data)[i] == strategy(data)[i]
    {
      StreamReadsPrefix(strategy, data, i);
    }
  }
}
