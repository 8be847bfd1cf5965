/** The bar-by-bar backtester without a risk manager (src/openhamster/backtest/backtester.py),
    in exact arithmetic. */
module Backtester {
  import opened Prelude

  datatype Fill = Bought(price: real, shares: int) | Sold(price: real, shares: int)

  datatype Bar = Bar(price: real, signal: Signal)

  datatype State = State(cash: real, position: int, fills: seq<Fill>)

  predicate BarsOk(bars: seq<Bar>, commission: real) {
    commission >= 0.0 && forall i | 0 <= i < |bars| :: bars[i].price > 0.0
  }

  /** `int(cash / (price * (1 + commission)))`; Python truncates, the quotient is not negative. */
  function Affordable(cash: real, price: real, commission: real): int
    requires price > 0.0 && commission >= 0.0
  {
    var unit := price * (1.0 + commission);
    assert unit > 0.0;
    if cash >= 0.0 then (cash / unit).Floor else -((-cash / unit).Floor)
  }

  /** `_execute_trade`. */
  function Execute(s: State, b: Bar, commission: real): State
    requires b.price > 0.0 && commission >= 0.0
  {
    if b.signal == BUY && s.position == 0 then
      var shares := Affordable(s.cash, b.price, commission);
      if shares > 0 then
        State(s.cash - shares as real * b.price * (1.0 + commission), shares, s.fills + [Bought(b.price, shares)])
      else s
    else if b.signal == SELL && s.position > 0 then
      State(s.cash + s.position as real * b.price * (1.0 - commission), 0, s.fills + [Sold(b.price, s.position)])
    else s
  }

  function RunTo(bars: seq<Bar>, capital: real, commission: real, n: nat): State
    requires BarsOk(bars, commission) && n <= |bars|
  {
    if n == 0 then State(capital, 0, []) else Execute(RunTo(bars, capital, commission, n - 1), bars[n - 1], commission)
  }

  function Equity(s: State, price: real): real {
    s.cash + s.position as real * price
  }

  /** The equity recorded at each of the first `n` bars. */
  function EquityCurve(bars: seq<Bar>, capital: real, commission: real, n: nat): (curve: seq<real>)
    requires BarsOk(bars, commission) && n <= |bars|
    ensures |curve| == n
  {
    if n == 0 then []
    else
      EquityCurve(bars, capital, commission, n - 1)
      + [Equity(RunTo(bars, capital, commission, n), bars[n - 1].price)]
  }

  class Engine {
    const initialCapital: real
    const commission: real
    var cash: real
    var position: int
    var fills: seq<Fill>
    var equityCurve: seq<real>

    constructor (initialCapital: real, commission: real)
      ensures this.initialCapital == initialCapital && this.commission == commission
    {
      this.initialCapital := initialCapital;
      this.commission := commission;
      cash, position, fills, equityCurve := initialCapital, 0, [], [];
    }

    method ExecuteTrade(b: Bar)
      requires b.price > 0.0 && commission >= 0.0
      modifies `cash, `position, `fills
      ensures State(cash, position, fills) == Execute(old(State(cash, position, fills)), b, commission)
    {
      if b.signal == BUY && position == 0 {
        var shares := Affordable(cash, b.price, commission);
        if shares > 0 {
          var cost := shares as real * b.price * (1.0 + commission);
          cash := cash - cost;
          position := shares;
          fills := fills + [Bought(b.price, shares)];
        }
      } else if b.signal == SELL && position > 0 {
        var proceeds := position as real * b.price * (1.0 - commission);
        cash := cash + proceeds;
        fills := fills + [Sold(b.price, position)];
        position := 0;
      }
    }

    method Run(bars: seq<Bar>)
      requires BarsOk(bars, commission)
      modifies this
      ensures State(cash, position, fills) == RunTo(bars, initialCapital, commission, |bars|)
      ensures equityCurve == EquityCurve(bars, initialCapital, commission, |bars|)
    {
      cash, position, fills, equityCurve := initialCapital, 0, [], [];
      for i := 0 to |bars|
        invariant State(cash, position, fills) == RunTo(bars, initialCapital, commission, i)
        invariant equityCurve == EquityCurve(bars, initialCapital, commission, i)
      {
        ExecuteTrade(bars[i]);
        equityCurve := equityCurve + [Equity(State(cash, position, fills), bars[i].price)];
      }
    }
  }

  // ----- What a signal does -----

  /** `n` shares at `unit` each, commission included, are the most that `cash` pays for. */
  predicate MostShares(n: int, cash: real, unit: real) {
    n >= 0 && n as real * unit <= cash && cash < (n + 1) as real * unit
  }

  lemma QuotientBounds(x: real, unit: real, q: real)
    requires unit > 0.0 && q == x / unit
    ensures q * unit == x && (x >= 0.0 ==> q >= 0.0)
  {
  }

  lemma ProductGrows(x: real, y: real, z: real)
    requires z > 0.0
    ensures x <= y ==> x * z <= y * z
    ensures x < y ==> x * z < y * z
  {
    if x < y {
      assert (y - x) * z > 0.0;
    }
  }

  lemma FloorBounds(q: real, n: int)
    requires q >= 0.0 && n == q.Floor
    ensures n >= 0 && n as real <= q < (n + 1) as real
  {
  }

  lemma BoundsScale(n: int, q: real, cash: real, unit: real)
    requires unit > 0.0 && n >= 0 && n as real <= q < (n + 1) as real && q * unit == cash
    ensures MostShares(n, cash, unit)
  {
    ProductGrows(n as real, q, unit);
    ProductGrows(q, (n + 1) as real, unit);
  }

  lemma FloorIsMost(cash: real, unit: real, q: real)
    requires cash >= 0.0 && unit > 0.0 && q == cash / unit
    ensures MostShares(q.Floor, cash, unit)
  {
    QuotientBounds(cash, unit, q);
    FloorBounds(q, q.Floor);
    BoundsScale(q.Floor, q, cash, unit);
  }

  lemma AffordableIsMost(cash: real, price: real, commission: real)
    requires price > 0.0 && commission >= 0.0
    ensures cash >= 0.0 ==> MostShares(Affordable(cash, price, commission), cash, price * (1.0 + commission))
    ensures cash < 0.0 ==> Affordable(cash, price, commission) <= 0
  {
    var unit := price * (1.0 + commission);
    if cash >= 0.0 {
      FloorIsMost(cash, unit, cash / unit);
    }
  }

  lemma CostOf(n: int, price: real, commission: real)
    ensures n as real * price * (1.0 + commission) == n as real * (price * (1.0 + commission))
  {
  }

  /** A BUY without a position spends the cash on as many whole shares as it pays for, if it pays for
      any. */
  lemma BuySpendsTheCash(s: State, b: Bar, commission: real) returns (n: int)
    requires b.price > 0.0 && commission >= 0.0 && b.signal == BUY && s.position == 0 && s.cash >= 0.0
    ensures MostShares(n, s.cash, b.price * (1.0 + commission))
    ensures Execute(s, b, commission) ==
              if n == 0 then s
              else State(s.cash - n as real * (b.price * (1.0 + commission)), n, s.fills + [Bought(b.price, n)])
  {
    n := Affordable(s.cash, b.price, commission);
    AffordableIsMost(s.cash, b.price, commission);
    CostOf(n, b.price, commission);
  }

  /** A SELL sells the whole position. No other signal does anything. */
  lemma SellClosesThePosition(s: State, b: Bar, commission: real)
    requires b.price > 0.0 && commission >= 0.0
    requires b.signal == BUY ==> s.position != 0 || s.cash < 0.0
    ensures Execute(s, b, commission) ==
              if b.signal == SELL && s.position > 0 then
                State(s.cash + s.position as real * b.price * (1.0 - commission), 0,
                      s.fills + [Sold(b.price, s.position)])
              else s
  {
    AffordableIsMost(s.cash, b.price, commission);
  }

  lemma {:induction false} EquityCurveAt(bars: seq<Bar>, capital: real, commission: real, n: nat, k: nat)
    requires BarsOk(bars, commission) && k < n <= |bars|
    ensures EquityCurve(bars, capital, commission, n)[k]
         == Equity(RunTo(bars, capital, commission, k + 1), bars[k].price)
  {
    if k < n - 1 {
      EquityCurveAt(bars, capital, commission, n - 1, k);
    }
  }

  // ----- Cash never goes negative -----

  predicate Solvent(s: State) {
    s.cash >= 0.0 && s.position >= 0
  }

  lemma ExecuteKeepsSolvent(s: State, b: Bar, commission: real)
    requires Solvent(s) && b.price > 0.0 && 0.0 <= commission <= 1.0
    ensures Solvent(Execute(s, b, commission))
  {
  }

  /** For every price and signal series cash stays non-negative. */
  lemma {:induction false} CashNeverNegative(bars: seq<Bar>, capital: real, commission: real, n: nat)
    requires BarsOk(bars, commission) && commission <= 1.0 && capital >= 0.0 && n <= |bars|
    ensures Solvent(RunTo(bars, capital, commission, n))
  {
    if n > 0 {
      CashNeverNegative(bars, capital, commission, n - 1);
      ExecuteKeepsSolvent(RunTo(bars, capital, commission, n - 1), bars[n - 1], commission);
    }
  }

  lemma {:induction false} NoCapitalNoTrade(bars: seq<Bar>, commission: real, n: nat)
    requires BarsOk(bars, commission) && n <= |bars|
    ensures RunTo(bars, 0.0, commission, n) == State(0.0, 0, [])
  {
    if n > 0 {
      NoCapitalNoTrade(bars, commission, n - 1);
    }
  }

  lemma SelfQuotient(x: real)
    requires x > 0.0
    ensures x / x == 1.0
  {
    var q := x / x;
    assert q * x == x;
    assert (q - 1.0) * x == 0.0;
    NoZeroDivisors(q - 1.0, x);
  }

  lemma BuyOneShare(capital: real, commission: real, price: real)
    requires capital > 0.0 && commission >= 0.0 && price > 0.0 && price * (1.0 + commission) == capital
    ensures Execute(State(capital, 0, []), Bar(price, BUY), commission) == State(0.0, 1, [Bought(price, 1)])
  {
    SelfQuotient(capital);
    assert Affordable(capital, price, commission) == 1;
    assert 1 as real * price == price;
  }

  lemma SellAtALoss(commission: real, price: real, fills: seq<Fill>)
    requires commission > 1.0 && price > 0.0
    ensures Execute(State(0.0, 1, fills), Bar(price, SELL), commission).cash < 0.0
  {
    assert 1 as real * price == price;
    NegativeProduct(price, 1.0 - commission);
  }

  lemma NegativeProduct(x: real, y: real)
    requires x > 0.0 && y < 0.0
    ensures x * y < 0.0
  {
  }

  /** One share for all the capital, sold at the price it cost. */
  lemma CostlySale(bars: seq<Bar>, capital: real, commission: real, price: real)
    requires capital > 0.0 && commission > 1.0 && price > 0.0 && price * (1.0 + commission) == capital
    requires bars == [Bar(price, BUY), Bar(price, SELL)]
    ensures BarsOk(bars, commission) && !Solvent(RunTo(bars, capital, commission, 2))
  {
    BuyOneShare(capital, commission, price);
    SellAtALoss(commission, price, [Bought(price, 1)]);
    assert RunTo(bars, capital, commission, 0) == State(capital, 0, []);
    assert RunTo(bars, capital, commission, 1) == State(0.0, 1, [Bought(price, 1)]);
  }

  /** Cash stays non-negative on every price and signal series exactly when the commission rate is at
      most one, or there is no capital to trade with. */
  lemma CashNeverNegativeIff(capital: real, commission: real)
    requires capital >= 0.0 && commission >= 0.0
    ensures (forall bars: seq<Bar>, n: nat | BarsOk(bars, commission) && n <= |bars| ::
               Solvent(RunTo(bars, capital, commission, n)))
       <==> commission <= 1.0 || capital == 0.0
  {
    forall bars: seq<Bar>, n: nat | BarsOk(bars, commission) && n <= |bars|
      ensures commission <= 1.0 || capital == 0.0 ==> Solvent(RunTo(bars, capital, commission, n))
    {
      if commission <= 1.0 {
        CashNeverNegative(bars, capital, commission, n);
      } else if capital == 0.0 {
        NoCapitalNoTrade(bars, commission, n);
      }
    }
    if commission > 1.0 && capital > 0.0 {
      var price := capital / (1.0 + commission);
      assert price * (1.0 + commission) == capital && price > 0.0;
      CostlySale([Bar(price, BUY), Bar(price, SELL)], capital, commission, price);
    }
  }

  // ----- Trades alternate -----

  /** Buys stand at even places, sells at odd ones, and each sell closes the whole buy before it. */
  predicate Alternates(fills: seq<Fill>) {
    forall k | 0 <= k < |fills| ::
      && (fills[k].Bought? <==> k % 2 == 0)
      && fills[k].shares > 0
      && (fills[k].Sold? ==> fills[k].shares == fills[k - 1].shares)
  }

  /** The fills alternate and the shares held are those of a last, unsold buy. */
  predicate Orderly(s: State) {
    && Alternates(s.fills)
    && s.position == if |s.fills| % 2 == 0 then 0 else s.fills[|s.fills| - 1].shares
  }

  lemma FillKeepsAlternating(fills: seq<Fill>, f: Fill)
    requires Alternates(fills) && f.shares > 0
    requires f.Bought? <==> |fills| % 2 == 0
    requires f.Sold? ==> fills[|fills| - 1].shares == f.shares
    ensures Alternates(fills + [f])
  {
  }

  lemma ExecuteKeepsOrderly(s: State, b: Bar, commission: real)
    requires Orderly(s) && b.price > 0.0 && commission >= 0.0
    ensures Orderly(Execute(s, b, commission))
  {
    var s' := Execute(s, b, commission);
    if s' != s {
      var f := if b.signal == BUY then Bought(b.price, s'.position) else Sold(b.price, s.position);
      assert |s.fills| > 0 ==> s.fills[|s.fills| - 1].shares > 0;
      FillKeepsAlternating(s.fills, f);
      assert s'.fills == s.fills + [f];
    }
  }

  lemma {:induction false} TradesAlternate(bars: seq<Bar>, capital: real, commission: real, n: nat)
    requires BarsOk(bars, commission) && n <= |bars|
    ensures Orderly(RunTo(bars, capital, commission, n))
  {
    if n > 0 {
      TradesAlternate(bars, capital, commission, n - 1);
      ExecuteKeepsOrderly(RunTo(bars, capital, commission, n - 1), bars[n - 1], commission);
    }
  }

  // ----- Where the final equity comes from -----

  /** Shares held at the close of each bar times the price change to the next one. */
  function HoldingGains(bars: seq<Bar>, capital: real, commission: real, n: nat): real
    requires BarsOk(bars, commission) && n <= |bars|
  {
    if n <= 1 then 0.0
    else HoldingGains(bars, capital, commission, n - 1)
         + RunTo(bars, capital, commission, n - 1).position as real * (bars[n - 1].price - bars[n - 2].price)
  }

  function Commissions(fills: seq<Fill>, commission: real): real {
    if fills == [] then 0.0
    else
      var last := fills[|fills| - 1];
      Commissions(fills[..|fills| - 1], commission) + last.shares as real * last.price * commission
  }

  lemma CommissionsAppend(fills: seq<Fill>, f: Fill, commission: real)
    ensures Commissions(fills + [f], commission)
         == Commissions(fills, commission) + f.shares as real * f.price * commission
  {
  }

  /** At `price` the equity is the capital plus `gains` minus the commissions paid. */
  predicate Explained(s: State, price: real, capital: real, gains: real, commission: real) {
    Equity(s, price) == capital + gains - Commissions(s.fills, commission)
  }

  lemma SplitCommission(value: real, commission: real)
    ensures value * (1.0 + commission) == value + value * commission
    ensures value * (1.0 - commission) == value - value * commission
  {
  }

  lemma FlatEquity(cash: real, price: real, fills: seq<Fill>)
    ensures Equity(State(cash, 0, fills), price) == cash
  {
  }

  /** Shares worth `value` bought or sold for a commission of `fee`. */
  lemma PurchaseCostsFee(s: State, s': State, price: real, value: real, fee: real, capital: real, gains: real,
                         commission: real)
    requires s.position == 0 && Explained(s, price, capital, gains, commission)
    requires s'.cash == s.cash - (value + fee) && s'.position as real * price == value
    requires Commissions(s'.fills, commission) == Commissions(s.fills, commission) + fee
    ensures Explained(s', price, capital, gains, commission)
  {
    FlatEquity(s.cash, price, s.fills);
  }

  lemma SaleCostsFee(s: State, s': State, price: real, value: real, fee: real, capital: real, gains: real,
                     commission: real)
    requires s'.position == 0 && Explained(s, price, capital, gains, commission)
    requires s'.cash == s.cash + (value - fee) && s.position as real * price == value
    requires Commissions(s'.fills, commission) == Commissions(s.fills, commission) + fee
    ensures Explained(s', price, capital, gains, commission)
  {
    FlatEquity(s'.cash, price, s'.fills);
  }

  lemma CommissionOf(fills: seq<Fill>, f: Fill, value: real, commission: real)
    requires value == f.shares as real * f.price
    ensures Commissions(fills + [f], commission) == Commissions(fills, commission) + value * commission
  {
    CommissionsAppend(fills, f, commission);
  }

  lemma PurchaseCostsCommission(s: State, n: int, price: real, value: real, capital: real, gains: real,
                                commission: real)
    requires value == n as real * price && s.position == 0 && Explained(s, price, capital, gains, commission)
    ensures Explained(State(s.cash - value * (1.0 + commission), n, s.fills + [Bought(price, n)]),
                      price, capital, gains, commission)
  {
    var s' := State(s.cash - value * (1.0 + commission), n, s.fills + [Bought(price, n)]);
    CommissionOf(s.fills, Bought(price, n), value, commission);
    SplitCommission(value, commission);
    PurchaseCostsFee(s, s', price, value, value * commission, capital, gains, commission);
  }

  lemma SaleCostsCommission(s: State, price: real, value: real, capital: real, gains: real, commission: real)
    requires value == s.position as real * price && Explained(s, price, capital, gains, commission)
    ensures Explained(State(s.cash + value * (1.0 - commission), 0, s.fills + [Sold(price, s.position)]),
                      price, capital, gains, commission)
  {
    var s' := State(s.cash + value * (1.0 - commission), 0, s.fills + [Sold(price, s.position)]);
    CommissionOf(s.fills, Sold(price, s.position), value, commission);
    SplitCommission(value, commission);
    SaleCostsFee(s, s', price, value, value * commission, capital, gains, commission);
  }

  /** `s'` is `s`, or `s` after a purchase or a sale of shares worth `value` at `price`. */
  predicate Trades(s: State, s': State, price: real, value: real, commission: real) {
    || s' == s
    || (&& s.position == 0 && value == s'.position as real * price
        && s' == State(s.cash - value * (1.0 + commission), s'.position, s.fills + [Bought(price, s'.position)]))
    || (&& value == s.position as real * price
        && s' == State(s.cash + value * (1.0 - commission), 0, s.fills + [Sold(price, s.position)]))
  }

  lemma ExecuteTrades(s: State, b: Bar, commission: real) returns (value: real)
    requires b.price > 0.0 && commission >= 0.0
    ensures Trades(s, Execute(s, b, commission), b.price, value, commission)
  {
    value := (if b.signal == BUY then Affordable(s.cash, b.price, commission) else s.position) as real * b.price;
  }

  lemma TradesKeepExplained(s: State, s': State, price: real, value: real, capital: real, gains: real,
                            commission: real)
    requires Trades(s, s', price, value, commission) && Explained(s, price, capital, gains, commission)
    ensures Explained(s', price, capital, gains, commission)
  {
    if s.position == 0 && value == s'.position as real * price {
      PurchaseCostsCommission(s, s'.position, price, value, capital, gains, commission);
    }
    if value == s.position as real * price {
      SaleCostsCommission(s, price, value, capital, gains, commission);
    }
  }

  /** A trade moves wealth between cash and shares and loses the commission only. */
  lemma TradeCostsCommission(s: State, b: Bar, capital: real, gains: real, commission: real)
    requires b.price > 0.0 && commission >= 0.0 && Explained(s, b.price, capital, gains, commission)
    ensures Explained(Execute(s, b, commission), b.price, capital, gains, commission)
  {
    var value := ExecuteTrades(s, b, commission);
    TradesKeepExplained(s, Execute(s, b, commission), b.price, value, capital, gains, commission);
  }

  lemma Reprice(s: State, last: real, now: real, capital: real, gains: real, commission: real)
    requires Explained(s, last, capital, gains, commission)
    ensures Explained(s, now, capital, gains + s.position as real * (now - last), commission)
  {
  }

  lemma {:induction false} EquityIsExplainedTo(bars: seq<Bar>, capital: real, commission: real, n: nat)
    requires BarsOk(bars, commission) && 0 < n <= |bars|
    ensures Explained(RunTo(bars, capital, commission, n), bars[n - 1].price, capital,
                      HoldingGains(bars, capital, commission, n), commission)
  {
    var before, gains := RunTo(bars, capital, commission, n - 1), 0.0;
    if n == 1 {
      assert Explained(before, bars[0].price, capital, gains, commission);
    } else {
      EquityIsExplainedTo(bars, capital, commission, n - 1);
      Reprice(before, bars[n - 2].price, bars[n - 1].price, capital,
              HoldingGains(bars, capital, commission, n - 1), commission);
      gains := HoldingGains(bars, capital, commission, n);
    }
    TradeCostsCommission(before, bars[n - 1], capital, gains, commission);
  }

  /** Final equity is the initial capital plus the gains of the shares held minus the commission on
      every trade. */
  lemma EquityIsExplained(bars: seq<Bar>, capital: real, commission: real)
    requires BarsOk(bars, commission) && bars != []
    ensures var n := |bars|;
            var s := RunTo(bars, capital, commission, n);
            Equity(s, bars[n - 1].price) ==
              capital + HoldingGains(bars, capital, commission, n) - Commissions(s.fills, commission)
  {
    EquityIsExplainedTo(bars, capital, commission, |bars|);
  }
}
