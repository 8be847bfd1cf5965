/** Trades read off a signal series and the accounting identities they satisfy
    (src/openhamster/backtest/backtest_engine.py). Signals are positions: 1 long, 0 flat, -1 short. */
module TradeExtraction {
  /** Entry and exit are bar numbers. */
  datatype Trade = Trade(entry: nat, exit: nat, entryPrice: real, exitPrice: real, position: int, pnl: real)

  /** The loop state of `_extract_trades`. */
  datatype Scan = Scan(trades: seq<Trade>, position: int, entry: nat, entryPrice: real)

  function Profit(entryPrice: real, exitPrice: real, position: int): real {
    (exitPrice - entryPrice) * position as real
  }

  function Step(s: Scan, i: nat, close: real, signal: int): Scan {
    if signal == s.position then s
    else
      var closed := if s.position == 0 then s.trades
                    else s.trades + [Trade(s.entry, i, s.entryPrice, close, s.position,
                                           Profit(s.entryPrice, close, s.position))];
      if signal != 0 then Scan(closed, signal, i, close) else s.(trades := closed, position := 0)
  }

  /** The scan of the first `n` bars. */
  function ScanTo(close: seq<real>, signals: seq<int>, n: nat): Scan
    requires |close| == |signals| && n <= |signals|
  {
    if n == 0 then Scan([], 0, 0, 0.0) else Step(ScanTo(close, signals, n - 1), n - 1, close[n - 1], signals[n - 1])
  }

  function Trades(close: seq<real>, signals: seq<int>): seq<Trade>
    requires |close| == |signals|
  {
    ScanTo(close, signals, |signals|).trades
  }

  method ExtractTrades(close: seq<real>, signals: seq<int>) returns (trades: seq<Trade>)
    requires |close| == |signals|
    ensures trades == Trades(close, signals)
  {
    trades := [];
    var position, entry: nat, entryPrice := 0, 0, 0.0;
    for i := 0 to |signals|
      invariant Scan(trades, position, entry, entryPrice) == ScanTo(close, signals, i)
    {
      var signal := signals[i];
      ghost var before := Scan(trades, position, entry, entryPrice);
      if signal != position {
        if position != 0 {
          var exitPrice := close[i];
          var pnl := Profit(entryPrice, exitPrice, position);
          trades := trades + [Trade(entry, i, entryPrice, exitPrice, position, pnl)];
        }
        if signal != 0 {
          position := signal;
          entryPrice := close[i];
          entry := i;
        } else {
          position := 0;
        }
      }
      assert Scan(trades, position, entry, entryPrice) == Step(before, i, close[i], signal);
    }
  }

  // ----- Which trades are extracted -----

  /** The signals hold `value` from bar `from` on, before bar `to`, and not at the bar before. */
  predicate Holds(signals: seq<int>, from: nat, to: nat, value: int)
    requires from <= to <= |signals|
  {
    && (forall j | from <= j < to :: signals[j] == value)
    && (from > 0 ==> signals[from - 1] != value)
  }

  /** `t` is a stretch of equal signals, not flat, that is over before bar `n`. */
  predicate IsTrade(close: seq<real>, signals: seq<int>, n: nat, t: Trade)
    requires |close| == |signals| && n <= |signals|
  {
    && t.entry < t.exit < n && t.position != 0
    && Holds(signals, t.entry, t.exit, t.position) && signals[t.exit] != t.position
    && t.entryPrice == close[t.entry] && t.exitPrice == close[t.exit]
    && t.pnl == (t.exitPrice - t.entryPrice) * t.position as real
  }

  /** The list holds `t`. */
  predicate Listed(trades: seq<Trade>, t: Trade) {
    exists k | 0 <= k < |trades| :: trades[k] == t
  }

  predicate InOrder(trades: seq<Trade>) {
    forall k | 0 < k < |trades| :: trades[k - 1].exit <= trades[k].entry
  }

  /** The trades over before bar `n`, each once and in order. */
  ghost predicate AllTrades(close: seq<real>, signals: seq<int>, n: nat, trades: seq<Trade>)
    requires |close| == |signals| && n <= |signals|
  {
    InOrder(trades) && forall t :: Listed(trades, t) <==> IsTrade(close, signals, n, t)
  }

  /** A position that is open was entered when its stretch began. */
  predicate OpenSince(close: seq<real>, signals: seq<int>, n: nat, s: Scan)
    requires |close| == |signals| && n <= |signals|
  {
    && s.position == (if n == 0 then 0 else signals[n - 1])
    && (s.position != 0 ==>
          s.entry < n && Holds(signals, s.entry, n, s.position) && s.entryPrice == close[s.entry])
  }

  lemma StretchesMeet(signals: seq<int>, a: nat, b: nat, n: nat, value: int)
    requires a <= n <= |signals| && b <= n && a < n && b < n
    requires Holds(signals, a, n, value) && Holds(signals, b, n, value)
    ensures a == b
  {
  }

  lemma NoNewTrade(close: seq<real>, signals: seq<int>, n: nat, trades: seq<Trade>)
    requires |close| == |signals| && n < |signals| && AllTrades(close, signals, n, trades)
    requires n == 0 || signals[n - 1] == 0 || signals[n] == signals[n - 1]
    ensures AllTrades(close, signals, n + 1, trades)
  {
    forall t
      ensures IsTrade(close, signals, n + 1, t) <==> IsTrade(close, signals, n, t)
    {
      assert IsTrade(close, signals, n + 1, t) ==> signals[t.exit - 1] == t.position;
    }
  }

  lemma AppendLists(trades: seq<Trade>, trade: Trade, t: Trade)
    ensures Listed(trades + [trade], t) <==> Listed(trades, t) || t == trade
  {
    var more := trades + [trade];
    assert more[|trades|] == trade;
    if Listed(trades, t) {
      var k :| 0 <= k < |trades| && trades[k] == t;
      assert more[k] == t;
    }
  }

  lemma AppendKeepsOrder(trades: seq<Trade>, trade: Trade)
    requires InOrder(trades) && (trades != [] ==> trades[|trades| - 1].exit <= trade.entry)
    ensures InOrder(trades + [trade])
  {
  }

  /** The stretch that ends at bar `n` is the one new trade. */
  lemma OnlyNewTrade(close: seq<real>, signals: seq<int>, n: nat, s: Scan, trade: Trade, t: Trade)
    requires |close| == |signals| && n < |signals|
    requires OpenSince(close, signals, n, s) && s.position != 0 && signals[n] != s.position
    requires trade == Trade(s.entry, n, s.entryPrice, close[n], s.position, Profit(s.entryPrice, close[n], s.position))
    ensures IsTrade(close, signals, n + 1, t) <==> IsTrade(close, signals, n, t) || t == trade
  {
    if IsTrade(close, signals, n + 1, t) && t.exit == n {
      assert signals[n - 1] == t.position;
      StretchesMeet(signals, t.entry, s.entry, n, s.position);
    }
  }

  lemma NewTrade(close: seq<real>, signals: seq<int>, n: nat, s: Scan, trade: Trade)
    requires |close| == |signals| && n < |signals| && AllTrades(close, signals, n, s.trades)
    requires OpenSince(close, signals, n, s) && s.position != 0 && signals[n] != s.position
    requires s.trades != [] ==> s.trades[|s.trades| - 1].exit <= s.entry
    requires trade == Trade(s.entry, n, s.entryPrice, close[n], s.position, Profit(s.entryPrice, close[n], s.position))
    ensures AllTrades(close, signals, n + 1, s.trades + [trade])
  {
    AppendKeepsOrder(s.trades, trade);
    forall t
      ensures Listed(s.trades + [trade], t) <==> IsTrade(close, signals, n + 1, t)
    {
      OnlyNewTrade(close, signals, n, s, trade, t);
      AppendLists(s.trades, trade, t);
    }
  }

  /** The loop state after `n` bars. */
  ghost predicate ScanIsRight(close: seq<real>, signals: seq<int>, n: nat, s: Scan)
    requires |close| == |signals| && n <= |signals|
  {
    && AllTrades(close, signals, n, s.trades) && OpenSince(close, signals, n, s)
    && (s.trades != [] && s.position != 0 ==> s.trades[|s.trades| - 1].exit <= s.entry)
  }

  lemma LastTradeIsOver(close: seq<real>, signals: seq<int>, n: nat, s: Scan)
    requires |close| == |signals| && n <= |signals| && AllTrades(close, signals, n, s.trades)
    ensures s.trades != [] ==> s.trades[|s.trades| - 1].exit < n
  {
    if s.trades != [] {
      assert Listed(s.trades, s.trades[|s.trades| - 1]);
    }
  }

  lemma StepOpens(close: seq<real>, signals: seq<int>, n: nat, s: Scan)
    requires |close| == |signals| && n < |signals| && OpenSince(close, signals, n, s)
    ensures OpenSince(close, signals, n + 1, Step(s, n, close[n], signals[n]))
  {
  }

  lemma StepKeepsRight(close: seq<real>, signals: seq<int>, n: nat, s: Scan)
    requires |close| == |signals| && n < |signals| && ScanIsRight(close, signals, n, s)
    ensures ScanIsRight(close, signals, n + 1, Step(s, n, close[n], signals[n]))
  {
    StepOpens(close, signals, n, s);
    LastTradeIsOver(close, signals, n, s);
    if s.position != 0 && signals[n] != s.position {
      NewTrade(close, signals, n, s,
               Trade(s.entry, n, s.entryPrice, close[n], s.position, Profit(s.entryPrice, close[n], s.position)));
    } else {
      NoNewTrade(close, signals, n, s.trades);
    }
  }

  lemma {:induction false} ScanFindsTrades(close: seq<real>, signals: seq<int>, n: nat, s: Scan)
    requires |close| == |signals| && n <= |signals| && s == ScanTo(close, signals, n)
    ensures ScanIsRight(close, signals, n, s)
    decreases n
  {
    if n > 0 {
      var before := ScanTo(close, signals, n - 1);
      ScanFindsTrades(close, signals, n - 1, before);
      StepKeepsRight(close, signals, n - 1, before);
    }
  }

  /** The trades extracted are exactly the stretches of equal signals, flat ones aside, that are over at
      some bar, in order, each entered and left at the closes of its first bar and of the bar after it. */
  lemma TradesAreStretches(close: seq<real>, signals: seq<int>)
    requires |close| == |signals|
    ensures AllTrades(close, signals, |signals|, Trades(close, signals))
  {
    ScanFindsTrades(close, signals, |signals|, ScanTo(close, signals, |signals|));
  }

  // ----- Profit and loss telescopes -----

  function TotalPnl(trades: seq<Trade>): real {
    if trades == [] then 0.0 else TotalPnl(trades[..|trades| - 1]) + trades[|trades| - 1].pnl
  }

  /** What the position still open is worth over its entry, at the last of the first `n` bars. */
  function OpenMark(close: seq<real>, signals: seq<int>, n: nat): real
    requires |close| == |signals| && 0 < n <= |signals|
  {
    var s := ScanTo(close, signals, n);
    Profit(s.entryPrice, close[n - 1], s.position)
  }

  /** What one bar earns with `position` held over it. */
  function Gain(position: int, last: real, now: real): real {
    position as real * (now - last)
  }

  /** The engine's profit: each bar earns the previous bar's signal times its price change. */
  function DelayedPnl(close: seq<real>, signals: seq<int>, n: nat): real
    requires |close| == |signals| && n <= |signals|
  {
    if n <= 1 then 0.0
    else DelayedPnl(close, signals, n - 1) + Gain(signals[n - 2], close[n - 2], close[n - 1])
  }

  lemma {:induction false} ScanHoldsSignal(close: seq<real>, signals: seq<int>, n: nat)
    requires |close| == |signals| && 0 < n <= |signals|
    ensures ScanTo(close, signals, n).position == signals[n - 1]
  {
  }

  lemma TotalPnlAppend(trades: seq<Trade>, t: Trade)
    ensures TotalPnl(trades + [t]) == TotalPnl(trades) + t.pnl
  {
  }

  /** Closed profit plus the mark at `price` is `total`. */
  predicate Balanced(s: Scan, price: real, total: real) {
    TotalPnl(s.trades) + Profit(s.entryPrice, price, s.position) == total
  }

  lemma Telescope(entry: real, last: real, now: real, position: int)
    ensures Profit(entry, now, position) == Profit(entry, last, position) + Gain(position, last, now)
    ensures Profit(now, now, position) == 0.0 && Profit(entry, now, 0) == 0.0
  {
  }

  lemma StepKeepsBalance(s: Scan, i: nat, last: real, now: real, signal: int, total: real)
    requires Balanced(s, last, total)
    ensures Balanced(Step(s, i, now, signal), now, total + Gain(s.position, last, now))
  {
    var pnl := Profit(s.entryPrice, now, s.position);
    Telescope(s.entryPrice, last, now, s.position);
    Telescope(s.entryPrice, last, now, signal);
    TotalPnlAppend(s.trades, Trade(s.entry, i, s.entryPrice, now, s.position, pnl));
  }

  lemma FirstBarBalances(close: real, signal: int)
    ensures Balanced(Step(Scan([], 0, 0, 0.0), 0, close, signal), close, 0.0)
  {
  }

  lemma {:induction false} ScanBalances(close: seq<real>, signals: seq<int>, n: nat)
    requires |close| == |signals| && 0 < n <= |signals|
    ensures Balanced(ScanTo(close, signals, n), close[n - 1], DelayedPnl(close, signals, n))
  {
    if n == 1 {
      FirstBarBalances(close[0], signals[0]);
      assert ScanTo(close, signals, 0) == Scan([], 0, 0, 0.0);
    } else {
      ScanBalances(close, signals, n - 1);
      ScanHoldsSignal(close, signals, n - 1);
      var before, earned := ScanTo(close, signals, n - 1), DelayedPnl(close, signals, n - 1);
      StepKeepsBalance(before, n - 1, close[n - 2], close[n - 1], signals[n - 1], earned);
      assert earned + Gain(before.position, close[n - 2], close[n - 1]) == DelayedPnl(close, signals, n);
    }
  }

  /** The profits of the extracted trades plus the mark of the position still open add up to the
      engine's bar-by-bar profit, for every price and every signal series. */
  lemma TradesExplainPnl(close: seq<real>, signals: seq<int>)
    requires |close| == |signals| > 0
    ensures TotalPnl(Trades(close, signals)) + OpenMark(close, signals, |signals|)
         == DelayedPnl(close, signals, |signals|)
  {
    ScanBalances(close, signals, |signals|);
  }

  // ----- Crossovers and closed trades -----

  predicate Crosses(diff: int) {
    diff == 1 || diff == 2 || diff == -1 || diff == -2
  }

  /** `count_crossovers`: the golden and death crosses among the first `n` signals. */
  function Crossovers(signals: seq<int>, n: nat): nat
    requires n <= |signals|
  {
    if n <= 1 then 0 else Crossovers(signals, n - 1) + if Crosses(signals[n - 1] - signals[n - 2]) then 1 else 0
  }

  /** Changes straight from long to short or back. */
  function Flips(signals: seq<int>, n: nat): nat
    requires n <= |signals|
  {
    if n <= 1 then 0
    else Flips(signals, n - 1)
         + if signals[n - 1] != signals[n - 2] && signals[n - 1] != 0 && signals[n - 2] != 0 then 1 else 0
  }

  function One(b: bool): nat {
    if b then 1 else 0
  }

  predicate UnitSignals(signals: seq<int>) {
    forall i | 0 <= i < |signals| :: -1 <= signals[i] <= 1
  }

  lemma {:induction false} CrossoversCountTradesTo(close: seq<real>, signals: seq<int>, n: nat)
    requires |close| == |signals| && 0 < n <= |signals| && UnitSignals(signals)
    ensures Crossovers(signals, n) + Flips(signals, n) + One(signals[0] != 0)
         == 2 * |ScanTo(close, signals, n).trades| + One(signals[n - 1] != 0)
  {
    if n == 1 {
      assert ScanTo(close, signals, 1) == Step(Scan([], 0, 0, 0.0), 0, close[0], signals[0]);
    } else {
      CrossoversCountTradesTo(close, signals, n - 1);
      ScanHoldsSignal(close, signals, n - 1);
    }
  }

  /** For every series of -1, 0 and 1: crossovers plus flips plus one if it starts in a position
      are twice the closed trades plus one if a position is still open. */
  lemma CrossoversCountTrades(close: seq<real>, signals: seq<int>)
    requires |close| == |signals| > 0 && UnitSignals(signals)
    ensures Crossovers(signals, |signals|) + Flips(signals, |signals|) + One(signals[0] != 0)
         == 2 * |Trades(close, signals)| + One(signals[|signals| - 1] != 0)
  {
    CrossoversCountTradesTo(close, signals, |signals|);
  }

  lemma {:induction false} LongOnlyNeverFlips(signals: seq<int>, n: nat)
    requires n <= |signals| && forall i | 0 <= i < |signals| :: 0 <= signals[i] <= 1
    ensures Flips(signals, n) == 0
  {
    if n > 1 {
      LongOnlyNeverFlips(signals, n - 1);
    }
  }

  /** A long-only series has as many crossovers as twice its closed trades plus one if still open,
      exactly when it starts flat. */
  lemma LongOnlyCrossoversIffStartsFlat(close: seq<real>, signals: seq<int>)
    requires |close| == |signals| > 0 && forall i | 0 <= i < |signals| :: 0 <= signals[i] <= 1
    ensures Crossovers(signals, |signals|) == 2 * |Trades(close, signals)| + One(signals[|signals| - 1] != 0)
       <==> signals[0] == 0
  {
    CrossoversCountTrades(close, signals);
    LongOnlyNeverFlips(signals, |signals|);
  }
}
