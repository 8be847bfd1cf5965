/** What one event leaves in every row of the paper books, for each signal and each state of the market. */
module PaperLedgerOutcomes {
  import opened Prelude
  import opened PaperLedger
  import opened PaperLedgerTheorems

  // ----- Reading -----

  /** The first database that has orders, rows or a position is the one read, each for itself. */
  lemma {:induction false} FirstFilledIsRead(stores: seq<Books>, i: nat)
    requires i < |stores|
    ensures stores[i].orders != [] && (forall j | 0 <= j < i :: stores[j].orders == []) ==>
              OrdersOf(stores) == stores[i].orders
    ensures stores[i].nav != [] && (forall j | 0 <= j < i :: stores[j].nav == []) ==> NavOf(stores) == stores[i].nav
    ensures stores[i].position.Some? && (forall j | 0 <= j < i :: stores[j].position.None?) ==>
              PositionOf(stores) == stores[i].position
  {
    if i > 0 {
      FirstFilledIsRead(stores[1..], i - 1);
      assert forall j | 0 < j < i :: stores[j] == stores[1..][j - 1];
      assert stores[1..][i - 1] == stores[i];
    }
  }

  lemma {:induction false} NothingToRead(stores: seq<Books>)
    ensures (forall j | 0 <= j < |stores| :: stores[j].orders == []) ==> OrdersOf(stores) == []
    ensures (forall j | 0 <= j < |stores| :: stores[j].nav == []) ==> NavOf(stores) == []
    ensures (forall j | 0 <= j < |stores| :: stores[j].position.None?) ==> PositionOf(stores) == None
  {
    if stores != [] {
      NothingToRead(stores[1..]);
      assert forall j | 0 < j < |stores| :: stores[j] == stores[1..][j - 1];
    }
  }

  /** The latest row is that of the greatest day, of those the one written last. */
  lemma {:induction false} LatestRowIs(nav: seq<NavRow>, k: nat)
    requires k < |nav|
    requires forall j | 0 <= j < |nav| :: nav[j].day <= nav[k].day
    requires forall j | k < j < |nav| :: nav[j].day < nav[k].day
    ensures LatestNav(nav) == Some(nav[k])
  {
    var n := |nav| - 1;
    if k < n {
      LatestRowIs(nav[..n], k);
    } else if n > 0 {
      LatestRowExists(nav[..n]);
    }
  }

  lemma {:induction false} LatestRowExists(nav: seq<NavRow>)
    requires nav != []
    ensures LatestNav(nav).Some? && exists j | 0 <= j < |nav| :: nav[j] == LatestNav(nav).value
  {
    var n := |nav| - 1;
    if n > 0 {
      LatestRowExists(nav[..n]);
      if LatestNav(nav) != Some(nav[n]) {
        var j :| 0 <= j < n && nav[..n][j] == LatestNav(nav[..n]).value;
        assert nav[j] == LatestNav(nav).value;
      }
    } else {
      assert nav[0] == LatestNav(nav).value;
    }
  }

  // ----- The snapshot -----

  /** The first call writes the opening row to every database and nothing else; later calls write
      nothing. */
  lemma SnapshotWrites(l: Ledger, a: Account, now: Time)
    ensures var l' := Snapshot(l, a, now);
            && l'.snapshotTaken && l'.lastExecution == l.lastExecution && l'.mark == l.mark
            && |l'.stores| == |l.stores|
            && forall i | 0 <= i < |l.stores| ::
                 && l'.stores[i].orders == l.stores[i].orders && l'.stores[i].position == l.stores[i].position
                 && l'.stores[i].nav ==
                      if l.snapshotTaken then l.stores[i].nav
                      else l.stores[i].nav + [NavRow(Day(now), a.capital, 0, a.capital)]
  {
  }

  // ----- A cycle with an open market -----

  /** What the first database holds. */
  function Held(l: Ledger): int
    requires |l.stores| >= 1
  {
    match l.stores[0].position
    case Some(p) => p.quantity
    case None => 0
  }

  /** Cash and equity of the last row; a zero stands for the initial capital. */
  function CashHeld(l: Ledger, a: Account): int
    requires |l.stores| >= 1 && l.stores[0].nav != []
  {
    if LastNav(l).cash == 0 then a.capital else LastNav(l).cash
  }

  function EquityHeld(l: Ledger, a: Account): int
    requires |l.stores| >= 1 && l.stores[0].nav != []
  {
    if LastNav(l).totalEquity == 0 then a.capital else LastNav(l).totalEquity
  }

  /** A cycle whose market is open, at this price. */
  predicate Trades(c: Cycle, price: int) {
    c.marketOpen && c.price == Some(price)
  }

  /** Every database is left with `target` shares worth `price` each, the order that took it there from
      `held`, if they differ, and a closing row, unless it repeats the last one. */
  ghost predicate Rebalances(l: Ledger, l': Ledger, a: Account, held: int, target: int, price: int, now: Time)
    requires |l.stores| >= 1 && l.stores[0].nav != []
  {
    && Mirrored(l') && l'.snapshotTaken && |l'.stores| == |l.stores|
    && var b, b', cash := l.stores[0], l'.stores[0], CashHeld(l, a);
    && b'.position == (if target > 0 then Some(Position(target, target * price, now)) else None)
    && b'.orders == (if target > held then
                       b.orders + [Order(Buy, target - held, price, (target - held) * price, now)]
                     else if target < held then
                       b.orders + [Order(Sell, held - target, price, (held - target) * price, now)]
                     else b.orders)
    && b'.nav != []
    && var row := LastNav(l');
    && row.day == Day(now)
    && row.cash == (if target <= held then cash + (held - target) * price
                    else if cash > (target - held) * price then cash - (target - held) * price
                    else 0)
    && row.positionValue == target * price && row.totalEquity == row.cash + row.positionValue
    && b'.nav == (if LastNav(l) == row then b.nav else b.nav + [row])
    && l'.mark == price && l'.lastExecution == Some(Execution(price, row.totalEquity))
  }

  /** The readers see the first database. */
  lemma ReadsAreHeld(l: Ledger, a: Account, before: Time)
    requires WellKept(l, before)
    ensures CashRead(l, a) == CashHeld(l, a) && EquityRead(l, a) == EquityHeld(l, a) && Quantity(l) == Held(l)
    ensures OrdersOf(l.stores) == l.stores[0].orders
  {
    ReadsFirstStore(l, before);
  }

  lemma NavAppended(nav: seq<NavRow>, row: NavRow)
    requires nav != [] && SortedDays(nav) && nav[|nav| - 1].day <= row.day
    ensures var nav' := AppendNav(nav, row);
            nav' == (if nav[|nav| - 1] == row then nav else nav + [row]) && nav'[|nav'| - 1] == row
  {
    LatestIsLast(nav);
  }

  lemma TradeRebalances(l: Ledger, a: Account, c: Cycle, price: int, before: Time)
    requires WellKept(l, before) && before <= c.now && Trades(c, price)
    ensures Rebalances(l, AfterCycle(l, a, c), a, Held(l), GuardedTarget(l, a, c, price), price, c.now)
  {
    ReadsAreHeld(l, a, before);
    var target := GuardedTarget(l, a, c, price);
    var cash := CashAfter(CashHeld(l, a), Held(l), target, price);
    NavAppended(l.stores[0].nav, NavRow(Day(c.now), cash, target * price, cash + target * price));
    assert AfterCycle(l, a, c) == Trade(l, a, c, price);
  }

  /** The latest purchase among the newest 200 orders is less than the holding period old. */
  predicate HeldBack(l: Ledger, a: Account, now: Time)
    requires |l.stores| >= 1
  {
    && a.minHoldingDays > 0
    && exists i | 0 <= i < |l.stores[0].orders| && |l.stores[0].orders| - 200 <= i ::
         LatestPurchaseIsRecent(l.stores[0].orders, i, now, a.minHoldingDays)
  }

  predicate LatestPurchaseIsRecent(orders: seq<Order>, i: nat, now: Time, days: int)
    requires i < |orders|
  {
    && orders[i].side == Buy && (forall j | i < j < |orders| :: orders[j].side == Sell)
    && Day(now) - Day(orders[i].at) < days
  }

  lemma GuardHoldsBack(l: Ledger, a: Account, c: Cycle, price: int, before: Time)
    requires WellKept(l, before) && before <= c.now && Trades(c, price)
    ensures var target := TargetQuantity(c.signal, price, EquityHeld(l, a), Held(l), a.sizing);
            GuardedTarget(l, a, c, price) == if target < Held(l) && HeldBack(l, a, c.now) then Held(l) else target
  {
    ReadsAreHeld(l, a, before);
    var orders, buy := l.stores[0].orders, LatestBuy(l.stores[0].orders, ORDERS_SEARCHED);
    if buy.Some? {
      assert LatestPurchaseIsRecent(orders, buy.value, c.now, a.minHoldingDays)
        <==> Day(c.now) - Day(orders[buy.value].at) < a.minHoldingDays;
    }
    if HeldBack(l, a, c.now) {
      var i :| 0 <= i < |orders| && |orders| - 200 <= i && LatestPurchaseIsRecent(orders, i, c.now, a.minHoldingDays);
      assert buy == Some(i);
    }
  }

  /** SELL leaves no share and sells the whole position in one order, unless the holding period holds it
      back; then everything stays. A price of zero or less counts as SELL. */
  lemma SellSellsEverything(l: Ledger, a: Account, c: Cycle, price: int, before: Time)
    requires WellKept(l, before) && before <= c.now && Trades(c, price)
    requires c.signal == SELL || price <= 0
    ensures Rebalances(l, AfterCycle(l, a, c), a, Held(l), if HeldBack(l, a, c.now) then Held(l) else 0, price, c.now)
  {
    TradeRebalances(l, a, c, price, before);
    GuardHoldsBack(l, a, c, price, before);
  }

  /** ... so with every purchase past the holding period, SELL leaves nothing to read. */
  lemma SellLeavesNothing(l: Ledger, a: Account, c: Cycle, price: int, before: Time)
    requires WellKept(l, before) && before <= c.now && Trades(c, price) && c.signal == SELL
    requires forall i | 0 <= i < |l.stores[0].orders| && l.stores[0].orders[i].side == Buy ::
               Day(c.now) - Day(l.stores[0].orders[i].at) >= a.minHoldingDays
    ensures var l' := AfterCycle(l, a, c);
            && Quantity(l') == 0
            && l'.stores[0].orders == l.stores[0].orders +
                 if Held(l) == 0 then [] else [Order(Sell, Held(l), price, Held(l) * price, c.now)]
  {
    SellSellsEverything(l, a, c, price, before);
    var l' := AfterCycle(l, a, c);
    EmptyEverywhere(l'.stores, l'.stores[0]);
  }

  /** HOLD orders nothing. */
  lemma HoldOrdersNothing(l: Ledger, a: Account, c: Cycle, price: int, before: Time)
    requires WellKept(l, before) && before <= c.now && Trades(c, price) && price > 0
    requires c.signal == HOLD
    ensures Rebalances(l, AfterCycle(l, a, c), a, Held(l), Held(l), price, c.now)
    ensures AfterCycle(l, a, c).stores[0].orders == l.stores[0].orders
  {
    TradeRebalances(l, a, c, price, before);
    GuardHoldsBack(l, a, c, price, before);
  }

  /** `quantity` is one lot, or the most whole lots that cost at most a fraction of the equity: the
      sizing, in 1/10000, held between 5 and 50 percent. */
  predicate MostLots(quantity: int, equity: int, sizing: int, price: int) {
    var fraction := if sizing < 500 then 500 else if sizing > 5000 then 5000 else sizing;
    var budget := (if equity < 0 then 0 else equity) * fraction;
    && quantity >= 100 && quantity % 100 == 0
    && (quantity == 100 || quantity * (10_000 * price) <= budget)
    && budget < (quantity + 100) * (10_000 * price)
  }

  lemma WholeLots(budget: int, unit: int, quantity: int)
    requires budget >= 0 && unit > 0
    requires quantity == Max(100, ((budget / unit) / 100) * 100)
    ensures quantity >= 100 && quantity % 100 == 0
    ensures (quantity == 100 || quantity * unit <= budget) && budget < (quantity + 100) * unit
  {
    var n := budget / unit;
    assert n * unit <= budget < (n + 1) * unit;
    MulMonotone(n + 1, quantity + 100, unit);
    if quantity != 100 {
      MulMonotone(quantity, n, unit);
    }
  }

  lemma LotsAreMost(equity: int, sizing: int, price: int)
    requires price > 0
    ensures MostLots(LotsFor(equity, sizing, price), equity, sizing, price)
  {
    var fraction := Max(500, Min(5000, sizing));
    ProductNotNegative(Max(0, equity), fraction);
    WholeLots(Max(0, equity) * fraction, 10_000 * price, LotsFor(equity, sizing, price));
  }

  /** BUY takes the position to those lots, with one purchase or one sale; only a sale can be held back. */
  lemma BuyTakesMostLots(l: Ledger, a: Account, c: Cycle, price: int, before: Time) returns (lots: int)
    requires WellKept(l, before) && before <= c.now && Trades(c, price) && price > 0
    requires c.signal == BUY
    ensures MostLots(lots, EquityHeld(l, a), a.sizing, price)
    ensures Rebalances(l, AfterCycle(l, a, c), a, Held(l),
                       if lots < Held(l) && HeldBack(l, a, c.now) then Held(l) else lots, price, c.now)
  {
    TradeRebalances(l, a, c, price, before);
    GuardHoldsBack(l, a, c, price, before);
    lots := LotsFor(EquityHeld(l, a), a.sizing, price);
    LotsAreMost(EquityHeld(l, a), a.sizing, price);
  }

  // ----- The other events -----

  /** Without a price a cycle writes nothing to the books. */
  lemma NoPriceWritesNothing(l: Ledger, a: Account, c: Cycle)
    requires l.snapshotTaken && c.price.None?
    ensures AfterCycle(l, a, c) == l.(lastExecution := None)
  {
  }

  /** With the market closed no order and no position changes. A row at the new price is written unless
      the equity is the one last recorded on the same day, or the row repeats the last one. */
  lemma ClosedMarketOnlyMarks(l: Ledger, a: Account, c: Cycle, price: int, before: Time)
    requires WellKept(l, before) && before <= c.now && !c.marketOpen && c.price == Some(price)
    ensures var l', b := AfterCycle(l, a, c), l.stores[0];
            var value := Held(l) * price;
            var total := CashHeld(l, a) + value;
            var recorded := if l.lastExecution.Some? then l.lastExecution.value.totalEquity else EquityHeld(l, a);
            var row := NavRow(Day(c.now), CashHeld(l, a), value, total);
            && Mirrored(l') && |l'.stores| == |l.stores| && l'.snapshotTaken
            && l'.stores[0].orders == b.orders && l'.stores[0].position == b.position
            && l'.stores[0].nav == (if (recorded == total && LastNav(l).day == Day(c.now)) || LastNav(l) == row
                                    then b.nav else b.nav + [row])
            && l'.lastExecution == Some(Execution(price, total)) && l'.mark == price
  {
    ReadsAreHeld(l, a, before);
    LatestIsLast(l.stores[0].nav);
    ReadsFirstStore(l, before);
    NavAppended(l.stores[0].nav, NavRow(Day(c.now), CashHeld(l, a), Held(l) * price, CashHeld(l, a) + Held(l) * price));
    assert AfterCycle(l, a, c) == Mark(l, a, c, price);
  }

  /** The bootstrap trade buys the lots of the initial capital, whatever the books hold. */
  lemma BootstrapBuysMostLots(l: Ledger, a: Account, now: Time, price: int, before: Time) returns (lots: int)
    requires WellKept(l, before) && before <= now && price > 0
    ensures MostLots(lots, a.capital, a.sizing, price)
    ensures var l', b := AfterBootstrap(l, a, now, price), l.stores[0];
            var cash := if a.capital > lots * price then a.capital - lots * price else 0;
            var row := NavRow(Day(now), cash, lots * price, cash + lots * price);
            && Mirrored(l') && |l'.stores| == |l.stores|
            && l'.snapshotTaken && l'.lastExecution == l.lastExecution && l'.mark == price
            && l'.stores[0].orders == b.orders + [Order(Buy, lots, price, lots * price, now)]
            && l'.stores[0].position == Some(Position(lots, lots * price, now))
            && l'.stores[0].nav == (if LastNav(l) == row then b.nav else b.nav + [row])
  {
    lots := LotsFor(a.capital, a.sizing, price);
    LotsAreMost(a.capital, a.sizing, price);
    LatestIsLast(l.stores[0].nav);
  }
}
