/** What the paper books of a slot guarantee over whole runs of cycles. */
module PaperLedgerTheorems {
  import opened Prelude
  import opened PaperLedger

  // ==================== Replaying the order table ====================

  /** Cash left after the orders, starting from the initial capital. */
  function ReplayedCash(orders: seq<Order>, capital: int): int {
    if orders == [] then capital
    else
      var last := orders[|orders| - 1];
      ReplayedCash(orders[..|orders| - 1], capital) + if last.side == Buy then -last.amount else last.amount
  }

  /** Shares held after the orders. */
  function ReplayedQuantity(orders: seq<Order>): int {
    if orders == [] then 0
    else
      var last := orders[|orders| - 1];
      ReplayedQuantity(orders[..|orders| - 1]) + if last.side == Buy then last.quantity else -last.quantity
  }

  lemma ReplayAppend(orders: seq<Order>, o: Order, capital: int)
    ensures ReplayedCash(orders + [o], capital)
         == ReplayedCash(orders, capital) + if o.side == Buy then -o.amount else o.amount
    ensures ReplayedQuantity(orders + [o])
         == ReplayedQuantity(orders) + if o.side == Buy then o.quantity else -o.quantity
  {
  }

  // ==================== The invariant of the books ====================

  predicate SortedDays(nav: seq<NavRow>) {
    forall i, j | 0 <= i < j < |nav| :: nav[i].day <= nav[j].day
  }

  /** All databases hold the same rows. */
  predicate Mirrored(l: Ledger) {
    |l.stores| >= 1 && forall i | 0 <= i < |l.stores| :: l.stores[i] == l.stores[0]
  }

  /** The rows are in order of time and a snapshot opens them. */
  predicate Ordered(l: Ledger, now: Time)
    requires |l.stores| >= 1
  {
    && l.snapshotTaken
    && l.stores[0].nav != [] && SortedDays(l.stores[0].nav)
    && l.stores[0].nav[|l.stores[0].nav| - 1].day <= Day(now)
    && (l.stores[0].position.Some? ==> l.stores[0].position.value.quantity > 0)
  }

  function LastNav(l: Ledger): NavRow
    requires |l.stores| >= 1 && l.stores[0].nav != []
  {
    l.stores[0].nav[|l.stores[0].nav| - 1]
  }

  predicate WellKept(l: Ledger, now: Time) {
    Mirrored(l) && Ordered(l, now)
  }

  /** The books are true: replaying the orders gives exactly the stored cash and quantity, the stored
      cash is positive, so that it reads back as stored, equity is cash plus quantity times the last
      price, and the quantity is a whole number of lots. */
  predicate TrueBooks(l: Ledger, a: Account) {
    && |l.stores| >= 1 && l.stores[0].nav != []
    && var b, nav := l.stores[0], LastNav(l);
    && nav.cash == ReplayedCash(b.orders, a.capital) && nav.cash > 0
    && Quantity(l) == ReplayedQuantity(b.orders)
    && Quantity(l) >= 0 && Quantity(l) % LOT == 0
    && nav.positionValue == Quantity(l) * l.mark
    && nav.totalEquity == nav.cash + nav.positionValue
    && l.mark >= 0
    && (l.lastExecution.Some? ==> l.lastExecution.value.totalEquity == nav.totalEquity)
  }

  lemma {:induction false} LatestIsLast(nav: seq<NavRow>)
    requires nav != [] && SortedDays(nav)
    ensures LatestNav(nav) == Some(nav[|nav| - 1])
  {
    if |nav| > 1 {
      LatestIsLast(nav[..|nav| - 1]);
    }
  }

  /** What the readers see when the databases agree. */
  lemma ReadsFirstStore(l: Ledger, now: Time)
    requires WellKept(l, now)
    ensures NavOf(l.stores) == l.stores[0].nav && LatestNav(NavOf(l.stores)) == Some(LastNav(l))
    ensures OrdersOf(l.stores) == l.stores[0].orders
    ensures PositionOf(l.stores) == l.stores[0].position
  {
    LatestIsLast(l.stores[0].nav);
    EmptyEverywhere(l.stores, l.stores[0]);
  }

  lemma {:induction false} EmptyEverywhere(stores: seq<Books>, b: Books)
    requires forall i | 0 <= i < |stores| :: stores[i] == b
    ensures b.orders == [] ==> OrdersOf(stores) == []
    ensures b.position == None ==> PositionOf(stores) == None
  {
    if stores != [] {
      EmptyEverywhere(stores[1..], b);
    }
  }

  lemma AppendNavIsLast(nav: seq<NavRow>, row: NavRow)
    requires nav != [] && SortedDays(nav) && nav[|nav| - 1].day <= row.day
    ensures var n := AppendNav(nav, row);
            n != [] && SortedDays(n) && n[|n| - 1] == row
  {
    LatestIsLast(nav);
  }

  // ==================== Every cycle keeps the databases equal ====================

  lemma SnapshotOpensBooks(databases: nat, a: Account, now: Time)
    requires databases >= 1 && a.capital > 0
    ensures var l := Snapshot(Empty(databases), a, now);
            WellKept(l, now) && TrueBooks(l, a)
  {
    var l := Snapshot(Empty(databases), a, now);
    assert l.stores[0] == Books([], None, [InitialRow(a, now)]);
    assert forall i | 0 <= i < |l.stores| :: l.stores[i] == Books([], None, [InitialRow(a, now)]);
    EmptyEverywhere(l.stores, l.stores[0]);
  }

  lemma TradeKeepsBooksOrdered(l: Ledger, a: Account, c: Cycle, price: int, before: Time)
    requires WellKept(l, before) && before <= c.now
    ensures WellKept(Trade(l, a, c, price), c.now)
  {
    var target := GuardedTarget(l, a, c, price);
    var cash := CashAfter(CashRead(l, a), Quantity(l), target, price);
    AppendNavIsLast(l.stores[0].nav, NavRow(Day(c.now), cash, target * price, cash + target * price));
  }

  /** Appending one row to every database. */
  lemma NavKeepsBooksOrdered(l: Ledger, l': Ledger, row: NavRow, before: Time, now: Time)
    requires WellKept(l, before) && before <= now && row.day == Day(now)
    requires l'.stores == WithNav(l.stores, row) && l'.snapshotTaken
    ensures WellKept(l', now) && LastNav(l') == row
    ensures l'.stores[0] == l.stores[0].(nav := AppendNav(l.stores[0].nav, row))
  {
    AppendNavIsLast(l.stores[0].nav, row);
  }

  lemma MarkKeepsBooksOrdered(l: Ledger, a: Account, c: Cycle, price: int, before: Time)
    requires WellKept(l, before) && before <= c.now
    ensures WellKept(Mark(l, a, c, price), c.now)
  {
    var cash, value, l' := CashRead(l, a), Quantity(l) * price, Mark(l, a, c, price);
    if l'.stores != l.stores {
      NavKeepsBooksOrdered(l, l', NavRow(Day(c.now), cash, value, cash + value), before, c.now);
    }
  }

  lemma CycleKeepsBooksOrdered(l: Ledger, a: Account, c: Cycle, before: Time)
    requires WellKept(l, before) && before <= c.now
    ensures WellKept(AfterCycle(l, a, c), c.now)
  {
    if c.price.Some? {
      TradeKeepsBooksOrdered(l, a, c, c.price.value, before);
      MarkKeepsBooksOrdered(l, a, c, c.price.value, before);
    }
  }

  // ==================== When the books stay true ====================

  /** The cycle buys nothing it cannot pay for with cash to spare. */
  predicate Funded(l: Ledger, a: Account, c: Cycle) {
    c.marketOpen && c.price.Some? ==>
      var held, target := Quantity(l), GuardedTarget(l, a, c, c.price.value);
      target > held ==> (target - held) * c.price.value < CashRead(l, a)
  }

  lemma TargetIsLots(l: Ledger, a: Account, c: Cycle, price: int)
    requires price > 0 && Quantity(l) >= 0 && Quantity(l) % LOT == 0
    ensures GuardedTarget(l, a, c, price) >= 0 && GuardedTarget(l, a, c, price) % LOT == 0
  {
    LotsAreWhole(EquityRead(l, a), a.sizing, price);
  }

  /** What a trade does to the first database. */
  lemma TradeEffect(l: Ledger, a: Account, c: Cycle, price: int, before: Time)
    requires WellKept(l, before) && before <= c.now && price > 0
    ensures var held, target := Quantity(l), GuardedTarget(l, a, c, price);
            var cash := CashAfter(CashRead(l, a), held, target, price);
            var l' := Trade(l, a, c, price);
            && |l'.stores| == |l.stores|
            && l'.stores[0] == Rebalanced(l.stores[0], held, target, price, cash, c.now)
            && l'.stores[0].nav != []
            && LastNav(l') == NavRow(Day(c.now), cash, target * price, cash + target * price)
            && (target >= 0 ==> Quantity(l') == target)
  {
    ReadsFirstStore(l, before);
    var held, target := Quantity(l), GuardedTarget(l, a, c, price);
    var cash := CashAfter(CashRead(l, a), held, target, price);
    var l' := Trade(l, a, c, price);
    AppendNavIsLast(l.stores[0].nav, NavRow(Day(c.now), cash, target * price, cash + target * price));
    EmptyEverywhere(l'.stores, l'.stores[0]);
  }

  /** The orders explain the cash and the quantity held. */
  predicate Explain(orders: seq<Order>, cash: int, quantity: int, capital: int) {
    cash == ReplayedCash(orders, capital) && cash > 0 && quantity == ReplayedQuantity(orders)
  }

  /** With one more order they still do exactly when it is no purchase for all the cash or more. */
  lemma OrderExplainsCash(orders: seq<Order>, o: Order, cash: int, cash': int, held: int, target: int, capital: int)
    requires Explain(orders, cash, held, capital) && o.amount > 0
    requires cash' == if o.side == Buy then Max(0, cash - o.amount) else cash + o.amount
    requires target == if o.side == Buy then held + o.quantity else held - o.quantity
    ensures Explain(orders + [o], cash', target, capital) <==> o.side == Buy ==> o.amount < cash
  {
    ReplayAppend(orders, o, capital);
  }

  lemma ProductIsPositive(x: int, y: int)
    requires x > 0 && y > 0
    ensures x * y > 0
  {
  }

  lemma OrderExplainsPurchase(orders: seq<Order>, held: int, target: int, price: int, at: Time, cash: int, capital: int,
                              amount: int)
    requires Explain(orders, cash, held, capital) && held < target && amount == (target - held) * price && amount > 0
    ensures Explain(OrdersAfter(orders, held, target, price, at), CashAfter(cash, held, target, price), target, capital)
       <==> amount < cash
  {
    OrderExplainsCash(orders, Order(Buy, target - held, price, amount, at), cash, Max(0, cash - amount),
                      held, target, capital);
  }

  lemma OrderExplainsSale(orders: seq<Order>, held: int, target: int, price: int, at: Time, cash: int, capital: int,
                          amount: int)
    requires Explain(orders, cash, held, capital) && target < held && amount == (held - target) * price && amount > 0
    ensures Explain(OrdersAfter(orders, held, target, price, at), CashAfter(cash, held, target, price), target, capital)
  {
    OrderExplainsCash(orders, Order(Sell, held - target, price, amount, at), cash, cash + amount,
                      held, target, capital);
  }

  /** The order just written explains the new cash and quantity exactly when no purchase took all
      the cash or more. */
  lemma OrderExplainsTrade(orders: seq<Order>, held: int, target: int, price: int, at: Time, cash: int, capital: int)
    requires Explain(orders, cash, held, capital) && price > 0
    ensures Explain(OrdersAfter(orders, held, target, price, at), CashAfter(cash, held, target, price), target, capital)
       <==> target > held ==> (target - held) * price < cash
  {
    if target > held {
      ProductIsPositive(target - held, price);
      OrderExplainsPurchase(orders, held, target, price, at, cash, capital, (target - held) * price);
    } else if target < held {
      ProductIsPositive(held - target, price);
      OrderExplainsSale(orders, held, target, price, at, cash, capital, (held - target) * price);
    } else {
      assert (held - target) * price == 0;
    }
  }

  lemma TradeKeepsTrueIffFunded(l: Ledger, a: Account, c: Cycle, price: int, before: Time)
    requires WellKept(l, before) && TrueBooks(l, a) && before <= c.now && price > 0
    requires c.price == Some(price) && c.marketOpen
    ensures TrueBooks(Trade(l, a, c, price), a) <==> Funded(l, a, c)
  {
    ReadsFirstStore(l, before);
    TradeEffect(l, a, c, price, before);
    TargetIsLots(l, a, c, price);
    var held, target := Quantity(l), GuardedTarget(l, a, c, price);
    OrderExplainsTrade(l.stores[0].orders, held, target, price, c.now, CashRead(l, a), a.capital);
  }

  lemma MarkKeepsTrue(l: Ledger, a: Account, c: Cycle, price: int, before: Time)
    requires WellKept(l, before) && TrueBooks(l, a) && before <= c.now && price > 0
    ensures TrueBooks(Mark(l, a, c, price), a)
  {
    ReadsFirstStore(l, before);
    var nav, value, l' := LastNav(l), Quantity(l) * price, Mark(l, a, c, price);
    EquityOfTrueBooks(l, a, before);
    if l'.stores != l.stores {
      NavKeepsBooksOrdered(l, l', NavRow(Day(c.now), nav.cash, value, nav.cash + value), before, c.now);
      ReadsFirstStore(l', c.now);
    }
  }

  /** A cycle keeps the books true if and only if it buys nothing dearer than, or as dear as, the
      cash held. */
  lemma CycleKeepsTrueIffFunded(l: Ledger, a: Account, c: Cycle, before: Time)
    requires WellKept(l, before) && TrueBooks(l, a) && before <= c.now
    requires c.price.Some? ==> c.price.value > 0
    ensures TrueBooks(AfterCycle(l, a, c), a) <==> Funded(l, a, c)
  {
    if c.price.Some? {
      if c.marketOpen {
        TradeKeepsTrueIffFunded(l, a, c, c.price.value, before);
      } else {
        MarkKeepsTrue(l, a, c, c.price.value, before);
      }
    }
  }

  // ==================== Runs ====================

  predicate PositivePrices(cs: seq<Cycle>) {
    forall i | 0 <= i < |cs| :: cs[i].price.Some? ==> cs[i].price.value > 0
  }

  predicate Clocked(cs: seq<Cycle>, start: Time) {
    && (forall i | 0 <= i < |cs| :: start <= cs[i].now)
    && (forall i, j | 0 <= i < j < |cs| :: cs[i].now <= cs[j].now)
  }

  /** The ledger after the first `n` cycles. */
  function After(l: Ledger, a: Account, cs: seq<Cycle>, n: nat): Ledger
    requires n <= |cs|
  {
    if n == 0 then l else AfterCycle(After(l, a, cs, n - 1), a, cs[n - 1])
  }

  function TimeOf(cs: seq<Cycle>, start: Time, n: nat): Time
    requires n <= |cs|
  {
    if n == 0 then start else cs[n - 1].now
  }

  /** Whatever the cycles do, all databases hold the same rows. */
  lemma {:induction false} RunKeepsStoresEqual(l: Ledger, a: Account, cs: seq<Cycle>, start: Time, n: nat)
    requires WellKept(l, start) && Clocked(cs, start) && n <= |cs|
    ensures WellKept(After(l, a, cs, n), TimeOf(cs, start, n))
  {
    if n > 0 {
      RunKeepsStoresEqual(l, a, cs, start, n - 1);
      CycleKeepsBooksOrdered(After(l, a, cs, n - 1), a, cs[n - 1], TimeOf(cs, start, n - 1));
    }
  }

  /** Each of the first `n` cycles was funded. */
  predicate FundedUpTo(l: Ledger, a: Account, cs: seq<Cycle>, n: nat)
    requires n <= |cs|
  {
    n > 0 ==> FundedUpTo(l, a, cs, n - 1) && Funded(After(l, a, cs, n - 1), a, cs[n - 1])
  }

  /** The books were true at the start and after each of the first `n` cycles. */
  predicate TrueUpTo(l: Ledger, a: Account, cs: seq<Cycle>, n: nat)
    requires n <= |cs|
  {
    TrueBooks(After(l, a, cs, n), a) && (n > 0 ==> TrueUpTo(l, a, cs, n - 1))
  }

  lemma StepTrueIffFunded(l: Ledger, a: Account, cs: seq<Cycle>, start: Time, n: nat)
    requires WellKept(l, start) && Clocked(cs, start) && PositivePrices(cs) && 0 < n <= |cs|
    requires TrueBooks(After(l, a, cs, n - 1), a)
    ensures TrueBooks(After(l, a, cs, n), a) <==> Funded(After(l, a, cs, n - 1), a, cs[n - 1])
  {
    RunKeepsStoresEqual(l, a, cs, start, n - 1);
    CycleKeepsTrueIffFunded(After(l, a, cs, n - 1), a, cs[n - 1], TimeOf(cs, start, n - 1));
  }

  lemma {:induction false} RunTrueIffFunded(l: Ledger, a: Account, cs: seq<Cycle>, start: Time, n: nat)
    requires WellKept(l, start) && TrueBooks(l, a) && Clocked(cs, start) && PositivePrices(cs) && n <= |cs|
    ensures TrueUpTo(l, a, cs, n) <==> FundedUpTo(l, a, cs, n)
  {
    if n > 0 {
      RunTrueIffFunded(l, a, cs, start, n - 1);
      if TrueUpTo(l, a, cs, n - 1) {
        StepTrueIffFunded(l, a, cs, start, n);
      }
    }
  }

  /** For a slot opened by its snapshot and any mix of open, closed and priceless cycles: the books
      are true after every cycle if and only if every purchase cost less than the cash held. */
  lemma BooksStayTrueIffFunded(databases: nat, a: Account, begun: Time, cs: seq<Cycle>)
    requires databases >= 1 && a.capital > 0 && Clocked(cs, begun) && PositivePrices(cs)
    ensures var l := Snapshot(Empty(databases), a, begun);
            TrueUpTo(l, a, cs, |cs|) <==> FundedUpTo(l, a, cs, |cs|)
  {
    SnapshotOpensBooks(databases, a, begun);
    RunTrueIffFunded(Snapshot(Empty(databases), a, begun), a, cs, begun, |cs|);
  }

  // ==================== The guard of the failing branch ====================

  lemma EquityOfTrueBooks(l: Ledger, a: Account, before: Time)
    requires WellKept(l, before) && TrueBooks(l, a)
    ensures CashRead(l, a) == LastNav(l).cash > 0
    ensures EquityRead(l, a) == CashRead(l, a) + Quantity(l) * l.mark
    ensures Quantity(l) * l.mark >= 0
  {
    ReadsFirstStore(l, before);
    if Quantity(l) > 0 && l.mark > 0 {
      ProductIsPositive(Quantity(l), l.mark);
    }
  }

  /** A purchase is funded exactly when the lots bought for the equity at the last price, counted
      at the new price, stay below what cash and shares are worth at the new price. */
  lemma PurchaseIsFundedIff(l: Ledger, a: Account, c: Cycle, before: Time)
    requires WellKept(l, before) && TrueBooks(l, a)
    requires c.marketOpen && c.signal == BUY && c.price.Some? && c.price.value > 0
    ensures var held, price, cash := Quantity(l), c.price.value, CashRead(l, a);
            Funded(l, a, c) <==> LotsFor(cash + held * l.mark, a.sizing, price) * price < cash + held * price
  {
    EquityOfTrueBooks(l, a, before);
    var held, price, cash := Quantity(l), c.price.value, CashRead(l, a);
    var lots := LotsFor(cash + held * l.mark, a.sizing, price);
    assert (lots - held) * price == lots * price - held * price;
    if lots <= held {
      MulMonotone(lots, held, price);
    }
  }

  /** With no position a purchase is funded exactly when one lot costs less than the cash. */
  lemma FlatPurchaseIsFundedIffLotAffordable(l: Ledger, a: Account, c: Cycle, before: Time)
    requires WellKept(l, before) && TrueBooks(l, a) && Quantity(l) == 0
    requires c.marketOpen && c.signal == BUY && c.price.Some? && c.price.value > 0
    ensures Funded(l, a, c) <==> LOT * c.price.value < CashRead(l, a)
  {
    PurchaseIsFundedIff(l, a, c, before);
    EquityOfTrueBooks(l, a, before);
    LotsCost(CashRead(l, a), a.sizing, c.price.value);
  }

  lemma LotsStayBelowWorth(lots: int, cost: int, oneLot: int, cash: int, atMark: int, atPrice: int)
    requires cash > 0 && 0 <= atMark <= atPrice && oneLot <= atPrice
    requires lots <= LOT ==> cost == oneLot
    requires lots > LOT ==> 2 * cost <= cash + atMark
    ensures cost < cash + atPrice
  {
  }

  lemma RisenLotsCost(held: int, mark: int, price: int, cash: int, sizing: int)
    requires held >= LOT && 0 <= mark <= price && price > 0 && cash > 0
    ensures LotsFor(cash + held * mark, sizing, price) * price < cash + held * price
  {
    var atMark, atPrice := held * mark, held * price;
    var lots := LotsFor(cash + atMark, sizing, price);
    ProductNotNegative(held, mark);
    MulMonotone(LOT, held, price);
    MulMonotone(mark, price, held);
    LotsCostAtMost(cash + atMark, sizing, price);
    LotsStayBelowWorth(lots, lots * price, LOT * price, cash, atMark, atPrice);
  }

  lemma ProductNotNegative(x: int, y: int)
    requires x >= 0 && y >= 0
    ensures x * y >= 0
  {
  }

  /** With a position a purchase is always funded as long as the price has not fallen below the
      last one ... */
  lemma RisenPriceIsFunded(l: Ledger, a: Account, c: Cycle, before: Time)
    requires WellKept(l, before) && TrueBooks(l, a) && Quantity(l) > 0
    requires c.marketOpen && c.signal == BUY && c.price.Some? && c.price.value > 0 && c.price.value >= l.mark
    ensures Funded(l, a, c)
  {
    PurchaseIsFundedIff(l, a, c, before);
    EquityOfTrueBooks(l, a, before);
    RisenLotsCost(Quantity(l), l.mark, c.price.value, CashRead(l, a), a.sizing);
  }

  /** ... and after a fall it may not be: 5,000 shares last marked at 100.00, cash of 50,000.00 and
      a price of 2.00 ask for 132,500 more shares, at five times the cash. */
  lemma FallenPriceIsNotFunded(l: Ledger, a: Account, c: Cycle, before: Time)
    requires WellKept(l, before) && TrueBooks(l, a) && a.sizing == 5000
    requires Quantity(l) == 5000 && l.mark == 1_000_000 && CashRead(l, a) == 500_000_000
    requires c.marketOpen && c.signal == BUY && c.price == Some(20_000)
    ensures !Funded(l, a, c)
  {
    PurchaseIsFundedIff(l, a, c, before);
    assert LotsFor(500_000_000 + 5000 * 1_000_000, 5000, 20_000) == 137_500;
  }

  /** A run that gets there: a capital of 100,000.00 sized by half, a purchase at 10.00, held at
      100.00, and the signal to buy again at 2.00. */
  lemma FallenPriceIsReached(databases: nat, a: Account, begun: Time, cs: seq<Cycle>)
    requires databases >= 1 && a.capital == 1_000_000_000 && a.sizing == 5000
    requires |cs| == 3 && Clocked(cs, begun) && forall i | 0 <= i < 3 :: cs[i].marketOpen
    requires cs[0].price == Some(100_000) && cs[0].signal == BUY
    requires cs[1].price == Some(1_000_000) && cs[1].signal == HOLD
    requires cs[2].price == Some(20_000) && cs[2].signal == BUY
    ensures var l := Snapshot(Empty(databases), a, begun);
            FundedUpTo(l, a, cs, 2) && TrueBooks(After(l, a, cs, 2), a) && !Funded(After(l, a, cs, 2), a, cs[2])
  {
    var l0 := Snapshot(Empty(databases), a, begun);
    SnapshotOpensBooks(databases, a, begun);
    OpenedSlotIsFlat(databases, a, begun);
    FirstPurchase(l0, a, cs[0], begun);
    var l1 := AfterCycle(l0, a, cs[0]);
    assert After(l0, a, cs, 0) == l0 && After(l0, a, cs, 1) == l1;
    HoldAtHigherPrice(l1, a, cs[1], cs[0].now);
    var l2 := AfterCycle(l1, a, cs[1]);
    assert After(l0, a, cs, 2) == l2;
    FallenPriceIsNotFunded(l2, a, cs[2], cs[1].now);
  }

  lemma OpenedSlotIsFlat(databases: nat, a: Account, begun: Time)
    requires databases >= 1 && a.capital > 0
    ensures var l := Snapshot(Empty(databases), a, begun);
            Quantity(l) == 0 && CashRead(l, a) == a.capital
  {
    var l := Snapshot(Empty(databases), a, begun);
    SnapshotOpensBooks(databases, a, begun);
    ReadsFirstStore(l, begun);
    assert l.stores[0] == Books([], None, [InitialRow(a, begun)]);
  }

  lemma FirstTarget(l: Ledger, a: Account, c: Cycle, before: Time)
    requires WellKept(l, before) && TrueBooks(l, a) && a.sizing == 5000
    requires Quantity(l) == 0 && CashRead(l, a) == 1_000_000_000
    requires c.signal == BUY
    ensures GuardedTarget(l, a, c, 100_000) == 5000
  {
    EquityOfTrueBooks(l, a, before);
    assert LotsFor(1_000_000_000, 5000, 100_000) == 5000;
  }

  lemma FirstPurchase(l: Ledger, a: Account, c: Cycle, before: Time)
    requires WellKept(l, before) && TrueBooks(l, a) && before <= c.now && a.sizing == 5000
    requires Quantity(l) == 0 && CashRead(l, a) == 1_000_000_000
    requires c.marketOpen && c.price == Some(100_000) && c.signal == BUY
    ensures Funded(l, a, c)
    ensures var l' := AfterCycle(l, a, c);
            WellKept(l', c.now) && TrueBooks(l', a) && Quantity(l') == 5000 && CashRead(l', a) == 500_000_000
  {
    FirstTarget(l, a, c, before);
    CycleKeepsTrueIffFunded(l, a, c, before);
    CycleKeepsBooksOrdered(l, a, c, before);
    TradeEffect(l, a, c, 100_000, before);
    EquityOfTrueBooks(AfterCycle(l, a, c), a, c.now);
  }

  lemma HoldAtHigherPrice(l: Ledger, a: Account, c: Cycle, before: Time)
    requires WellKept(l, before) && TrueBooks(l, a) && before <= c.now
    requires Quantity(l) == 5000 && CashRead(l, a) == 500_000_000
    requires c.marketOpen && c.price == Some(1_000_000) && c.signal == HOLD
    ensures Funded(l, a, c)
    ensures var l' := AfterCycle(l, a, c);
            && WellKept(l', c.now) && TrueBooks(l', a)
            && Quantity(l') == 5000 && CashRead(l', a) == 500_000_000 && l'.mark == 1_000_000
  {
    EquityOfTrueBooks(l, a, before);
    CycleKeepsTrueIffFunded(l, a, c, before);
    CycleKeepsBooksOrdered(l, a, c, before);
    TradeEffect(l, a, c, 1_000_000, before);
    EquityOfTrueBooks(AfterCycle(l, a, c), a, c.now);
  }

  /** Beyond one lot, the lots cost at most half the equity. */
  lemma LotsCostAtMost(equity: int, sizing: int, price: int)
    requires equity > 0 && price > 0
    ensures LotsFor(equity, sizing, price) >= LOT
    ensures LotsFor(equity, sizing, price) > LOT ==> 2 * (LotsFor(equity, sizing, price) * price) <= equity
  {
    var fraction := Max(500, Min(5000, sizing));
    var q := (equity * fraction) / (10_000 * price);
    var target := LotsFor(equity, sizing, price);
    if target != LOT {
      assert target <= q;
      MulMonotone(target, q, price);
      QuotientTimes(equity * fraction, 10_000, price);
      MulMonotone(fraction, 5000, equity);
    }
  }

  lemma LotsCost(cash: int, sizing: int, price: int)
    requires cash > 0 && price > 0
    ensures LotsFor(cash, sizing, price) >= LOT
    ensures LotsFor(cash, sizing, price) * price < cash <==> LOT * price < cash
  {
    LotsCostAtMost(cash, sizing, price);
    MulMonotone(LOT, LotsFor(cash, sizing, price), price);
  }

  lemma QuotientTimes(x: int, y: int, z: int)
    requires y > 0 && z > 0
    ensures y * ((x / (y * z)) * z) <= x
  {
    var d := y * z;
    var q := x / d;
    assert q * d <= x;
    assert y * (q * z) == q * d;
  }

  lemma MulMonotone(x: int, y: int, z: int)
    requires x <= y && z >= 0
    ensures x * z <= y * z
  {
  }

  /** When a lot costs all the cash or more, the purchase is recorded anyway: the replayed cash is
      zero or negative, and the next cycle reads the initial capital instead of the stored zero. */
  lemma UnaffordableLotCreatesCash(databases: nat, a: Account, begun: Time, now: Time, price: int)
    requires databases >= 1 && a.capital > 0 && begun <= now && LOT * price >= a.capital
    ensures var l := AfterCycle(Snapshot(Empty(databases), a, begun), a, Cycle(now, true, Some(price), BUY));
            && ReplayedCash(l.stores[0].orders, a.capital) <= 0
            && CashRead(l, a) == a.capital
  {
    var l0 := Snapshot(Empty(databases), a, begun);
    var c := Cycle(now, true, Some(price), BUY);
    SnapshotOpensBooks(databases, a, begun);
    assert WellKept(l0, begun) && TrueBooks(l0, a);
    ReadsFirstStore(l0, begun);
    assert price > 0;
    TradeEffect(l0, a, c, price, begun);
    LotsCost(a.capital, a.sizing, price);
    var target := GuardedTarget(l0, a, c, price);
    assert target == LotsFor(a.capital, a.sizing, price) && target * price >= a.capital;
    ReplayAppend([], Order(Buy, target, price, target * price, now), a.capital);
    CycleKeepsBooksOrdered(l0, a, c, begun);
    ReadsFirstStore(AfterCycle(l0, a, c), now);
  }

  lemma LotsAreWhole(equity: int, sizing: int, price: int)
    requires price > 0
    ensures LotsFor(equity, sizing, price) >= LOT && LotsFor(equity, sizing, price) % LOT == 0
  {
    var q := (Max(0, equity) * Max(500, Min(5000, sizing))) / (10_000 * price);
    assert (q / LOT) * LOT % LOT == 0;
  }

  /** What the bootstrap trade leaves in the first database. */
  lemma BootstrapEffect(l: Ledger, a: Account, now: Time, price: int, before: Time)
    requires WellKept(l, before) && before <= now && price > 0
    ensures var quantity, l' := LotsFor(a.capital, a.sizing, price), AfterBootstrap(l, a, now, price);
            var amount := quantity * price;
            var cash := Max(0, a.capital - amount);
            && |l'.stores| >= 1 && l'.stores[0].nav != []
            && l'.stores[0].orders == l.stores[0].orders + [Order(Buy, quantity, price, amount, now)]
            && LastNav(l') == NavRow(Day(now), cash, amount, cash + amount)
            && Quantity(l') == quantity
  {
    var quantity, l' := LotsFor(a.capital, a.sizing, price), AfterBootstrap(l, a, now, price);
    var cash := Max(0, a.capital - quantity * price);
    LotsAreWhole(a.capital, a.sizing, price);
    assert Day(before) <= Day(now);
    AppendNavIsLast(l.stores[0].nav, NavRow(Day(now), cash, quantity * price, cash + quantity * price));
    EmptyEverywhere(l'.stores, l'.stores[0]);
  }

  /** The bootstrap trade starts from the initial capital, whatever the slot holds: it keeps the
      books true exactly when the slot is still untouched and the trade is affordable. */
  lemma BootstrapKeepsTrueIff(l: Ledger, a: Account, now: Time, price: int, before: Time)
    requires WellKept(l, before) && TrueBooks(l, a) && before <= now && price > 0
    ensures TrueBooks(AfterBootstrap(l, a, now, price), a)
       <==> && CashRead(l, a) == a.capital && Quantity(l) == 0
            && LotsFor(a.capital, a.sizing, price) * price < a.capital
  {
    var quantity := LotsFor(a.capital, a.sizing, price);
    EquityOfTrueBooks(l, a, before);
    BootstrapEffect(l, a, now, price, before);
    LotsAreWhole(a.capital, a.sizing, price);
    ProductIsPositive(quantity, price);
    ReplayAppend(l.stores[0].orders, Order(Buy, quantity, price, quantity * price, now), a.capital);
  }

  /** A second proposal taking over the slot writes a new snapshot beside the old position: the
      books stay true exactly when the first one left them as at the start. */
  lemma SecondSnapshotKeepsTrueIff(l: Ledger, a: Account, now: Time, before: Time)
    requires WellKept(l, before) && TrueBooks(l, a) && before <= now
    requires Quantity(l) > 0 ==> l.mark > 0
    ensures var next := Snapshot(l.(snapshotTaken := false, lastExecution := None), a, now);
            TrueBooks(next, a) <==> CashRead(l, a) == a.capital && Quantity(l) == 0
  {
    ReadsFirstStore(l, before);
    var next := Snapshot(l.(snapshotTaken := false, lastExecution := None), a, now);
    EmptyEverywhere(next.stores, next.stores[0]);
    assert LastNav(next) == InitialRow(a, now);
    if Quantity(l) > 0 {
      assert Quantity(l) * l.mark > 0;
    }
  }

  // ==================== The holding period ====================

  /** Every sale stands at least `days` calendar days after the latest earlier purchase. */
  predicate HoldingRespected(orders: seq<Order>, days: int) {
    forall i | 0 <= i < |orders| && orders[i].side == Sell :: SaleRespects(orders, i, days)
  }

  predicate SaleRespects(orders: seq<Order>, i: nat, days: int)
    requires i < |orders|
  {
    var buy := LatestBuy(orders[..i], i);
    buy.Some? ==> Day(orders[i].at) - Day(orders[buy.value].at) >= days
  }

  predicate OrdersClocked(orders: seq<Order>, now: Time) {
    && (forall i, j | 0 <= i < j < |orders| :: orders[i].at <= orders[j].at)
    && (forall i | 0 <= i < |orders| :: orders[i].at <= now)
  }

  lemma {:induction false} LatestBuyIsLatest(orders: seq<Order>, limit: nat)
    requires LatestBuy(orders, limit).Some?
    ensures LatestBuy(orders, |orders|) == LatestBuy(orders, limit)
  {
  }

  /** A purchase older than all orders searched has only sales after it, and the last of those
      already respected the period. */
  lemma UnseenPurchaseIsOld(orders: seq<Order>, limit: nat, days: int)
    requires HoldingRespected(orders, days) && limit >= 1
    requires LatestBuy(orders, limit).None? && LatestBuy(orders, |orders|).Some?
    ensures var buy := LatestBuy(orders, |orders|).value;
            Day(orders[|orders| - 1].at) - Day(orders[buy].at) >= days
  {
  }

  /** Appending an order that the guard lets through. */
  lemma GuardRespectsHolding(orders: seq<Order>, o: Order, days: int)
    requires HoldingRespected(orders, days) && OrdersClocked(orders, o.at)
    requires var buy := LatestBuy(orders, ORDERS_SEARCHED);
             o.side == Sell && buy.Some? && days > 0 ==> Day(o.at) - Day(orders[buy.value].at) >= days
    ensures HoldingRespected(orders + [o], days) && OrdersClocked(orders + [o], o.at)
  {
    var all, n := orders + [o], |orders|;
    forall i | 0 <= i < |all| && all[i].side == Sell ensures SaleRespects(all, i, days) {
      assert all[..i] == orders[..i];
      if i < n {
        assert SaleRespects(orders, i, days);
      } else {
        assert orders[..n] == orders;
        var buy := LatestBuy(orders, n);
        if buy.Some? {
          assert Day(orders[buy.value].at) <= Day(o.at);
          if LatestBuy(orders, ORDERS_SEARCHED).Some? {
            LatestBuyIsLatest(orders, ORDERS_SEARCHED);
          } else {
            UnseenPurchaseIsOld(orders, ORDERS_SEARCHED, days);
            assert Day(orders[n - 1].at) <= Day(o.at);
          }
        }
      }
    }
  }

  datatype Event = RunCycle(cycle: Cycle) | Bootstrap(now: Time, price: int)

  function EventTime(e: Event): Time {
    match e
    case RunCycle(c) => c.now
    case Bootstrap(now, _) => now
  }

  function Apply(l: Ledger, a: Account, e: Event): Ledger
    requires e.Bootstrap? ==> e.price > 0
  {
    match e
    case RunCycle(c) => AfterCycle(l, a, c)
    case Bootstrap(now, price) => AfterBootstrap(l, a, now, price)
  }

  predicate EventsOk(es: seq<Event>) {
    && (forall i | 0 <= i < |es| && es[i].Bootstrap? :: es[i].price > 0)
    && (forall i, j | 0 <= i < j < |es| :: EventTime(es[i]) <= EventTime(es[j]))
  }

  function AfterEvents(l: Ledger, a: Account, es: seq<Event>): Ledger
    requires forall i | 0 <= i < |es| && es[i].Bootstrap? :: es[i].price > 0
  {
    if es == [] then l else Apply(AfterEvents(l, a, es[..|es| - 1]), a, es[|es| - 1])
  }

  lemma MirroredOrders(l: Ledger)
    requires Mirrored(l)
    ensures OrdersOf(l.stores) == l.stores[0].orders
  {
    EmptyEverywhere(l.stores, l.stores[0]);
  }

  /** One event appends at most one order, and a sale only past the guard. */
  lemma EventRespectsHolding(l: Ledger, a: Account, e: Event)
    requires Mirrored(l) && (e.Bootstrap? ==> e.price > 0)
    requires HoldingRespected(l.stores[0].orders, a.minHoldingDays)
    requires OrdersClocked(l.stores[0].orders, EventTime(e))
    ensures var l' := Apply(l, a, e);
            && Mirrored(l')
            && HoldingRespected(l'.stores[0].orders, a.minHoldingDays)
            && OrdersClocked(l'.stores[0].orders, EventTime(e))
  {
    var orders := l.stores[0].orders;
    match e
    case Bootstrap(now, price) =>
      var quantity := LotsFor(a.capital, a.sizing, price);
      OrdersAfterRespectHolding(orders, 0, quantity, price, now, a.minHoldingDays);
    case RunCycle(c) =>
      var s := Snapshot(l, a, c.now);
      assert s.stores[0].orders == orders && Mirrored(s);
      if c.price.Some? && c.marketOpen {
        TradeRespectsHolding(s, a, c, c.price.value);
      }
  }

  lemma TradeRespectsHolding(l: Ledger, a: Account, c: Cycle, price: int)
    requires Mirrored(l)
    requires HoldingRespected(l.stores[0].orders, a.minHoldingDays) && OrdersClocked(l.stores[0].orders, c.now)
    ensures var l' := Trade(l, a, c, price);
            && Mirrored(l')
            && HoldingRespected(l'.stores[0].orders, a.minHoldingDays)
            && OrdersClocked(l'.stores[0].orders, c.now)
  {
    MirroredOrders(l);
    OrdersAfterRespectHolding(l.stores[0].orders, Quantity(l), GuardedTarget(l, a, c, price), price, c.now,
                              a.minHoldingDays);
  }

  lemma OrdersAfterRespectHolding(orders: seq<Order>, held: int, target: int, price: int, at: Time, days: int)
    requires HoldingRespected(orders, days) && OrdersClocked(orders, at)
    requires var buy := LatestBuy(orders, ORDERS_SEARCHED);
             target < held && buy.Some? && days > 0 ==> Day(at) - Day(orders[buy.value].at) >= days
    ensures HoldingRespected(OrdersAfter(orders, held, target, price, at), days)
    ensures OrdersClocked(OrdersAfter(orders, held, target, price, at), at)
  {
    if target > held {
      GuardRespectsHolding(orders, Order(Buy, target - held, price, (target - held) * price, at), days);
    } else if target < held {
      GuardRespectsHolding(orders, Order(Sell, held - target, price, (held - target) * price, at), days);
    }
  }

  /** Over any run with a clock that does not go back, bootstrap trades included, no sale is
      recorded less than the holding period after the latest earlier purchase, although only the
      newest 200 orders are searched for it. */
  lemma {:induction false} HoldingPeriodRespected(databases: nat, a: Account, es: seq<Event>)
    requires databases >= 1 && EventsOk(es)
    ensures var l := AfterEvents(Empty(databases), a, es);
            && Mirrored(l)
            && HoldingRespected(l.stores[0].orders, a.minHoldingDays)
            && (es != [] ==> OrdersClocked(l.stores[0].orders, EventTime(es[|es| - 1])))
            && (es == [] ==> l.stores[0].orders == [])
  {
    if es != [] {
      var front, last := es[..|es| - 1], es[|es| - 1];
      HoldingPeriodRespected(databases, a, front);
      if front != [] {
        assert front[|front| - 1] == es[|es| - 2];
        assert EventTime(es[|es| - 2]) <= EventTime(last);
      }
      EventRespectsHolding(AfterEvents(Empty(databases), a, front), a, last);
    }
  }
}
