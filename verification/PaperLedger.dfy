/** The paper books of one slot trading one symbol for one proposal: orders, position and net
    asset value, kept in up to two databases (src/openhamster/api/services.py).

    Money and prices are integers in units of 1/10000; with lots of 100 every amount is a whole
    number of cents, so the source's rounding to cents changes nothing. */
module PaperLedger {
  import opened Prelude

  const LOT := 100
  const ORDERS_SEARCHED := 200

  datatype Side = Buy | Sell

  datatype Order = Order(side: Side, quantity: int, price: int, amount: int, at: Time)

  datatype Position = Position(quantity: int, marketValue: int, updatedAt: Time)

  datatype NavRow = NavRow(day: int, cash: int, positionValue: int, totalEquity: int)

  /** The rows of the slot in one database. */
  datatype Books = Books(orders: seq<Order>, position: Option<Position>, nav: seq<NavRow>)

  /** What the latest execution audit record holds; a skipped cycle without prices has no total. */
  datatype Execution = Execution(price: int, totalEquity: int)

  datatype Ledger = Ledger(
    stores: seq<Books>,
    snapshotTaken: bool,
    lastExecution: Option<Execution>,
    mark: int)   // the last price a NAV row was written with

  /** Initial capital; the fraction of equity to invest, in 1/10000; the holding period. */
  datatype Account = Account(capital: int, sizing: int, minHoldingDays: int)

  datatype Cycle = Cycle(now: Time, marketOpen: bool, price: Option<int>, signal: Signal)

  // ==================== Reading (fetch_paper_data) ====================

  function OrdersOf(stores: seq<Books>): seq<Order> {
    if stores == [] then [] else if stores[0].orders != [] then stores[0].orders else OrdersOf(stores[1..])
  }

  function NavOf(stores: seq<Books>): seq<NavRow> {
    if stores == [] then [] else if stores[0].nav != [] then stores[0].nav else NavOf(stores[1..])
  }

  function PositionOf(stores: seq<Books>): Option<Position> {
    if stores == [] then None
    else if stores[0].position.Some? then stores[0].position else PositionOf(stores[1..])
  }

  /** `ORDER BY trade_date DESC, rowid DESC LIMIT 1`. */
  function LatestNav(nav: seq<NavRow>): Option<NavRow> {
    if nav == [] then None
    else
      var before, last := LatestNav(nav[..|nav| - 1]), nav[|nav| - 1];
      if before.None? || last.day >= before.value.day then Some(last) else before
  }

  function Quantity(l: Ledger): int {
    var p := PositionOf(l.stores);
    if p.Some? then p.value.quantity else 0
  }

  /** Python's `value or default`. */
  function OrDefault(value: int, default_: int): int {
    if value == 0 then default_ else value
  }

  /** Cash as `_latest_paper_nav_state` reads it: a stored zero reads as the initial capital. */
  function CashRead(l: Ledger, a: Account): int {
    var nav := LatestNav(NavOf(l.stores));
    if nav.None? then a.capital else OrDefault(nav.value.cash, a.capital)
  }

  function EquityRead(l: Ledger, a: Account): int {
    var nav := LatestNav(NavOf(l.stores));
    if nav.None? then a.capital else OrDefault(nav.value.totalEquity, a.capital)
  }

  /** The latest buy among the newest `limit` orders. */
  function LatestBuy(orders: seq<Order>, limit: nat): (k: Option<nat>)
    ensures k.Some? ==> |orders| - limit <= k.value < |orders| && orders[k.value].side == Buy
    ensures k.Some? ==> forall i | k.value < i < |orders| :: orders[i].side == Sell
    ensures k.None? ==> forall i | 0 <= i < |orders| && |orders| - limit <= i :: orders[i].side == Sell
  {
    if orders == [] || limit == 0 then None
    else if orders[|orders| - 1].side == Buy then Some(|orders| - 1)
    else
      var front := orders[..|orders| - 1];
      var k := LatestBuy(front, limit - 1);
      assert forall i | 0 <= i < |front| :: front[i] == orders[i];
      assert orders[|orders| - 1].side.Sell?;
      k
  }

  // ==================== One cycle ====================

  function AppendNav(nav: seq<NavRow>, row: NavRow): seq<NavRow> {
    if LatestNav(nav) == Some(row) then nav else nav + [row]
  }

  function LotsFor(equity: int, sizing: int, price: int): int
    requires price > 0
  {
    var fraction := Max(500, Min(5000, sizing));
    var quantity := (Max(0, equity) * fraction) / (10_000 * price);
    Max(LOT, (quantity / LOT) * LOT)
  }

  /** `_current_target_quantity`. */
  function TargetQuantity(signal: Signal, price: int, equity: int, held: int, sizing: int): int {
    if price <= 0 then 0
    else match signal
      case SELL => 0
      case HOLD => held
      case BUY => LotsFor(equity, sizing, price)
  }

  /** The target after the holding-period guard. */
  function GuardedTarget(l: Ledger, a: Account, c: Cycle, price: int): int {
    var held := Quantity(l);
    var target := TargetQuantity(c.signal, price, EquityRead(l, a), held, a.sizing);
    var orders := OrdersOf(l.stores);
    var buy := LatestBuy(orders, ORDERS_SEARCHED);
    if target < held && buy.Some? && a.minHoldingDays > 0
       && Day(c.now) - Day(orders[buy.value].at) < a.minHoldingDays
    then held else target
  }

  function InitialRow(a: Account, now: Time): NavRow {
    NavRow(Day(now), a.capital, 0, a.capital)
  }

  function WithSnapshot(stores: seq<Books>, row: NavRow): (s: seq<Books>)
    ensures |s| == |stores|
    ensures forall i | 0 <= i < |s| :: s[i] == stores[i].(nav := stores[i].nav + [row])
  {
    seq(|stores|, i requires 0 <= i < |stores| => stores[i].(nav := stores[i].nav + [row]))
  }

  /** `_initialize_paper_snapshot_for_proposal`. */
  function Snapshot(l: Ledger, a: Account, now: Time): Ledger {
    if l.snapshotTaken then l
    else l.(stores := WithSnapshot(l.stores, InitialRow(a, now)), snapshotTaken := true)
  }

  function WithNav(stores: seq<Books>, row: NavRow): (s: seq<Books>)
    ensures |s| == |stores|
    ensures forall i | 0 <= i < |s| :: s[i] == stores[i].(nav := AppendNav(stores[i].nav, row))
  {
    seq(|stores|, i requires 0 <= i < |stores| => stores[i].(nav := AppendNav(stores[i].nav, row)))
  }

  /** A cycle while the market is closed: the position is only marked. */
  function Mark(l: Ledger, a: Account, c: Cycle, price: int): Ledger {
    var cash := CashRead(l, a);
    var value := Quantity(l) * price;
    var total := cash + value;
    var previous := if l.lastExecution.Some? then l.lastExecution.value.totalEquity else EquityRead(l, a);
    var nav := LatestNav(NavOf(l.stores));
    var written := previous != total || nav.None? || nav.value.day != Day(c.now);
    l.(stores := if written then WithNav(l.stores, NavRow(Day(c.now), cash, value, total)) else l.stores,
       lastExecution := Some(Execution(price, total)),
       mark := price)
  }

  function OrdersAfter(orders: seq<Order>, held: int, target: int, price: int, at: Time): seq<Order> {
    if target > held then orders + [Order(Buy, target - held, price, (target - held) * price, at)]
    else if target < held then orders + [Order(Sell, held - target, price, (held - target) * price, at)]
    else orders
  }

  /** The rows one database gets from a trade to `target`. */
  function Rebalanced(b: Books, held: int, target: int, price: int, cash: int, now: Time): Books {
    Books(OrdersAfter(b.orders, held, target, price, now),
          if target > 0 then Some(Position(target, target * price, now)) else None,
          AppendNav(b.nav, NavRow(Day(now), cash, target * price, cash + target * price)))
  }

  function WithTrade(stores: seq<Books>, held: int, target: int, price: int, cash: int, now: Time): (s: seq<Books>)
    ensures |s| == |stores|
    ensures forall i | 0 <= i < |s| :: s[i] == Rebalanced(stores[i], held, target, price, cash, now)
  {
    seq(|stores|, i requires 0 <= i < |stores| => Rebalanced(stores[i], held, target, price, cash, now))
  }

  /** Cash after a trade: a purchase dearer than the cash held leaves zero. */
  function CashAfter(cash: int, held: int, target: int, price: int): int {
    if target > held then Max(0, cash - (target - held) * price) else cash + (held - target) * price
  }

  /** A cycle while the market is open. */
  function Trade(l: Ledger, a: Account, c: Cycle, price: int): Ledger {
    var held := Quantity(l);
    var target := GuardedTarget(l, a, c, price);
    var cash := CashAfter(CashRead(l, a), held, target, price);
    l.(stores := WithTrade(l.stores, held, target, price, cash, c.now),
       lastExecution := Some(Execution(price, cash + target * price)),
       mark := price)
  }

  /** `execute_paper_cycle_for_slot`. */
  function AfterCycle(l0: Ledger, a: Account, c: Cycle): Ledger {
    var l := Snapshot(l0, a, c.now);
    if c.price.None? then l.(lastExecution := None)
    else if c.marketOpen then Trade(l, a, c, c.price.value)
    else Mark(l, a, c, c.price.value)
  }

  /** `_bootstrap_paper_trade_for_proposal` once the market is open and has a price. */
  function AfterBootstrap(l: Ledger, a: Account, now: Time, price: int): Ledger
    requires price > 0
  {
    var quantity := LotsFor(a.capital, a.sizing, price);
    var cash := Max(0, a.capital - quantity * price);
    l.(stores := WithTrade(l.stores, 0, quantity, price, cash, now),
       mark := price)
  }

  // ==================== The imperative form ====================

  class SlotLedger {
    const account: Account
    var stores: seq<Books>
    var snapshotTaken: bool
    var lastExecution: Option<Execution>
    ghost var mark: int

    constructor (account: Account, databases: nat)
      ensures this.account == account
      ensures State() == Empty(databases)
    {
      this.account := account;
      stores := seq(databases, _ => Books([], None, []));
      snapshotTaken := false;
      lastExecution := None;
      mark := 0;
    }

    ghost function State(): Ledger
      reads this
    {
      Ledger(stores, snapshotTaken, lastExecution, mark)
    }

    method InitializeSnapshot(now: Time)
      modifies this
      ensures State() == Snapshot(old(State()), account, now)
    {
      if snapshotTaken {
        return;
      }
      var row := InitialRow(account, now);
      ghost var before := stores;
      for i := 0 to |stores|
        invariant |stores| == |before| && !snapshotTaken && lastExecution == old(lastExecution) && mark == old(mark)
        invariant forall j | 0 <= j < |stores| ::
                    stores[j] == if j < i then WithSnapshot(before, row)[j] else before[j]
      {
        stores := stores[i := stores[i].(nav := stores[i].nav + [row])];
      }
      assert stores == WithSnapshot(before, row);
      snapshotTaken := true;
    }

    /** The loop over the databases of a closed-market cycle. */
    method AppendNavRows(row: NavRow)
      modifies this`stores
      ensures stores == WithNav(old(stores), row)
    {
      ghost var before := stores;
      for i := 0 to |stores|
        invariant |stores| == |before|
        invariant forall j | 0 <= j < |stores| :: stores[j] == if j < i then WithNav(before, row)[j] else before[j]
      {
        stores := stores[i := stores[i].(nav := AppendNav(stores[i].nav, row))];
      }
      assert stores == WithNav(before, row);
    }

    /** The loop over the databases of an open-market cycle. */
    method WriteTrade(held: int, target: int, price: int, cash: int, now: Time)
      modifies this`stores
      ensures stores == WithTrade(old(stores), held, target, price, cash, now)
    {
      ghost var before := stores;
      for i := 0 to |stores|
        invariant |stores| == |before|
        invariant forall j | 0 <= j < |stores| ::
                    stores[j] == if j < i then WithTrade(before, held, target, price, cash, now)[j] else before[j]
      {
        var b := stores[i];
        if target > held {
          b := b.(orders := b.orders + [Order(Buy, target - held, price, (target - held) * price, now)]);
        } else if target < held {
          b := b.(orders := b.orders + [Order(Sell, held - target, price, (held - target) * price, now)]);
        }
        b := b.(position := None);
        if target > 0 {
          b := b.(position := Some(Position(target, target * price, now)));
        }
        b := b.(nav := AppendNav(b.nav, NavRow(Day(now), cash, target * price, cash + target * price)));
        stores := stores[i := b];
      }
      assert stores == WithTrade(before, held, target, price, cash, now);
    }

    /** The target quantity, after the holding-period guard. */
    method ChooseTarget(c: Cycle, price: int, equity: int, held: int) returns (target: int)
      requires equity == EquityRead(State(), account) && held == Quantity(State())
      ensures target == GuardedTarget(State(), account, c, price)
    {
      target := TargetQuantity(c.signal, price, equity, held, account.sizing);
      var orders := OrdersOf(stores);
      var buy := LatestBuy(orders, ORDERS_SEARCHED);
      if target < held && buy.Some? && account.minHoldingDays > 0 {
        if Day(c.now) - Day(orders[buy.value].at) < account.minHoldingDays {
          target := held;
        }
      }
    }

    method ExecuteCycle(c: Cycle)
      modifies this
      ensures State() == AfterCycle(old(State()), account, c)
    {
      InitializeSnapshot(c.now);
      if c.price.None? {
        lastExecution := None;
        return;
      }
      var price := c.price.value;
      var nav := LatestNav(NavOf(stores));
      var cash := if nav.None? then account.capital else OrDefault(nav.value.cash, account.capital);
      var equity := if nav.None? then account.capital else OrDefault(nav.value.totalEquity, account.capital);
      var position := PositionOf(stores);
      var held := if position.Some? then position.value.quantity else 0;
      var target := ChooseTarget(c, price, equity, held);
      if c.marketOpen {
        TradePosition(c, price, cash, held, target);
      } else {
        MarkPosition(c, price, cash, equity, held);
      }
    }

    method MarkPosition(c: Cycle, price: int, cash: int, equity: int, held: int)
      requires cash == CashRead(State(), account) && equity == EquityRead(State(), account)
      requires held == Quantity(State())
      modifies this
      ensures State() == Mark(old(State()), account, c, price)
    {
      var nav := LatestNav(NavOf(stores));
      var total := cash + held * price;
      var previous := if lastExecution.Some? then lastExecution.value.totalEquity else equity;
      if previous != total || nav.None? || nav.value.day != Day(c.now) {
        AppendNavRows(NavRow(Day(c.now), cash, held * price, total));
      }
      lastExecution := Some(Execution(price, total));
      mark := price;
    }

    static method SettleCash(cash: int, held: int, target: int, price: int) returns (newCash: int)
      ensures newCash == CashAfter(cash, held, target, price)
    {
      newCash := cash;
      if target > held {
        newCash := Max(0, cash - (target - held) * price);
      } else if target < held {
        newCash := cash + (held - target) * price;
      } else {
        assert (held - target) * price == 0;
      }
    }

    method TradePosition(c: Cycle, price: int, cash: int, held: int, target: int)
      requires cash == CashRead(State(), account) && held == Quantity(State())
      requires target == GuardedTarget(State(), account, c, price)
      modifies this
      ensures State() == Trade(old(State()), account, c, price)
    {
      var newCash := SettleCash(cash, held, target, price);
      WriteTrade(held, target, price, newCash, c.now);
      lastExecution := Some(Execution(price, newCash + target * price));
      mark := price;
    }

    /** The bootstrap trade, once the market is open and has a price. */
    method BootstrapTrade(now: Time, price: int)
      requires price > 0
      modifies this
      ensures State() == AfterBootstrap(old(State()), account, now, price)
    {
      var quantity := LotsFor(account.capital, account.sizing, price);
      var amount := quantity * price;
      WriteTrade(0, quantity, price, Max(0, account.capital - amount), now);
      mark := price;
    }
  }

  function Empty(databases: nat): Ledger {
    Ledger(seq(databases, _ => Books([], None, [])), false, None, 0)
  }
}
