/** The broker's tables as one value, and each transaction as a function on it.
    A transaction either commits a new value or rolls back and changes nothing. */
module Store {
  import opened Domain
  import opened Wrappers

  type Id = nat

  type Symbol = string

  datatype Order = Order(
    symbol: Symbol, side: Side, qty: real, orderType: OrderType, status: OrderStatus,
    filledQty: real, filledAvgPrice: Option<real>, limitPrice: Option<real>, stopPrice: Option<real>,
    feesPaid: real, realizedPl: real, tif: TimeInForce, parent: Option<Id>, product: ProductType,
    triggered: bool, createdAt: int)

  datatype Trade = Trade(orderId: Id, symbol: Symbol, side: Side, qty: real, price: real, fees: real, realizedPl: real)

  datatype Reason = BuyPrincipal | BuyFees | SellPrincipal | SellFees | Dividend | Adjustment | InitialCapital

  datatype Movement = Movement(amount: real, reason: Reason, orderId: Option<Id>)

  datatype Position = Position(qty: real, avgCost: real)

  datatype Db = Db(cash: real, realizedPlTotal: real, positions: map<Symbol, Position>,
                   orders: map<Id, Order>, trades: seq<Trade>, ledger: seq<Movement>)

  datatype TxError = InsufficientFunds | InsufficientShares | OrderNoLongerPending
                   | ConstraintViolation | DuplicateId | InvalidOrder | PriceUnavailable

  datatype Tx = Commit(db: Db) | Rollback(error: TxError)

  /** A remainder this small is dropped with its position row. */
  const QTY_EPSILON := 0.000000001

  predicate Open(o: Order) {
    o.status == Pending || o.status == PartiallyFilled
  }

  // ----- what the schema and the writers guarantee of every row -----

  predicate RowOk(o: Order) {
    && o.qty > 0.0 && o.filledQty >= 0.0
    && (o.status == Pending ==>
        o.filledQty == 0.0 && o.filledAvgPrice.None? && o.feesPaid == 0.0 && o.realizedPl == 0.0)
    && (o.status == Filled && o.parent.None? ==> o.filledQty == o.qty)
    && (o.filledQty > 0.0 ==> o.filledAvgPrice.Some?)
    && (o.orderType == Limit || o.orderType == StopLimit <==> o.limitPrice.Some?)
  }

  predicate HoldingsOk(positions: map<Symbol, Position>) {
    forall s :: s in positions ==> positions[s].qty > 0.0 && positions[s].avgCost > 0.0
  }

  // ----- cash and positions -----

  function HeldQty(db: Db, symbol: Symbol): real {
    if symbol in db.positions then db.positions[symbol].qty else 0.0
  }

  function FeeRow(fees: real, reason: Reason, orderId: Id): seq<Movement> {
    if fees != 0.0 then [Movement(-fees, reason, Some(orderId))] else []
  }

  function Times(x: real, factor: real): real {
    x * factor
  }

  /** Realized profit of selling `qty` shares held at `avg`. */
  function Profit(price: real, avg: real, qty: real, fees: real): real {
    (price - avg) * qty - fees
  }

  /** Per-share cost after buying into a holding, fees included. */
  function AverageCost(heldQty: real, heldAvg: real, qty: real, price: real, fees: real): real
    requires heldQty + qty != 0.0
  {
    (heldAvg * heldQty + price * qty + fees) / (heldQty + qty)
  }

  function OpeningCost(qty: real, price: real, fees: real): real
    requires qty != 0.0
  {
    (price * qty + fees) / qty
  }

  /** Volume-weighted fill price after one more slice. */
  function AverageFill(filled: real, avg: real, slice: real, price: real): real
    requires filled + slice != 0.0
  {
    (filled * avg + slice * price) / (filled + slice)
  }

  function ApplyBuy(db: Db, symbol: Symbol, qty: real, price: real, fees: real, orderId: Id): Tx
    requires HoldingsOk(db.positions) && qty > 0.0
  {
    var principal := Times(qty, price);
    var cost := principal + fees;
    if cost > db.cash then Rollback(InsufficientFunds)
    else
      var bought :=
        if symbol in db.positions then
          var held := db.positions[symbol];
          Position(held.qty + qty, AverageCost(held.qty, held.avgCost, qty, price, fees))
        else Position(qty, OpeningCost(qty, price, fees));
      if bought.avgCost <= 0.0 then Rollback(ConstraintViolation)
      else Commit(db.(
        cash := db.cash - cost,
        positions := db.positions[symbol := bought],
        ledger := db.ledger + [Movement(-principal, BuyPrincipal, Some(orderId))] + FeeRow(fees, BuyFees, orderId)))
  }

  function SellPl(db: Db, symbol: Symbol, qty: real, price: real, fees: real): real {
    if symbol in db.positions then Profit(price, db.positions[symbol].avgCost, qty, fees) else 0.0
  }

  function ApplySell(db: Db, symbol: Symbol, qty: real, price: real, fees: real, orderId: Id): Tx {
    if symbol !in db.positions || db.positions[symbol].qty < qty then Rollback(InsufficientShares)
    else
      var held := db.positions[symbol];
      var principal := Times(qty, price);
      var left := held.qty - qty;
      if db.cash + (principal - fees) < 0.0 then Rollback(ConstraintViolation)
      else Commit(db.(
        cash := db.cash + (principal - fees),
        realizedPlTotal := db.realizedPlTotal + SellPl(db, symbol, qty, price, fees),
        positions := if left <= QTY_EPSILON then db.positions - {symbol}
                     else db.positions[symbol := Position(left, held.avgCost)],
        ledger := db.ledger + [Movement(principal, SellPrincipal, Some(orderId))] + FeeRow(fees, SellFees, orderId)))
  }

  function LegPl(db: Db, side: Side, symbol: Symbol, qty: real, price: real, fees: real): real {
    if side == Buy then 0.0 else SellPl(db, symbol, qty, price, fees)
  }

  /** Cash, position, ledger and trade rows of one executed leg; the order row is the caller's. */
  function ExecuteLeg(db: Db, id: Id, symbol: Symbol, side: Side, qty: real, price: real, fees: real): Tx
    requires HoldingsOk(db.positions) && qty > 0.0
  {
    var money := if side == Buy then ApplyBuy(db, symbol, qty, price, fees, id)
                 else ApplySell(db, symbol, qty, price, fees, id);
    match money
    case Rollback(e) => Rollback(e)
    case Commit(d) =>
      var pl := LegPl(db, side, symbol, qty, price, fees);
      Commit(d.(trades := db.trades + [Trade(id, symbol, side, qty, price, fees, pl)]))
  }

  // ----- order rows -----

  function PendingRow(symbol: Symbol, side: Side, qty: real, orderType: OrderType, limitPrice: Option<real>,
                      stopPrice: Option<real>, tif: TimeInForce, parent: Option<Id>, product: ProductType,
                      at: int): Order
  {
    Order(symbol, side, qty, orderType, Pending, 0.0, None, limitPrice, stopPrice, 0.0, 0.0, tif, parent, product,
          false, at)
  }

  /** Queue one order. Limit and stop-limit orders carry a limit price; the others do not. */
  function QueueOrder(db: Db, id: Id, symbol: Symbol, side: Side, qty: real, orderType: OrderType,
                      limitPrice: Option<real>, stopPrice: Option<real>, tif: TimeInForce, product: ProductType,
                      at: int): Tx
  {
    if qty <= 0.0 || (limitPrice.Some? != (orderType == Limit || orderType == StopLimit)) then Rollback(InvalidOrder)
    else if id in db.orders then Rollback(DuplicateId)
    else
      var row := PendingRow(symbol, side, qty, orderType, limitPrice, stopPrice, tif, None, product, at);
      Commit(db.(orders := db.orders[id := row]))
  }

  /** Parent entry, stop-loss child and target child, all three or none. */
  function QueueBracket(db: Db, parentId: Id, stopId: Id, targetId: Id, symbol: Symbol, side: Side, qty: real,
                        limitPrice: Option<real>, stopPrice: real, targetPrice: real, tif: TimeInForce,
                        product: ProductType, at: int): Tx
  {
    if qty <= 0.0 then Rollback(InvalidOrder)
    else if parentId in db.orders || stopId in db.orders || targetId in db.orders
            || parentId == stopId || stopId == targetId || parentId == targetId then Rollback(DuplicateId)
    else
      var entry := PendingRow(symbol, side, qty, if limitPrice.Some? then Limit else Market, limitPrice,
                              Some(stopPrice), tif, None, product, at);
      var stop := PendingRow(symbol, Opposite(side), qty, StopMarket, None, Some(stopPrice), tif, Some(parentId),
                             product, at);
      var target := PendingRow(symbol, Opposite(side), qty, Limit, Some(targetPrice), None, tif, Some(parentId),
                               product, at);
      Commit(db.(orders := db.orders[parentId := entry][stopId := stop][targetId := target]))
  }

  predicate IsOpenChild(o: Order, parent: Id) {
    o.parent == Some(parent) && Open(o)
  }

  /** One-cancels-other: the open siblings of a completed child. */
  function CancelSiblings(rows: map<Id, Order>, parent: Id, child: Id): map<Id, Order> {
    map i | i in rows ::
      if i != child && IsOpenChild(rows[i], parent) then rows[i].(status := Cancelled) else rows[i]
  }

  /** Shrinks the open siblings of a filling child to what the parent's fill still leaves uncovered. */
  function RebalanceSiblings(rows: map<Id, Order>, parent: Id, child: Id, filledSoFar: real): map<Id, Order> {
    if parent !in rows || rows[parent].filledQty - filledSoFar <= 0.0 then rows
    else
      var newQty := rows[parent].filledQty - filledSoFar;
      map i | i in rows ::
        if i != child && IsOpenChild(rows[i], parent) && rows[i].qty > newQty then rows[i].(qty := newQty) else rows[i]
  }

  // ----- fills -----

  /** Immediate market execution: the order row is born filled. */
  function ExecuteMarket(db: Db, id: Id, symbol: Symbol, side: Side, qty: real, price: real, fees: real,
                         tif: TimeInForce, product: ProductType, at: int): Tx
    requires HoldingsOk(db.positions)
  {
    if qty <= 0.0 then Rollback(InvalidOrder)
    else match ExecuteLeg(db, id, symbol, side, qty, price, fees)
      case Rollback(e) => Rollback(e)
      case Commit(d) =>
        if id in db.orders then Rollback(DuplicateId)
        else Commit(d.(orders := db.orders[id :=
          Order(symbol, side, qty, Market, Filled, qty, Some(price), None, None, fees,
                LegPl(db, side, symbol, qty, price, fees), tif, None, product, false, at)]))
  }

  function Remaining(o: Order): real {
    o.qty - o.filledQty
  }

  predicate Completes(snapshot: Order, fillQty: Option<real>) {
    fillQty.None? || fillQty.value >= Remaining(snapshot)
  }

  function SliceQty(snapshot: Order, fillQty: Option<real>): real {
    if Completes(snapshot, fillQty) then Remaining(snapshot) else fillQty.value
  }

  /** The claimed row: every new figure comes from the caller's snapshot, the rest from the table. */
  function FilledRow(row: Order, snapshot: Order, fillQty: Option<real>, price: real, fees: real, pl: real): Order
    requires snapshot.filledQty >= 0.0 && SliceQty(snapshot, fillQty) > 0.0
  {
    var slice := SliceQty(snapshot, fillQty);
    var newFilled := snapshot.filledQty + slice;
    row.(status := if Completes(snapshot, fillQty) then Filled else PartiallyFilled,
         filledQty := newFilled,
         filledAvgPrice := Some(AverageFill(snapshot.filledQty, snapshot.filledAvgPrice.GetOr(0.0), slice, price)),
         feesPaid := snapshot.feesPaid + fees,
         realizedPl := snapshot.realizedPl + pl)
  }

  function SettleChild(rows: map<Id, Order>, parent: Id, child: Id, filledSoFar: real, completed: bool): map<Id, Order>
  {
    var rebalanced := RebalanceSiblings(rows, parent, child, filledSoFar);
    if completed then CancelSiblings(rebalanced, parent, child) else rebalanced
  }

  /** The bracket hooks of a slice: rebalance always, cancel when the slice completes the child. */
  function AfterChildSlice(rows: map<Id, Order>, id: Id, snapshot: Order, fillQty: Option<real>): map<Id, Order> {
    if snapshot.parent.None? then rows
    else SettleChild(rows, snapshot.parent.value, id, snapshot.filledQty + SliceQty(snapshot, fillQty),
                     Completes(snapshot, fillQty))
  }

  function RowsAfterLimitFill(rows: map<Id, Order>, id: Id, snapshot: Order, fillQty: Option<real>,
                              price: real, fees: real, pl: real): map<Id, Order>
    requires id in rows && snapshot.filledQty >= 0.0 && SliceQty(snapshot, fillQty) > 0.0
  {
    AfterChildSlice(rows[id := FilledRow(rows[id], snapshot, fillQty, price, fees, pl)], id, snapshot, fillQty)
  }

  /** A limit slice at an already adjusted price. The guard tests only the current status. */
  function LimitFill(db: Db, id: Id, snapshot: Order, price: real, fees: real, fillQty: Option<real>): Tx
    requires HoldingsOk(db.positions) && snapshot.filledQty >= 0.0
  {
    var slice := SliceQty(snapshot, fillQty);
    if slice <= 0.0 then Commit(db)
    else if id !in db.orders || !Open(db.orders[id]) then Rollback(OrderNoLongerPending)
    else match ExecuteLeg(db, id, snapshot.symbol, snapshot.side, slice, price, fees)
      case Rollback(e) => Rollback(e)
      case Commit(d) =>
        var pl := LegPl(db, snapshot.side, snapshot.symbol, slice, price, fees);
        Commit(d.(orders := RowsAfterLimitFill(db.orders, id, snapshot, fillQty, price, fees, pl)))
  }

  function RowsAfterMarketFill(rows: map<Id, Order>, id: Id, snapshot: Order, price: real, fees: real,
                               pl: real): map<Id, Order>
    requires id in rows
  {
    var row := rows[id].(status := Filled, filledQty := snapshot.qty, filledAvgPrice := Some(price), feesPaid := fees);
    var claimed := rows[id := if pl != 0.0 then row.(realizedPl := pl) else row];
    if snapshot.parent.None? then claimed else CancelSiblings(claimed, snapshot.parent.value, id)
  }

  /** A queued market order (bracket parent, AMO or triggered stop) fills whole, if still pending. */
  function FillPendingMarket(db: Db, id: Id, snapshot: Order, price: real, fees: real): Tx
    requires HoldingsOk(db.positions) && snapshot.qty > 0.0
  {
    if snapshot.status != Pending || id !in db.orders || db.orders[id].status != Pending then Commit(db)
    else match ExecuteLeg(db, id, snapshot.symbol, snapshot.side, snapshot.qty, price, fees)
      case Rollback(e) => Rollback(e)
      case Commit(d) =>
        var pl := LegPl(db, snapshot.side, snapshot.symbol, snapshot.qty, price, fees);
        Commit(d.(orders := RowsAfterMarketFill(db.orders, id, snapshot, price, fees, pl)))
  }

  // ----- life cycle -----

  /** A touched stop: a stop-market is only marked (its market fill is a transaction of its own),
      a stop-limit becomes an ordinary limit order. */
  function TriggerStop(db: Db, id: Id, snapshot: Order): Tx {
    if id !in db.orders || db.orders[id].status != Pending then Commit(db)
    else if snapshot.orderType == StopMarket
         then Commit(db.(orders := db.orders[id := db.orders[id].(triggered := true)]))
    else Commit(db.(orders := db.orders[id := db.orders[id].(orderType := Limit, triggered := true)]))
  }

  function CancelOrder(db: Db, id: Id): Tx {
    if id !in db.orders || !Open(db.orders[id]) then Commit(db)
    else Commit(db.(orders := map i | i in db.orders ::
      if i == id || IsOpenChild(db.orders[i], id) then db.orders[i].(status := Cancelled) else db.orders[i]))
  }

  function ExpireDayOrders(db: Db): Tx {
    Commit(db.(orders := map i | i in db.orders ::
      if db.orders[i].status == Pending && db.orders[i].tif == Day then db.orders[i].(status := Expired)
      else db.orders[i]))
  }

  // ----- corporate actions -----

  function Ratio(num: int, den: int): real
    requires den != 0
  {
    num as real / den as real
  }

  /** Per-share cost after adding shares bought at `cost` in all. */
  function SpreadCost(heldQty: real, heldAvg: real, cost: real, newQty: real): real
    requires newQty != 0.0
  {
    (heldQty * heldAvg + cost) / newQty
  }

  function Rescale(db: Db, symbol: Symbol, qtyFactor: real, costFactor: real): Db {
    if symbol !in db.positions then db
    else
      var held := db.positions[symbol];
      db.(positions := db.positions[symbol := Position(Times(held.qty, qtyFactor), Times(held.avgCost, costFactor))])
  }

  function ApplySplit(db: Db, symbol: Symbol, num: int, den: int): Tx {
    if num <= 0 || den <= 0 then Rollback(InvalidOrder)
    else Commit(Rescale(db, symbol, Ratio(num, den), Ratio(den, num)))
  }

  lemma RatioPositive(num: int, den: int)
    requires num > 0 && den > 0
    ensures Ratio(num, den) > 0.0
  {
    QuotientPositive(num as real, den as real);
  }

  function Quotient(x: real, factor: real): real
    requires factor != 0.0
  {
    x / factor
  }

  function ApplyBonus(db: Db, symbol: Symbol, num: int, den: int): Tx {
    if num <= 0 || den <= 0 then Rollback(InvalidOrder)
    else if symbol !in db.positions then Commit(db)
    else
      RatioPositive(num + den, den);
      var held, equivalent := db.positions[symbol], Ratio(num + den, den);
      Commit(db.(positions := db.positions[symbol :=
        Position(Times(held.qty, equivalent), Quotient(held.avgCost, equivalent))]))
  }

  function Entitlement(held: real, num: int, den: int): int
    requires den > 0
  {
    (held * num as real / den as real).Floor
  }

  function ApplyRights(db: Db, symbol: Symbol, num: int, den: int, price: real, subscribe: bool): Tx
    requires HoldingsOk(db.positions)
  {
    if num <= 0 || den <= 0 || price <= 0.0 then Rollback(InvalidOrder)
    else if !subscribe || symbol !in db.positions then Commit(db)
    else
      var held := db.positions[symbol];
      var newShares := Entitlement(held.qty, num, den);
      if newShares <= 0 then Commit(db)
      else
        var cost := Times(newShares as real, price);
        if cost > db.cash then Rollback(InsufficientFunds)
        else
          var newQty := held.qty + newShares as real;
          Commit(db.(
            cash := db.cash - cost,
            positions := db.positions[symbol := Position(newQty, SpreadCost(held.qty, held.avgCost, cost, newQty))],
            ledger := db.ledger + [Movement(-cost, Adjustment, None)]))
  }

  function ApplyDividend(db: Db, symbol: Symbol, perShare: real): Tx {
    if perShare <= 0.0 then Rollback(InvalidOrder)
    else if symbol !in db.positions || db.positions[symbol].qty <= 0.0 then Commit(db)
    else
      var credit := db.positions[symbol].qty * perShare;
      Commit(db.(cash := db.cash + credit, ledger := db.ledger + [Movement(credit, Dividend, None)]))
  }

  // ----- runs -----

  datatype Step =
    | MarketStep(id: Id, symbol: Symbol, side: Side, qty: real, price: real, fees: real, tif: TimeInForce,
                 product: ProductType, at: int)
    | QueueStep(id: Id, symbol: Symbol, side: Side, qty: real, orderType: OrderType, limitPrice: Option<real>,
                stopPrice: Option<real>, tif: TimeInForce, product: ProductType, at: int)
    | BracketStep(id: Id, stopId: Id, targetId: Id, symbol: Symbol, side: Side, qty: real, limitPrice: Option<real>,
                  stopLoss: real, targetPrice: real, tif: TimeInForce, product: ProductType, at: int)
    | LimitFillStep(id: Id, snapshot: Order, price: real, fees: real, fillQty: Option<real>)
    | FillPendingStep(id: Id, snapshot: Order, price: real, fees: real)
    | TriggerStep(id: Id, snapshot: Order)
    | CancelStep(id: Id)
    | ExpireStep
    | SplitStep(symbol: Symbol, num: int, den: int)
    | BonusStep(symbol: Symbol, num: int, den: int)
    | RightsStep(symbol: Symbol, num: int, den: int, price: real, subscribe: bool)
    | DividendStep(symbol: Symbol, perShare: real)

  predicate IsFill(step: Step) {
    step.LimitFillStep? || step.FillPendingStep?
  }

  predicate HasSnapshot(step: Step) {
    IsFill(step) || step.TriggerStep?
  }

  /** A snapshot may be out of date, but it was once a row of the table. */
  predicate StepOk(step: Step) {
    HasSnapshot(step) ==> RowOk(step.snapshot)
  }

  function Transact(db: Db, step: Step): Tx
    requires HoldingsOk(db.positions) && StepOk(step)
  {
    match step
    case MarketStep(id, symbol, side, qty, price, fees, tif, product, at) =>
      ExecuteMarket(db, id, symbol, side, qty, price, fees, tif, product, at)
    case QueueStep(id, symbol, side, qty, orderType, limitPrice, stopPrice, tif, product, at) =>
      QueueOrder(db, id, symbol, side, qty, orderType, limitPrice, stopPrice, tif, product, at)
    case BracketStep(id, stopId, targetId, symbol, side, qty, limitPrice, stopLoss, targetPrice, tif, product, at) =>
      QueueBracket(db, id, stopId, targetId, symbol, side, qty, limitPrice, stopLoss, targetPrice, tif, product, at)
    case LimitFillStep(id, snapshot, price, fees, fillQty) => LimitFill(db, id, snapshot, price, fees, fillQty)
    case FillPendingStep(id, snapshot, price, fees) => FillPendingMarket(db, id, snapshot, price, fees)
    case TriggerStep(id, snapshot) => TriggerStop(db, id, snapshot)
    case CancelStep(id) => CancelOrder(db, id)
    case ExpireStep => ExpireDayOrders(db)
    case SplitStep(symbol, num, den) => ApplySplit(db, symbol, num, den)
    case BonusStep(symbol, num, den) => ApplyBonus(db, symbol, num, den)
    case RightsStep(symbol, num, den, price, subscribe) => ApplyRights(db, symbol, num, den, price, subscribe)
    case DividendStep(symbol, perShare) => ApplyDividend(db, symbol, perShare)
  }

  function After(db: Db, tx: Tx): Db {
    match tx case Commit(d) => d case Rollback(_) => db
  }

  function Next(db: Db, step: Step): Db
    requires HoldingsOk(db.positions) && StepOk(step)
  {
    After(db, Transact(db, step))
  }

  /** Each snapshot in the step is the row as it stands. */
  predicate Current(db: Db, step: Step) {
    HasSnapshot(step) ==> step.id in db.orders && step.snapshot == db.orders[step.id]
  }

  function OpenAccount(capital: real): Db {
    Db(capital, 0.0, map[], map[], [], [Movement(capital, InitialCapital, None)])
  }
}
