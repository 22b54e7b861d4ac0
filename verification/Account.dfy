/** The broker account as the program keeps it: fields rewritten in place by one method per
    transaction. Each method is proved to do what the corresponding function of Store says. */
module Account {
  import opened Domain
  import opened Wrappers
  import opened Slippage
  import opened OrderBook
  import Fees
  import opened Store
  import S = Store
  import opened Runs

  /** The outcome of a transaction: committed as specified, or rolled back with nothing changed. */
  ghost predicate Settled(before: Db, tx: Tx, after: Db, error: Option<TxError>) {
    match tx
    case Commit(d) => after == d && error == None
    case Rollback(e) => after == before && error == Some(e)
  }

  /** A leg neither reads nor writes order rows. */
  lemma LegIgnoresOrders(db: Db, rows: map<Id, Order>, id: Id, symbol: Symbol, side: Side, qty: real, price: real,
                         fees: real)
    requires Sound(db) && qty > 0.0
    ensures S.ExecuteLeg(db.(orders := rows), id, symbol, side, qty, price, fees) ==
            match S.ExecuteLeg(db, id, symbol, side, qty, price, fees)
            case Commit(d) => Commit(d.(orders := rows))
            case Rollback(e) => Rollback(e)
    ensures LegPl(db.(orders := rows), side, symbol, qty, price, fees) == LegPl(db, side, symbol, qty, price, fees)
  {
  }

  class Broker {
    var cash: real
    var realizedPlTotal: real
    var positions: map<Symbol, Position>
    var orders: map<Id, Order>
    var trades: seq<Trade>
    var ledger: seq<Movement>

    const slippage: SlippageConfig
    const book: OrderBookConfig
    const feeConfig: Fees.FeeConfig
    const exchange: Exchange

    function Tables(): Db
      reads this
    {
      Db(cash, realizedPlTotal, positions, orders, trades, ledger)
    }

    constructor (capital: real, slippage: SlippageConfig, book: OrderBookConfig, feeConfig: Fees.FeeConfig,
                 exchange: Exchange)
      requires capital >= 0.0
      ensures Tables() == OpenAccount(capital) && Sound(Tables())
      ensures this.slippage == slippage && this.book == book && this.feeConfig == feeConfig && this.exchange == exchange
    {
      cash, realizedPlTotal, positions, orders, trades := capital, 0.0, map[], map[], [];
      ledger := [Movement(capital, InitialCapital, None)];
      this.slippage, this.book, this.feeConfig, this.exchange := slippage, book, feeConfig, exchange;
    }

    /** ROLLBACK: back to the state the transaction began in. */
    method Restore(saved: Db)
      modifies this
      ensures Tables() == saved
    {
      cash, realizedPlTotal, positions := saved.cash, saved.realizedPlTotal, saved.positions;
      orders, trades, ledger := saved.orders, saved.trades, saved.ledger;
    }

    method RecordMovement(amount: real, reason: Reason, orderId: Option<Id>)
      modifies this`ledger
      ensures ledger == old(ledger) + [Movement(amount, reason, orderId)]
    {
      ledger := ledger + [Movement(amount, reason, orderId)];
    }

    /** Debits cash, writes the ledger rows, opens or extends the position. On an error the caller
        rolls the transaction back. */
    method ApplyBuy(symbol: Symbol, qty: real, price: real, fees: real, orderId: Id) returns (error: Option<TxError>)
      requires Sound(Tables()) && qty > 0.0
      modifies this`cash, this`ledger, this`positions
      ensures match S.ApplyBuy(old(Tables()), symbol, qty, price, fees, orderId)
              case Commit(d) => error == None && Tables() == d
              case Rollback(e) => error == Some(e)
    {
      var principal := Times(qty, price);
      var cost := principal + fees;
      if cost > cash {
        return Some(InsufficientFunds);
      }
      cash := cash - cost;
      RecordMovement(-principal, BuyPrincipal, Some(orderId));
      if fees != 0.0 {
        RecordMovement(-fees, BuyFees, Some(orderId));
      }
      var newQty, newAvg;
      if symbol in positions {
        var held := positions[symbol];
        newQty := held.qty + qty;
        newAvg := AverageCost(held.qty, held.avgCost, qty, price, fees);
      } else {
        newQty := qty;
        newAvg := OpeningCost(qty, price, fees);
      }
      if newAvg <= 0.0 {
        return Some(ConstraintViolation);
      }
      positions := positions[symbol := Position(newQty, newAvg)];
      error := None;
    }

    /** Credits cash and realized P&L, writes the ledger rows, shrinks or drops the position. */
    method ApplySell(symbol: Symbol, qty: real, price: real, fees: real, orderId: Id)
      returns (error: Option<TxError>, realizedPl: real)
      requires Sound(Tables())
      modifies this`cash, this`realizedPlTotal, this`ledger, this`positions
      ensures match S.ApplySell(old(Tables()), symbol, qty, price, fees, orderId)
              case Commit(d) => error == None && Tables() == d
                && realizedPl == SellPl(old(Tables()), symbol, qty, price, fees)
              case Rollback(e) => error == Some(e)
    {
      realizedPl := 0.0;
      if symbol !in positions || positions[symbol].qty < qty {
        return Some(InsufficientShares), realizedPl;
      }
      var held := positions[symbol];
      var principal := Times(qty, price);
      var proceeds := principal - fees;
      realizedPl := Profit(price, held.avgCost, qty, fees);
      if cash + proceeds < 0.0 {
        return Some(ConstraintViolation), realizedPl;
      }
      cash := cash + proceeds;
      realizedPlTotal := realizedPlTotal + realizedPl;
      RecordMovement(principal, SellPrincipal, Some(orderId));
      if fees != 0.0 {
        RecordMovement(-fees, SellFees, Some(orderId));
      }
      var left := held.qty - qty;
      if left <= QTY_EPSILON {
        positions := positions - {symbol};
      } else {
        positions := positions[symbol := Position(left, held.avgCost)];
      }
      error := None;
    }

    /** Money, position and trade row of one leg; order rows are not touched. */
    method ExecuteLeg(id: Id, symbol: Symbol, side: Side, qty: real, price: real, fees: real)
      returns (error: Option<TxError>, realizedPl: real)
      requires Sound(Tables()) && qty > 0.0
      modifies this`cash, this`realizedPlTotal, this`ledger, this`positions, this`trades
      ensures match S.ExecuteLeg(old(Tables()), id, symbol, side, qty, price, fees)
              case Commit(d) => error == None && Tables() == d
                && realizedPl == LegPl(old(Tables()), side, symbol, qty, price, fees)
              case Rollback(e) => error == Some(e)
    {
      if side == Buy {
        error := ApplyBuy(symbol, qty, price, fees, id);
        realizedPl := 0.0;
      } else {
        error, realizedPl := ApplySell(symbol, qty, price, fees, id);
      }
      if error.None? {
        trades := trades + [Trade(id, symbol, side, qty, price, fees, realizedPl)];
      }
    }

    /** `orders.market.execute` after its quote: one transaction that leaves a filled order. */
    method ExecuteMarket(id: Id, symbol: Symbol, side: Side, qty: real, price: real, fees: real,
                         tif: TimeInForce, product: ProductType, at: int) returns (error: Option<TxError>)
      requires Sound(Tables())
      modifies this
      ensures Settled(old(Tables()),
                      S.ExecuteMarket(old(Tables()), id, symbol, side, qty, price, fees, tif, product, at),
                      Tables(), error)
    {
      if qty <= 0.0 {
        return Some(InvalidOrder);
      }
      var saved := Tables();
      var realizedPl;
      error, realizedPl := ExecuteLeg(id, symbol, side, qty, price, fees);
      if error.None? && id in orders {
        error := Some(DuplicateId);
      }
      if error.Some? {
        Restore(saved);
        return;
      }
      orders := orders[id := Order(symbol, side, qty, Market, Filled, qty, Some(price), None, None, fees, realizedPl,
                                   tif, None, product, false, at)];
    }

    /** The claim of a slice: every figure from the snapshot, realized P&L still to come. */
    method ClaimSlice(id: Id, snapshot: Order, fillQty: Option<real>, price: real, fees: real)
      requires id in orders && snapshot.filledQty >= 0.0 && SliceQty(snapshot, fillQty) > 0.0
      modifies this`orders
      ensures var row := FilledRow(old(orders)[id], snapshot, fillQty, price, fees, 0.0);
              orders == old(orders)[id := row.(realizedPl := 0.0)]
    {
      var slice := SliceQty(snapshot, fillQty);
      orders := orders[id := orders[id].(
        status := if Completes(snapshot, fillQty) then Filled else PartiallyFilled,
        filledQty := snapshot.filledQty + slice,
        filledAvgPrice := Some(AverageFill(snapshot.filledQty, snapshot.filledAvgPrice.GetOr(0.0), slice, price)),
        feesPaid := snapshot.feesPaid + fees,
        realizedPl := 0.0)];
    }

    /** The order rows after a claimed and settled slice: P&L, then the bracket siblings. */
    method FinishSlice(id: Id, snapshot: Order, fillQty: Option<real>, ghost price: real, ghost fees: real,
                       realizedPl: real, ghost rows: map<Id, Order>)
      requires id in rows && snapshot.filledQty >= 0.0 && SliceQty(snapshot, fillQty) > 0.0
      requires orders == rows[id := FilledRow(rows[id], snapshot, fillQty, price, fees, 0.0).(realizedPl := 0.0)]
      modifies this`orders
      ensures orders == RowsAfterLimitFill(rows, id, snapshot, fillQty, price, fees, realizedPl)
    {
      var cumulative := snapshot.realizedPl + realizedPl;
      if cumulative != 0.0 {
        orders := orders[id := orders[id].(realizedPl := cumulative)];
      }
      assert orders == rows[id := FilledRow(rows[id], snapshot, fillQty, price, fees, realizedPl)];
      SettleSiblings(id, snapshot, fillQty);
    }

    method SettleSiblings(id: Id, snapshot: Order, fillQty: Option<real>)
      modifies this`orders
      ensures orders == AfterChildSlice(old(orders), id, snapshot, fillQty)
    {
      hide RebalanceSiblings, CancelSiblings;
      if snapshot.parent.Some? {
        orders := RebalanceSiblings(orders, snapshot.parent.value, id,
                                    snapshot.filledQty + SliceQty(snapshot, fillQty));
        if Completes(snapshot, fillQty) {
          orders := CancelSiblings(orders, snapshot.parent.value, id);
        }
      }
    }

    /** `orders.limit.fill` once price and fees are known: claim, settle, rebalance, cancel siblings. */
    method FillLimit(id: Id, snapshot: Order, price: real, fees: real, fillQty: Option<real>)
      returns (error: Option<TxError>)
      requires Sound(Tables()) && RowOk(snapshot)
      modifies this
      ensures Settled(old(Tables()), S.LimitFill(old(Tables()), id, snapshot, price, fees, fillQty), Tables(), error)
    {
      var slice := SliceQty(snapshot, fillQty);
      if slice <= 0.0 {
        return None;
      }
      if id !in orders || !Open(orders[id]) {
        return Some(OrderNoLongerPending);
      }
      var saved := Tables();
      ClaimSlice(id, snapshot, fillQty, price, fees);
      LegIgnoresOrders(saved, orders, id, snapshot.symbol, snapshot.side, slice, price, fees);
      var realizedPl;
      error, realizedPl := ExecuteLeg(id, snapshot.symbol, snapshot.side, slice, price, fees);
      if error.Some? {
        Restore(saved);
        return;
      }
      FinishSlice(id, snapshot, fillQty, price, fees, realizedPl, saved.orders);
    }

    /** `orders.market.fill_pending_market` after its read and its quote. */
    method FillPendingMarket(id: Id, snapshot: Order, price: real, fees: real) returns (error: Option<TxError>)
      requires Sound(Tables()) && RowOk(snapshot)
      modifies this
      ensures Settled(old(Tables()), S.FillPendingMarket(old(Tables()), id, snapshot, price, fees), Tables(), error)
    {
      hide S.ExecuteLeg, LegPl;
      if snapshot.status != Pending {
        return None;
      }
      if id !in orders || orders[id].status != Pending {
        return None;
      }
      var saved := Tables();
      orders := orders[id := orders[id].(status := Filled, filledQty := snapshot.qty, filledAvgPrice := Some(price),
                                         feesPaid := fees)];
      LegIgnoresOrders(saved, orders, id, snapshot.symbol, snapshot.side, snapshot.qty, price, fees);
      var realizedPl;
      error, realizedPl := ExecuteLeg(id, snapshot.symbol, snapshot.side, snapshot.qty, price, fees);
      if error.Some? {
        Restore(saved);
        return;
      }
      if realizedPl != 0.0 {
        orders := orders[id := orders[id].(realizedPl := realizedPl)];
      }
      if snapshot.parent.Some? {
        orders := CancelSiblings(orders, snapshot.parent.value, id);
      }
      assert orders == RowsAfterMarketFill(saved.orders, id, snapshot, price, fees, realizedPl);
    }

    method TriggerStop(id: Id, snapshot: Order)
      modifies this`orders
      ensures Tables() == After(old(Tables()), S.TriggerStop(old(Tables()), id, snapshot))
    {
      if id !in orders || orders[id].status != Pending {
        return;
      }
      orders := orders[id := orders[id].(triggered := true)];
      if snapshot.orderType != StopMarket {
        orders := orders[id := orders[id].(orderType := Limit)];
      }
    }

    method CancelOrder(id: Id) returns (cancelled: bool)
      modifies this`orders
      ensures Tables() == After(old(Tables()), S.CancelOrder(old(Tables()), id))
      ensures cancelled == (id in old(orders) && Open(old(orders)[id]))
    {
      cancelled := id in orders && Open(orders[id]);
      if cancelled {
        ghost var rows := orders;
        orders := orders[id := orders[id].(status := Cancelled)];
        orders := map i | i in orders ::
          if IsOpenChild(orders[i], id) then orders[i].(status := Cancelled) else orders[i];
        assert orders == S.CancelOrder(old(Tables()), id).db.orders;
      }
    }

    method ExpireDayOrders()
      modifies this`orders
      ensures Tables() == After(old(Tables()), S.ExpireDayOrders(old(Tables())))
    {
      orders := map i | i in orders ::
        if orders[i].status == Pending && orders[i].tif == Day then orders[i].(status := Expired) else orders[i];
    }

    method QueueOrder(id: Id, symbol: Symbol, side: Side, qty: real, orderType: OrderType, limitPrice: Option<real>,
                      stopPrice: Option<real>, tif: TimeInForce, product: ProductType, at: int)
      returns (error: Option<TxError>)
      modifies this`orders
      ensures Settled(old(Tables()),
                      S.QueueOrder(old(Tables()), id, symbol, side, qty, orderType, limitPrice, stopPrice, tif,
                                   product, at), Tables(), error)
    {
      if qty <= 0.0 || (limitPrice.Some? != (orderType == Limit || orderType == StopLimit)) {
        return Some(InvalidOrder);
      }
      if id in orders {
        return Some(DuplicateId);
      }
      orders := orders[id := PendingRow(symbol, side, qty, orderType, limitPrice, stopPrice, tif, None, product, at)];
      error := None;
    }

    /** Inserts the three rows of a bracket one after the other; a clash undoes all of them. */
    method QueueBracket(parentId: Id, stopId: Id, targetId: Id, symbol: Symbol, side: Side, qty: real,
                        limitPrice: Option<real>, stopPrice: real, targetPrice: real, tif: TimeInForce,
                        product: ProductType, at: int)
      returns (error: Option<TxError>)
      modifies this`orders
      ensures Settled(old(Tables()),
                      S.QueueBracket(old(Tables()), parentId, stopId, targetId, symbol, side, qty, limitPrice,
                                     stopPrice, targetPrice, tif, product, at), Tables(), error)
    {
      if qty <= 0.0 {
        return Some(InvalidOrder);
      }
      var saved := orders;
      if parentId in orders {
        return Some(DuplicateId);
      }
      orders := orders[parentId := PendingRow(symbol, side, qty, if limitPrice.Some? then Limit else Market, limitPrice,
                                              Some(stopPrice), tif, None, product, at)];
      if stopId in orders {
        orders := saved;
        return Some(DuplicateId);
      }
      orders := orders[stopId := PendingRow(symbol, Opposite(side), qty, StopMarket, None, Some(stopPrice), tif,
                                            Some(parentId), product, at)];
      if targetId in orders {
        orders := saved;
        return Some(DuplicateId);
      }
      orders := orders[targetId := PendingRow(symbol, Opposite(side), qty, Limit, Some(targetPrice), None, tif,
                                              Some(parentId), product, at)];
      error := None;
    }

    // ----- corporate actions -----

    method ApplySplit(symbol: Symbol, num: int, den: int) returns (error: Option<TxError>)
      modifies this`positions
      ensures Settled(old(Tables()), S.ApplySplit(old(Tables()), symbol, num, den), Tables(), error)
    {
      if num <= 0 || den <= 0 {
        return Some(InvalidOrder);
      }
      if symbol in positions {
        var held := positions[symbol];
        positions := positions[symbol := Position(Times(held.qty, Ratio(num, den)),
                                                  Times(held.avgCost, Ratio(den, num)))];
      }
      error := None;
    }

    method ApplyBonus(symbol: Symbol, num: int, den: int) returns (error: Option<TxError>)
      modifies this`positions
      ensures Settled(old(Tables()), S.ApplyBonus(old(Tables()), symbol, num, den), Tables(), error)
    {
      if num <= 0 || den <= 0 {
        return Some(InvalidOrder);
      }
      if symbol in positions {
        var held := positions[symbol];
        RatioPositive(num + den, den);
        var equivalent := Ratio(num + den, den);
        positions := positions[symbol := Position(Times(held.qty, equivalent), Quotient(held.avgCost, equivalent))];
      }
      error := None;
    }

    method ApplyRights(symbol: Symbol, num: int, den: int, price: real, subscribe: bool)
      returns (error: Option<TxError>)
      requires Sound(Tables())
      modifies this`cash, this`positions, this`ledger
      ensures Settled(old(Tables()), S.ApplyRights(old(Tables()), symbol, num, den, price, subscribe), Tables(), error)
    {
      if num <= 0 || den <= 0 || price <= 0.0 {
        return Some(InvalidOrder);
      }
      if !subscribe || symbol !in positions {
        return None;
      }
      var held := positions[symbol];
      var newShares := Entitlement(held.qty, num, den);
      if newShares <= 0 {
        return None;
      }
      var cost := Times(newShares as real, price);
      if cost > cash {
        return Some(InsufficientFunds);
      }
      cash := cash - cost;
      RecordMovement(-cost, Adjustment, None);
      var newQty := held.qty + newShares as real;
      positions := positions[symbol := Position(newQty, SpreadCost(held.qty, held.avgCost, cost, newQty))];
      error := None;
    }

    method ApplyDividend(symbol: Symbol, perShare: real) returns (error: Option<TxError>)
      modifies this`cash, this`ledger
      ensures Settled(old(Tables()), S.ApplyDividend(old(Tables()), symbol, perShare), Tables(), error)
    {
      if perShare <= 0.0 {
        return Some(InvalidOrder);
      }
      if symbol in positions && positions[symbol].qty > 0.0 {
        var credit := positions[symbol].qty * perShare;
        cash := cash + credit;
        RecordMovement(credit, Dividend, None);
      }
      error := None;
    }
  }
}
