/** The four stores agree: orders against their trades, cash against the ledger, realized P&L
    against the trades, positions against net traded quantity. */
module Books {
  import opened Domain
  import opened Wrappers
  import opened Store

  // ----- sums over the append-only tables -----

  datatype Measure = QtyOf(id: Id) | FeesOf(id: Id) | PlOf(id: Id) | NotionalOf(id: Id)
                   | EntryOf(id: Id, reason: Reason) | CashOf(id: Id) | NetOf(symbol: Symbol) | AllPl | AllCash

  /** What a trade brings in: the price of what was sold, or takes out: the price of what was bought, and in
      either case its fees. */
  function CashFlow(t: Trade): real {
    (if t.side == Sell then t.qty * t.price else -(t.qty * t.price)) - t.fees
  }

  /** The part of that booked under each reason. */
  function Entry(reason: Reason, t: Trade): real {
    match reason
    case BuyPrincipal => if t.side == Buy then -(t.qty * t.price) else 0.0
    case BuyFees => if t.side == Buy then -t.fees else 0.0
    case SellPrincipal => if t.side == Sell then t.qty * t.price else 0.0
    case SellFees => if t.side == Sell then -t.fees else 0.0
    case _ => 0.0
  }

  function Weight(m: Measure, t: Trade): real {
    match m
    case QtyOf(id) => if t.orderId == id then t.qty else 0.0
    case FeesOf(id) => if t.orderId == id then t.fees else 0.0
    case PlOf(id) => if t.orderId == id then t.realizedPl else 0.0
    case NotionalOf(id) => if t.orderId == id then t.qty * t.price else 0.0
    case EntryOf(id, reason) => if t.orderId == id then Entry(reason, t) else 0.0
    case CashOf(id) => if t.orderId == id then CashFlow(t) else 0.0
    case NetOf(s) => if t.symbol != s then 0.0 else if t.side == Buy then t.qty else -t.qty
    case AllPl => t.realizedPl
    case AllCash => CashFlow(t)
  }

  function TradeSum(m: Measure, trades: seq<Trade>): real {
    if trades == [] then 0.0 else TradeSum(m, trades[..|trades| - 1]) + Weight(m, trades[|trades| - 1])
  }

  lemma TradeSumSnoc(m: Measure, trades: seq<Trade>, t: Trade)
    ensures TradeSum(m, trades + [t]) == TradeSum(m, trades) + Weight(m, t)
  {
    assert (trades + [t])[..|trades|] == trades;
  }

  predicate OrderMeasure(m: Measure) {
    m.QtyOf? || m.FeesOf? || m.PlOf? || m.NotionalOf? || m.EntryOf? || m.CashOf?
  }

  lemma {:induction false} UntradedSumsToZero(m: Measure, trades: seq<Trade>)
    requires OrderMeasure(m)
    requires forall k :: 0 <= k < |trades| ==> trades[k].orderId != m.id
    ensures TradeSum(m, trades) == 0.0
  {
    if trades != [] {
      UntradedSumsToZero(m, trades[..|trades| - 1]);
    }
  }

  function LedgerSum(ledger: seq<Movement>): real {
    if ledger == [] then 0.0 else LedgerSum(ledger[..|ledger| - 1]) + ledger[|ledger| - 1].amount
  }

  function ReasonSum(reason: Reason, ledger: seq<Movement>): real {
    if ledger == [] then 0.0
    else
      var last := ledger[|ledger| - 1];
      ReasonSum(reason, ledger[..|ledger| - 1]) + if last.reason == reason then last.amount else 0.0
  }

  lemma LedgerSnoc(ledger: seq<Movement>, m: Movement)
    ensures LedgerSum(ledger + [m]) == LedgerSum(ledger) + m.amount
    ensures forall r :: ReasonSum(r, ledger + [m]) == ReasonSum(r, ledger) + if m.reason == r then m.amount else 0.0
  {
    assert (ledger + [m])[..|ledger|] == ledger;
  }

  /** Rows booked by an order: they move the ledger total, but neither opening capital nor dividends. */
  predicate OrderReason(reason: Reason) {
    reason != InitialCapital && reason != Dividend
  }

  lemma OrderRowSnoc(ledger: seq<Movement>, m: Movement)
    requires OrderReason(m.reason)
    ensures LedgerSum(ledger + [m]) == LedgerSum(ledger) + m.amount
    ensures ReasonSum(InitialCapital, ledger + [m]) == ReasonSum(InitialCapital, ledger)
    ensures ReasonSum(Dividend, ledger + [m]) == ReasonSum(Dividend, ledger)
  {
    LedgerSnoc(ledger, m);
  }

  /** A principal row followed by an optional fee row. */
  lemma LedgerLeg(ledger: seq<Movement>, m: Movement, fees: real, feeReason: Reason, id: Id)
    requires OrderReason(m.reason) && OrderReason(feeReason)
    ensures var after := ledger + [m] + FeeRow(fees, feeReason, id);
            && LedgerSum(after) == LedgerSum(ledger) + m.amount - fees
            && ReasonSum(InitialCapital, after) == ReasonSum(InitialCapital, ledger)
            && ReasonSum(Dividend, after) == ReasonSum(Dividend, ledger)
  {
    OrderRowSnoc(ledger, m);
    if fees != 0.0 {
      OrderRowSnoc(ledger + [m], Movement(-fees, feeReason, Some(id)));
    } else {
      assert ledger + [m] + [] == ledger + [m];
    }
  }

  // ----- what one committed leg does to every table -----

  predicate Sliver(db: Db, symbol: Symbol, qty: real) {
    0.0 < HeldQty(db, symbol) - qty <= QTY_EPSILON
  }

  lemma LegRecords(db: Db, id: Id, symbol: Symbol, side: Side, qty: real, price: real, fees: real, d: Db)
    requires HoldingsOk(db.positions) && qty > 0.0
    requires ExecuteLeg(db, id, symbol, side, qty, price, fees) == Commit(d)
    ensures d.cash - db.cash == LedgerSum(d.ledger) - LedgerSum(db.ledger)
    ensures ReasonSum(InitialCapital, d.ledger) == ReasonSum(InitialCapital, db.ledger)
    ensures ReasonSum(Dividend, d.ledger) == ReasonSum(Dividend, db.ledger)
  {
    if side == Buy {
      LedgerLeg(db.ledger, Movement(-Times(qty, price), BuyPrincipal, Some(id)), fees, BuyFees, id);
    } else {
      LedgerLeg(db.ledger, Movement(Times(qty, price), SellPrincipal, Some(id)), fees, SellFees, id);
    }
  }

  lemma LegHoldings(db: Db, id: Id, symbol: Symbol, side: Side, qty: real, price: real, fees: real, d: Db)
    requires HoldingsOk(db.positions) && qty > 0.0
    requires ExecuteLeg(db, id, symbol, side, qty, price, fees) == Commit(d)
    ensures HoldingsOk(d.positions)
    ensures forall s :: s != symbol ==> HeldQty(d, s) == HeldQty(db, s)
    ensures side == Buy ==> HeldQty(d, symbol) == HeldQty(db, symbol) + qty
    ensures side == Sell ==> HeldQty(db, symbol) >= qty
    ensures side == Sell ==> HeldQty(d, symbol) == if Sliver(db, symbol, qty) then 0.0 else HeldQty(db, symbol) - qty
  {
  }

  lemma LegEffect(db: Db, id: Id, symbol: Symbol, side: Side, qty: real, price: real, fees: real, d: Db)
    requires HoldingsOk(db.positions) && qty > 0.0
    requires ExecuteLeg(db, id, symbol, side, qty, price, fees) == Commit(d)
    ensures d.orders == db.orders
    ensures d.trades == db.trades
            + [Trade(id, symbol, side, qty, price, fees, LegPl(db, side, symbol, qty, price, fees))]
    ensures d.cash >= 0.0
    ensures d.cash - db.cash == LedgerSum(d.ledger) - LedgerSum(db.ledger)
    ensures ReasonSum(InitialCapital, d.ledger) == ReasonSum(InitialCapital, db.ledger)
    ensures ReasonSum(Dividend, d.ledger) == ReasonSum(Dividend, db.ledger)
    ensures d.realizedPlTotal == db.realizedPlTotal + LegPl(db, side, symbol, qty, price, fees)
    ensures HoldingsOk(d.positions)
    ensures forall s :: s != symbol ==> HeldQty(d, s) == HeldQty(db, s)
    ensures side == Buy ==> HeldQty(d, symbol) == HeldQty(db, symbol) + qty
    ensures side == Sell ==> HeldQty(db, symbol) >= qty
    ensures side == Sell ==> HeldQty(d, symbol) == if Sliver(db, symbol, qty) then 0.0 else HeldQty(db, symbol) - qty
  {
    LegRecords(db, id, symbol, side, qty, price, fees, d);
    LegHoldings(db, id, symbol, side, qty, price, fees, d);
  }

  // ----- holdings stay positive, cash stays non-negative, whatever the snapshots -----

  lemma RescaleKeepsHoldings(db: Db, symbol: Symbol, qtyFactor: real, costFactor: real)
    requires HoldingsOk(db.positions) && qtyFactor > 0.0 && costFactor > 0.0
    ensures HoldingsOk(Rescale(db, symbol, qtyFactor, costFactor).positions)
  {
  }

  lemma BonusKeepsHoldings(db: Db, symbol: Symbol, num: int, den: int)
    requires HoldingsOk(db.positions) && num > 0 && den > 0
    ensures HoldingsOk(After(db, ApplyBonus(db, symbol, num, den)).positions)
  {
    RatioPositive(num + den, den);
    if symbol in db.positions {
      QuotientPositive(db.positions[symbol].avgCost, Ratio(num + den, den));
    }
  }

  lemma RightsKeepHoldings(db: Db, symbol: Symbol, num: int, den: int, price: real, subscribe: bool)
    requires HoldingsOk(db.positions) && db.cash >= 0.0
    ensures var d := After(db, ApplyRights(db, symbol, num, den, price, subscribe));
            HoldingsOk(d.positions) && d.cash >= 0.0
  {
    if num > 0 && den > 0 && price > 0.0 && symbol in db.positions {
      var held := db.positions[symbol];
      var newShares := Entitlement(held.qty, num, den);
      if newShares > 0 {
        assert held.qty * held.avgCost > 0.0;
        assert newShares as real * price > 0.0;
        QuotientPositive(held.qty * held.avgCost + newShares as real * price, held.qty + newShares as real);
      }
    }
  }

  /** The schema's CHECK constraints hold after every transaction, even one run on a stale snapshot. */
  lemma NextKeepsHoldings(db: Db, step: Step)
    requires HoldingsOk(db.positions) && db.cash >= 0.0 && StepOk(step)
    ensures HoldingsOk(Next(db, step).positions) && Next(db, step).cash >= 0.0
  {
    var tx := Transact(db, step);
    if tx.Commit? {
      match step
      case MarketStep(id, symbol, side, qty, price, fees, _, _, _) =>
        LegEffect(db, id, symbol, side, qty, price, fees, ExecuteLeg(db, id, symbol, side, qty, price, fees).db);
      case LimitFillStep(id, o, price, fees, fillQty) =>
        var slice := SliceQty(o, fillQty);
        if slice > 0.0 {
          LegEffect(db, id, o.symbol, o.side, slice, price, fees,
                    ExecuteLeg(db, id, o.symbol, o.side, slice, price, fees).db);
        }
      case FillPendingStep(id, o, price, fees) =>
        if tx.db != db {
          LegEffect(db, id, o.symbol, o.side, o.qty, price, fees,
                    ExecuteLeg(db, id, o.symbol, o.side, o.qty, price, fees).db);
        }
      case SplitStep(symbol, num, den) =>
        QuotientPositive(num as real, den as real);
        QuotientPositive(den as real, num as real);
        RescaleKeepsHoldings(db, symbol, Ratio(num, den), Ratio(den, num));
      case BonusStep(symbol, num, den) =>
        BonusKeepsHoldings(db, symbol, num, den);
      case RightsStep(symbol, num, den, price, subscribe) =>
        RightsKeepHoldings(db, symbol, num, den, price, subscribe);
      case DividendStep(symbol, perShare) =>
        if tx.db != db {
          assert db.positions[symbol].qty * perShare > 0.0;
        }
      case _ =>
    }
  }

  // ----- the agreements -----

  ghost predicate CashAgrees(db: Db) {
    db.cash == LedgerSum(db.ledger)
  }

  ghost predicate PlAgrees(db: Db) {
    db.realizedPlTotal == TradeSum(AllPl, db.trades)
  }

  ghost predicate RowAgrees(id: Id, o: Order, trades: seq<Trade>) {
    && o.filledQty == TradeSum(QtyOf(id), trades)
    && o.feesPaid == TradeSum(FeesOf(id), trades)
    && o.realizedPl == TradeSum(PlOf(id), trades)
    && o.filledAvgPrice.GetOr(0.0) * o.filledQty == TradeSum(NotionalOf(id), trades)
  }

  ghost predicate OrdersAgree(db: Db) {
    && (forall k :: 0 <= k < |db.trades| ==> db.trades[k].orderId in db.orders)
    && forall i :: i in db.orders ==> RowAgrees(i, db.orders[i], db.trades)
  }

  ghost predicate PositionsAgree(db: Db) {
    forall s :: HeldQty(db, s) == TradeSum(NetOf(s), db.trades)
  }

  /** Only status, outstanding quantity, type and the trigger mark may differ. */
  ghost predicate SameFills(a: Order, b: Order) {
    && a.filledQty == b.filledQty && a.filledAvgPrice == b.filledAvgPrice && a.feesPaid == b.feesPaid
       && a.realizedPl == b.realizedPl
  }

  /** What the order was placed as. */
  ghost predicate SameTerms(a: Order, b: Order) {
    && a.symbol == b.symbol && a.side == b.side && a.orderType == b.orderType
    && a.limitPrice == b.limitPrice && a.parent == b.parent
  }

  lemma LegKeepsMoney(db: Db, id: Id, symbol: Symbol, side: Side, qty: real, price: real, fees: real)
    requires HoldingsOk(db.positions) && qty > 0.0
    requires CashAgrees(db) && PlAgrees(db)
    ensures ExecuteLeg(db, id, symbol, side, qty, price, fees).Commit? ==>
              var d := ExecuteLeg(db, id, symbol, side, qty, price, fees).db; CashAgrees(d) && PlAgrees(d)
  {
    hide ExecuteLeg, TradeSum, LedgerSum, LegPl;
    var tx := ExecuteLeg(db, id, symbol, side, qty, price, fees);
    if tx.Commit? {
      LegEffect(db, id, symbol, side, qty, price, fees, tx.db);
      TradeSumSnoc(AllPl, db.trades, tx.db.trades[|db.trades|]);
    }
  }

  ghost predicate SameMoney(a: Db, b: Db) {
    a.cash == b.cash && a.positions == b.positions && a.realizedPlTotal == b.realizedPlTotal && a.ledger == b.ledger
  }

  ghost predicate SameBooks(a: Db, b: Db) {
    SameMoney(a, b) && a.trades == b.trades
  }

  /** The step trades. */
  predicate Trades(db: Db, step: Step)
    requires HoldingsOk(db.positions) && StepOk(step)
  {
    Next(db, step).trades != db.trades
  }

  /** The leg a trading step executes; the step adds nothing to its tables but order rows. */
  lemma TradingLeg(db: Db, step: Step)
    returns (id: Id, symbol: Symbol, side: Side, qty: real, price: real, fees: real, d: Db)
    requires HoldingsOk(db.positions) && StepOk(step) && Trades(db, step)
    ensures qty > 0.0 && ExecuteLeg(db, id, symbol, side, qty, price, fees) == Commit(d) && SameBooks(d, Next(db, step))
    ensures NoSliver(db, step) <==> side == Buy || !Sliver(db, symbol, qty)
  {
    hide ApplyBuy, ApplySell, ExecuteLeg;
    id := step.id;
    match step {
      case MarketStep(_, _, _, _, _, _, _, _, _) =>
        symbol, side, qty := step.symbol, step.side, step.qty;
      case LimitFillStep(_, o, _, _, fillQty) =>
        symbol, side, qty := o.symbol, o.side, SliceQty(o, fillQty);
      case FillPendingStep(_, o, _, _) =>
        symbol, side, qty := o.symbol, o.side, o.qty;
    }
    price, fees := step.price, step.fees;
    d := ExecuteLeg(db, id, symbol, side, qty, price, fees).db;
  }

  /** A step that does not trade moves no money, unless it is a corporate action. */
  lemma UntradedBooks(db: Db, step: Step)
    requires HoldingsOk(db.positions) && StepOk(step) && !IsCorporateAction(step) && !Trades(db, step)
    ensures SameBooks(db, Next(db, step))
  {
    if Next(db, step) != db {
      match step
      case MarketStep(id, symbol, side, qty, price, fees, _, _, _) =>
        LegEffect(db, id, symbol, side, qty, price, fees, ExecuteLeg(db, id, symbol, side, qty, price, fees).db);
      case LimitFillStep(_, _, _, _, _) =>
        LimitFillTrades(db, step);
      case FillPendingStep(id, o, price, fees) =>
        LegEffect(db, id, o.symbol, o.side, o.qty, price, fees,
                  ExecuteLeg(db, id, o.symbol, o.side, o.qty, price, fees).db);
      case _ =>
    }
  }

  lemma CorporateActionBooks(db: Db, step: Step)
    requires HoldingsOk(db.positions) && IsCorporateAction(step) && CashAgrees(db) && PlAgrees(db)
    ensures CashAgrees(Next(db, step)) && PlAgrees(Next(db, step))
  {
    if (step.RightsStep? || step.DividendStep?) && Next(db, step) != db {
      LedgerSnoc(db.ledger, Next(db, step).ledger[|db.ledger|]);
    }
  }

  lemma SameBooksAgree(a: Db, b: Db)
    requires SameBooks(a, b) && CashAgrees(a) && PlAgrees(a)
    ensures CashAgrees(b) && PlAgrees(b)
  {
  }

  lemma MoneyAgreesNext(db: Db, step: Step)
    requires HoldingsOk(db.positions) && StepOk(step)
    requires CashAgrees(db) && PlAgrees(db)
    ensures CashAgrees(Next(db, step)) && PlAgrees(Next(db, step))
  {
    hide Next, ExecuteLeg, CashAgrees, PlAgrees, SameBooks;
    if IsCorporateAction(step) {
      CorporateActionBooks(db, step);
    } else if Trades(db, step) {
      var id, symbol, side, qty, price, fees, d := TradingLeg(db, step);
      LegKeepsMoney(db, id, symbol, side, qty, price, fees);
      SameBooksAgree(d, Next(db, step));
    } else {
      UntradedBooks(db, step);
      SameBooksAgree(db, Next(db, step));
    }
  }

  // ----- ledger and cash against trades, fees included -----

  /** What the ledger rows booked for an order come to: all of them, or those with one reason. */
  function BookedFor(id: Id, reason: Option<Reason>, ledger: seq<Movement>): real {
    if ledger == [] then 0.0
    else
      var last := ledger[|ledger| - 1];
      BookedFor(id, reason, ledger[..|ledger| - 1]) +
        if last.orderId == Some(id) && (reason.None? || reason.value == last.reason) then last.amount else 0.0
  }

  /** What they should come to over the order's trades. */
  function Traded(id: Id, reason: Option<Reason>): Measure {
    if reason.None? then CashOf(id) else EntryOf(id, reason.value)
  }

  /** The rows booked for each order, reason by reason and together, are what its trades took and brought in. */
  ghost predicate OrdersBooked(db: Db) {
    forall id, reason :: BookedFor(id, reason, db.ledger) == TradeSum(Traded(id, reason), db.trades)
  }

  /** Cash is the capital paid in, what the trades took and brought in, dividends and subscriptions. */
  ghost predicate CashIsTraded(db: Db) {
    db.cash == ReasonSum(InitialCapital, db.ledger) + TradeSum(AllCash, db.trades) + ReasonSum(Dividend, db.ledger)
               + ReasonSum(Adjustment, db.ledger)
  }

  lemma BookedSnoc(id: Id, reason: Option<Reason>, ledger: seq<Movement>, m: Movement)
    ensures BookedFor(id, reason, ledger + [m]) == BookedFor(id, reason, ledger) +
            if m.orderId == Some(id) && (reason.None? || reason.value == m.reason) then m.amount else 0.0
  {
    assert (ledger + [m])[..|ledger|] == ledger;
  }

  /** A principal row followed by an optional fee row of the same order. */
  lemma BookedLeg(ledger: seq<Movement>, m: Movement, fees: real, feeReason: Reason, owner: Id, id: Id,
                  reason: Option<Reason>)
    requires m.orderId == Some(owner)
    ensures BookedFor(id, reason, ledger + [m] + FeeRow(fees, feeReason, owner)) ==
            BookedFor(id, reason, ledger) +
            (if owner == id && (reason.None? || reason.value == m.reason) then m.amount else 0.0) +
            (if owner == id && (reason.None? || reason.value == feeReason) then -fees else 0.0)
  {
    BookedSnoc(id, reason, ledger, m);
    if fees != 0.0 {
      BookedSnoc(id, reason, ledger + [m], Movement(-fees, feeReason, Some(owner)));
    } else {
      assert ledger + [m] + [] == ledger + [m];
    }
  }

  lemma AdjustmentLeg(ledger: seq<Movement>, m: Movement, fees: real, feeReason: Reason, id: Id)
    requires m.reason != Adjustment && feeReason != Adjustment
    ensures ReasonSum(Adjustment, ledger + [m] + FeeRow(fees, feeReason, id)) == ReasonSum(Adjustment, ledger)
  {
    LedgerSnoc(ledger, m);
    if fees != 0.0 {
      LedgerSnoc(ledger + [m], Movement(-fees, feeReason, Some(id)));
    } else {
      assert ledger + [m] + [] == ledger + [m];
    }
  }

  lemma LegCash(db: Db, owner: Id, symbol: Symbol, side: Side, qty: real, price: real, fees: real, d: Db)
    requires HoldingsOk(db.positions) && qty > 0.0
    requires ExecuteLeg(db, owner, symbol, side, qty, price, fees) == Commit(d)
    ensures |d.trades| == |db.trades| + 1 && d.trades == db.trades + [d.trades[|db.trades|]]
    ensures var t := d.trades[|db.trades|];
            && d.cash - db.cash == CashFlow(t)
            && forall id, reason :: BookedFor(id, reason, d.ledger) ==
                 BookedFor(id, reason, db.ledger) + Weight(Traded(id, reason), t)
    ensures ReasonSum(Adjustment, d.ledger) == ReasonSum(Adjustment, db.ledger)
  {
    hide BookedFor, ReasonSum, ExecuteLeg, Weight, Traded;
    var t, m, feeReason := LegRows(db, owner, symbol, side, qty, price, fees, d);
    AdjustmentLeg(db.ledger, m, fees, feeReason, owner);
    forall id, reason: Option<Reason>
      ensures BookedFor(id, reason, d.ledger) == BookedFor(id, reason, db.ledger) + Weight(Traded(id, reason), t)
    {
      BookedLeg(db.ledger, m, fees, feeReason, owner, id, reason);
      EntriesOf(t, m, feeReason, id, reason);
    }
  }

  lemma LegRows(db: Db, owner: Id, symbol: Symbol, side: Side, qty: real, price: real, fees: real, d: Db)
    returns (t: Trade, m: Movement, feeReason: Reason)
    requires HoldingsOk(db.positions) && qty > 0.0
    requires ExecuteLeg(db, owner, symbol, side, qty, price, fees) == Commit(d)
    ensures d.trades == db.trades + [t] && d.cash - db.cash == CashFlow(t)
    ensures d.ledger == db.ledger + [m] + FeeRow(fees, feeReason, owner)
    ensures t.orderId == owner && t.fees == fees && RowsOf(t, m, feeReason)
  {
    t := d.trades[|db.trades|];
    m := d.ledger[|db.ledger|];
    feeReason := if side == Buy then BuyFees else SellFees;
  }

  /** The principal row of a trade, and the reason of its fee row. */
  predicate RowsOf(t: Trade, m: Movement, feeReason: Reason) {
    && m.orderId == Some(t.orderId)
    && if t.side == Buy then m.amount == -(t.qty * t.price) && m.reason == BuyPrincipal && feeReason == BuyFees
       else m.amount == t.qty * t.price && m.reason == SellPrincipal && feeReason == SellFees
  }

  lemma EntriesOf(t: Trade, m: Movement, feeReason: Reason, id: Id, reason: Option<Reason>)
    requires RowsOf(t, m, feeReason)
    ensures Weight(Traded(id, reason), t) ==
            (if t.orderId == id && (reason.None? || reason.value == m.reason) then m.amount else 0.0) +
            (if t.orderId == id && (reason.None? || reason.value == feeReason) then -t.fees else 0.0)
  {
  }

  lemma LegKeepsCash(db: Db, owner: Id, symbol: Symbol, side: Side, qty: real, price: real, fees: real, d: Db)
    requires HoldingsOk(db.positions) && qty > 0.0 && OrdersBooked(db) && CashIsTraded(db)
    requires ExecuteLeg(db, owner, symbol, side, qty, price, fees) == Commit(d)
    ensures OrdersBooked(d) && CashIsTraded(d)
  {
    hide ExecuteLeg, TradeSum, BookedFor, ReasonSum, LedgerSum, Weight;
    LegEffect(db, owner, symbol, side, qty, price, fees, d);
    LegCash(db, owner, symbol, side, qty, price, fees, d);
    var t := d.trades[|db.trades|];
    TradeSumSnoc(AllCash, db.trades, t);
    CashWeight(t);
    forall id, reason: Option<Reason>
      ensures BookedFor(id, reason, d.ledger) == TradeSum(Traded(id, reason), d.trades)
    {
      TradeSumSnoc(Traded(id, reason), db.trades, t);
    }
  }

  lemma CashWeight(t: Trade)
    ensures Weight(AllCash, t) == CashFlow(t)
  {
  }

  lemma CorporateActionCash(db: Db, step: Step)
    requires HoldingsOk(db.positions) && IsCorporateAction(step) && OrdersBooked(db) && CashIsTraded(db)
    ensures OrdersBooked(Next(db, step)) && CashIsTraded(Next(db, step))
  {
    hide TradeSum, BookedFor, ReasonSum, LedgerSum;
    var d := Next(db, step);
    if (step.RightsStep? || step.DividendStep?) && d != db {
      var m := d.ledger[|db.ledger|];
      LedgerSnoc(db.ledger, m);
      forall id, reason: Option<Reason>
        ensures BookedFor(id, reason, d.ledger) == TradeSum(Traded(id, reason), d.trades)
      {
        BookedSnoc(id, reason, db.ledger, m);
      }
    }
  }

  lemma SameBooksBooked(a: Db, b: Db)
    requires SameBooks(a, b) && OrdersBooked(a) && CashIsTraded(a)
    ensures OrdersBooked(b) && CashIsTraded(b)
  {
  }

  /** Every transaction, on any snapshot, keeps cash and the orders' ledger rows what the trades make them. */
  lemma CashTradedNext(db: Db, step: Step)
    requires HoldingsOk(db.positions) && StepOk(step)
    requires OrdersBooked(db) && CashIsTraded(db)
    ensures OrdersBooked(Next(db, step)) && CashIsTraded(Next(db, step))
  {
    hide Next, ExecuteLeg, OrdersBooked, CashIsTraded, SameBooks;
    if IsCorporateAction(step) {
      CorporateActionCash(db, step);
    } else if Trades(db, step) {
      var id, symbol, side, qty, price, fees, d := TradingLeg(db, step);
      LegKeepsCash(db, id, symbol, side, qty, price, fees, d);
      SameBooksBooked(d, Next(db, step));
    } else {
      UntradedBooks(db, step);
      SameBooksBooked(db, Next(db, step));
    }
  }

  // ----- orders against trades -----

  lemma OrderSumsSnoc(id: Id, trades: seq<Trade>, t: Trade)
    ensures TradeSum(QtyOf(id), trades + [t]) == TradeSum(QtyOf(id), trades) + if t.orderId == id then t.qty else 0.0
    ensures TradeSum(FeesOf(id), trades + [t]) == TradeSum(FeesOf(id), trades) + if t.orderId == id then t.fees else 0.0
    ensures TradeSum(PlOf(id), trades + [t]) ==
            TradeSum(PlOf(id), trades) + if t.orderId == id then t.realizedPl else 0.0
    ensures TradeSum(NotionalOf(id), trades + [t]) == TradeSum(NotionalOf(id), trades) +
            if t.orderId == id then t.qty * t.price else 0.0
  {
    TradeSumSnoc(QtyOf(id), trades, t);
    TradeSumSnoc(FeesOf(id), trades, t);
    TradeSumSnoc(PlOf(id), trades, t);
    TradeSumSnoc(NotionalOf(id), trades, t);
  }

  lemma UntradedRowAgrees(id: Id, o: Order, db: Db)
    requires OrdersAgree(db) && id !in db.orders
    requires o.filledQty == 0.0 && o.feesPaid == 0.0 && o.realizedPl == 0.0
    ensures RowAgrees(id, o, db.trades)
  {
    UntradedSumsToZero(QtyOf(id), db.trades);
    UntradedSumsToZero(FeesOf(id), db.trades);
    UntradedSumsToZero(PlOf(id), db.trades);
    UntradedSumsToZero(NotionalOf(id), db.trades);
  }

  lemma OtherRowAgrees(id: Id, before: Order, after: Order, trades: seq<Trade>, t: Trade)
    requires RowAgrees(id, before, trades) && SameFills(after, before) && t.orderId != id
    ensures RowAgrees(id, after, trades + [t])
  {
    OrderSumsSnoc(id, trades, t);
  }

  /** Appending one trade of `t.orderId` keeps every row in agreement when that row absorbs it
      and no other row's fill figures move. */
  lemma TradeAbsorbed(db: Db, d: Db, t: Trade)
    requires OrdersAgree(db)
    requires d.trades == db.trades + [t] && t.orderId in d.orders
    requires forall i :: i in db.orders ==> i in d.orders
    requires forall i :: i in d.orders && i != t.orderId ==> i in db.orders && SameFills(d.orders[i], db.orders[i])
    requires RowAgrees(t.orderId, d.orders[t.orderId], d.trades)
    ensures OrdersAgree(d)
  {
    forall i | i in d.orders ensures RowAgrees(i, d.orders[i], d.trades) {
      if i != t.orderId {
        OtherRowAgrees(i, db.orders[i], d.orders[i], db.trades, t);
      }
    }
    forall k | 0 <= k < |d.trades| ensures d.trades[k].orderId in d.orders {
      if k < |db.trades| {
        assert db.trades[k].orderId in db.orders;
      }
    }
  }

  /** The snapshot carries the fill figures the row carries. */
  predicate FillsUpToDate(snapshot: Order, row: Order) {
    && snapshot.filledQty == row.filledQty && snapshot.feesPaid == row.feesPaid
    && snapshot.realizedPl == row.realizedPl
    && snapshot.filledQty * snapshot.filledAvgPrice.GetOr(0.0) == row.filledQty * row.filledAvgPrice.GetOr(0.0)
  }

  lemma AverageTimesQuantity(filled: real, avg: real, slice: real, price: real)
    requires filled >= 0.0 && slice > 0.0
    ensures AverageFill(filled, avg, slice, price) * (filled + slice) == filled * avg + slice * price
  {
    QuotientTimes(filled * avg + slice * price, filled + slice);
  }

  lemma SliceAbsorbedIff(id: Id, row: Order, o: Order, fillQty: Option<real>, price: real, fees: real, pl: real,
                         trades: seq<Trade>)
    requires o.filledQty >= 0.0 && SliceQty(o, fillQty) > 0.0
    requires RowAgrees(id, row, trades)
    ensures RowAgrees(id, FilledRow(row, o, fillQty, price, fees, pl),
                      trades + [Trade(id, o.symbol, o.side, SliceQty(o, fillQty), price, fees, pl)])
            <==> FillsUpToDate(o, row)
  {
    var slice := SliceQty(o, fillQty);
    hide Completes, SliceQty, TradeSum;
    OrderSumsSnoc(id, trades, Trade(id, o.symbol, o.side, slice, price, fees, pl));
    AverageTimesQuantity(o.filledQty, o.filledAvgPrice.GetOr(0.0), slice, price);
  }

  /** Only the open siblings of `child` moved, and none of their fills or terms. */
  ghost predicate SiblingsAdjusted(rows: map<Id, Order>, rows': map<Id, Order>, parent: Id, child: Id) {
    && (forall i :: i in rows' <==> i in rows)
    && (forall i :: i in rows ==> SameFills(rows'[i], rows[i]) && SameTerms(rows'[i], rows[i]))
    && (forall i :: i in rows && (i == child || !IsOpenChild(rows[i], parent)) ==> rows'[i] == rows[i])
  }

  lemma RebalanceRows(rows: map<Id, Order>, parent: Id, child: Id, filledSoFar: real)
    ensures SiblingsAdjusted(rows, RebalanceSiblings(rows, parent, child, filledSoFar), parent, child)
  {
  }

  lemma CancelRows(rows: map<Id, Order>, parent: Id, child: Id)
    ensures SiblingsAdjusted(rows, CancelSiblings(rows, parent, child), parent, child)
  {
  }

  lemma AdjustedTwice(rows: map<Id, Order>, rows': map<Id, Order>, rows'': map<Id, Order>, parent: Id, child: Id)
    requires SiblingsAdjusted(rows, rows', parent, child) && SiblingsAdjusted(rows', rows'', parent, child)
    ensures SiblingsAdjusted(rows, rows'', parent, child)
  {
  }

  lemma SettledRows(rows: map<Id, Order>, parent: Id, child: Id, filledSoFar: real, completed: bool)
    ensures SiblingsAdjusted(rows, SettleChild(rows, parent, child, filledSoFar, completed), parent, child)
  {
    RebalanceRows(rows, parent, child, filledSoFar);
    if completed {
      var rebalanced := RebalanceSiblings(rows, parent, child, filledSoFar);
      CancelRows(rebalanced, parent, child);
      AdjustedTwice(rows, rebalanced, CancelSiblings(rebalanced, parent, child), parent, child);
    }
  }

  lemma ChildSliceRows(rows: map<Id, Order>, id: Id, o: Order, fillQty: Option<real>)
    ensures if o.parent.None? then AfterChildSlice(rows, id, o, fillQty) == rows
            else SiblingsAdjusted(rows, AfterChildSlice(rows, id, o, fillQty), o.parent.value, id)
  {
    hide SettleChild;
    if o.parent.Some? {
      SettledRows(rows, o.parent.value, id, o.filledQty + SliceQty(o, fillQty), Completes(o, fillQty));
    }
  }

  lemma LimitFillRows(rows: map<Id, Order>, id: Id, o: Order, fillQty: Option<real>, price: real, fees: real, pl: real)
    requires id in rows && o.filledQty >= 0.0 && SliceQty(o, fillQty) > 0.0
    ensures var rows' := RowsAfterLimitFill(rows, id, o, fillQty, price, fees, pl);
            && rows'.Keys == rows.Keys
            && rows'[id] == FilledRow(rows[id], o, fillQty, price, fees, pl)
            && (forall i :: i in rows && i != id ==> SameFills(rows'[i], rows[i]))
            && (forall i :: i in rows ==> SameTerms(rows'[i], rows[i]))
            && (forall i :: i in rows && i != id && (o.parent.None? || !IsOpenChild(rows[i], o.parent.value)) ==>
                rows'[i] == rows[i])
  {
    hide AfterChildSlice;
    ChildSliceRows(rows[id := FilledRow(rows[id], o, fillQty, price, fees, pl)], id, o, fillQty);
  }

  /** A committed limit slice computed from an arbitrary snapshot keeps orders and trades in
      agreement exactly when the snapshot's fill figures are still those of the row. The claim's
      guard, which tests only the row's status, does not ensure it. */
  lemma LimitFillAgreesIffUpToDate(db: Db, id: Id, o: Order, price: real, fees: real, fillQty: Option<real>)
    requires HoldingsOk(db.positions) && OrdersAgree(db) && RowOk(o) && SliceQty(o, fillQty) > 0.0
    requires LimitFill(db, id, o, price, fees, fillQty).Commit?
    ensures OrdersAgree(LimitFill(db, id, o, price, fees, fillQty).db) <==> FillsUpToDate(o, db.orders[id])
  {
    var d := LimitFill(db, id, o, price, fees, fillQty).db;
    var slice := SliceQty(o, fillQty);
    var pl := LegPl(db, o.side, o.symbol, slice, price, fees);
    LegEffect(db, id, o.symbol, o.side, slice, price, fees,
              ExecuteLeg(db, id, o.symbol, o.side, slice, price, fees).db);
    LimitFillRows(db.orders, id, o, fillQty, price, fees, pl);
    SliceAbsorbedIff(id, db.orders[id], o, fillQty, price, fees, pl, db.trades);
    if FillsUpToDate(o, db.orders[id]) {
      TradeAbsorbed(db, d, Trade(id, o.symbol, o.side, slice, price, fees, pl));
    } else {
      assert !RowAgrees(id, d.orders[id], d.trades);
    }
  }

  /** One trade that makes up the whole of an order not traded before. */
  lemma WholeFillAgrees(id: Id, before: Order, row: Order, t: Trade, trades: seq<Trade>)
    requires RowAgrees(id, before, trades)
    requires before.filledQty == 0.0 && before.feesPaid == 0.0 && before.realizedPl == 0.0
    requires t.orderId == id && row.filledAvgPrice == Some(t.price)
    requires row.filledQty == t.qty && row.feesPaid == t.fees && row.realizedPl == t.realizedPl
    ensures RowAgrees(id, row, trades + [t])
  {
    OrderSumsSnoc(id, trades, t);
  }

  predicate Unfilled(o: Order) {
    o.filledQty == 0.0 && o.feesPaid == 0.0 && o.realizedPl == 0.0
  }

  /** Nothing has been traded for a pending row. */
  ghost predicate PendingUnfilled(rows: map<Id, Order>) {
    forall i :: i in rows && rows[i].status == Pending ==> Unfilled(rows[i])
  }

  lemma MarketFillRows(rows: map<Id, Order>, id: Id, o: Order, price: real, fees: real, pl: real)
    requires id in rows && Unfilled(rows[id])
    ensures var rows' := RowsAfterMarketFill(rows, id, o, price, fees, pl);
            && rows'.Keys == rows.Keys
            && rows'[id] == rows[id].(status := Filled, filledQty := o.qty, filledAvgPrice := Some(price),
                                      feesPaid := fees, realizedPl := pl)
            && forall i :: i in rows && i != id ==> SameFills(rows'[i], rows[i])
  {
  }

  /** A market fill keeps the agreement whatever its snapshot: a row still pending carries no fill
      figures for the snapshot to be wrong about. */
  lemma FillPendingKeepsOrders(db: Db, id: Id, o: Order, price: real, fees: real)
    requires HoldingsOk(db.positions) && RowOk(o) && OrdersAgree(db) && PendingUnfilled(db.orders)
    ensures OrdersAgree(After(db, FillPendingMarket(db, id, o, price, fees)))
  {
    var tx := FillPendingMarket(db, id, o, price, fees);
    if tx.Commit? && tx.db != db {
      var pl := LegPl(db, o.side, o.symbol, o.qty, price, fees);
      var t := Trade(id, o.symbol, o.side, o.qty, price, fees, pl);
      LegEffect(db, id, o.symbol, o.side, o.qty, price, fees,
                ExecuteLeg(db, id, o.symbol, o.side, o.qty, price, fees).db);
      MarketFillRows(db.orders, id, o, price, fees, pl);
      WholeFillAgrees(id, db.orders[id], tx.db.orders[id], t, db.trades);
      TradeAbsorbed(db, tx.db, t);
    }
  }

  lemma MarketKeepsOrders(db: Db, step: Step)
    requires HoldingsOk(db.positions) && OrdersAgree(db) && step.MarketStep?
    ensures OrdersAgree(Next(db, step))
  {
    hide ApplyBuy, ApplySell, ExecuteLeg, LegPl, RowAgrees;
    var tx := Transact(db, step);
    if tx.Commit? {
      var leg := ExecuteLeg(db, step.id, step.symbol, step.side, step.qty, step.price, step.fees);
      LegEffect(db, step.id, step.symbol, step.side, step.qty, step.price, step.fees, leg.db);
      var t := Trade(step.id, step.symbol, step.side, step.qty, step.price, step.fees,
                     LegPl(db, step.side, step.symbol, step.qty, step.price, step.fees));
      var unfilled := tx.db.orders[step.id].(filledQty := 0.0, feesPaid := 0.0, realizedPl := 0.0);
      UntradedRowAgrees(step.id, unfilled, db);
      WholeFillAgrees(step.id, unfilled, tx.db.orders[step.id], t, db.trades);
      TradeAbsorbed(db, tx.db, t);
    }
  }

  /** A transaction without a trade keeps the agreement when it moves no fill figure
      and any row it adds is unfilled. */
  lemma NoTradeKeepsOrders(db: Db, d: Db)
    requires OrdersAgree(db) && d.trades == db.trades
    requires forall i :: i in db.orders ==> i in d.orders && SameFills(d.orders[i], db.orders[i])
    requires forall i :: i in d.orders && i !in db.orders ==> RowOk(d.orders[i]) && d.orders[i].status == Pending
    ensures OrdersAgree(d)
  {
    forall i | i in d.orders ensures RowAgrees(i, d.orders[i], d.trades) {
      if i in db.orders {
        assert RowAgrees(i, db.orders[i], db.trades);
      } else {
        UntradedRowAgrees(i, d.orders[i], db);
      }
    }
  }

  predicate IsCorporateAction(step: Step) {
    step.SplitStep? || step.BonusStep? || step.RightsStep? || step.DividendStep?
  }

  lemma QueueKeepsOrders(db: Db, step: Step)
    requires HoldingsOk(db.positions) && OrdersAgree(db)
    requires step.QueueStep? || step.BracketStep?
    ensures OrdersAgree(Next(db, step))
  {
    hide OrdersAgree;
    NoTradeKeepsOrders(db, Next(db, step));
  }

  lemma LifeCycleKeepsOrders(db: Db, step: Step)
    requires HoldingsOk(db.positions) && StepOk(step) && OrdersAgree(db)
    requires step.TriggerStep? || step.CancelStep? || step.ExpireStep?
    ensures OrdersAgree(Next(db, step))
  {
    hide OrdersAgree;
    NoTradeKeepsOrders(db, Next(db, step));
  }

  lemma CorporateActionsLeaveOrders(db: Db, step: Step)
    requires HoldingsOk(db.positions) && IsCorporateAction(step)
    ensures Next(db, step).orders == db.orders && Next(db, step).trades == db.trades
  {
  }

  /** If the step is a limit slice that trades, the figures it was computed from are the row's. */
  predicate UpToDate(db: Db, step: Step)
    requires HoldingsOk(db.positions) && StepOk(step)
  {
    step.LimitFillStep? && Trades(db, step) ==>
      step.id in db.orders && FillsUpToDate(step.snapshot, db.orders[step.id])
  }

  lemma CurrentIsUpToDate(db: Db, step: Step)
    requires HoldingsOk(db.positions) && StepOk(step) && Current(db, step)
    ensures UpToDate(db, step)
  {
  }

  lemma LimitFillTrades(db: Db, step: Step)
    requires HoldingsOk(db.positions) && StepOk(step) && step.LimitFillStep?
    ensures Trades(db, step) <==> SliceQty(step.snapshot, step.fillQty) > 0.0 && Transact(db, step).Commit?
    ensures !Trades(db, step) ==> Next(db, step) == db
  {
    var o, slice := step.snapshot, SliceQty(step.snapshot, step.fillQty);
    if slice > 0.0 && Transact(db, step).Commit? {
      LegEffect(db, step.id, o.symbol, o.side, slice, step.price, step.fees,
                ExecuteLeg(db, step.id, o.symbol, o.side, slice, step.price, step.fees).db);
    }
  }

  /** One transaction keeps orders and trades in agreement exactly when, if it is a limit slice that
      trades, its snapshot's fill figures are the row's. No other snapshot need be up to date. */
  lemma OrdersAgreeNextIff(db: Db, step: Step)
    requires HoldingsOk(db.positions) && StepOk(step)
    requires OrdersAgree(db) && PendingUnfilled(db.orders)
    ensures OrdersAgree(Next(db, step)) <==> UpToDate(db, step)
  {
    if step.MarketStep? {
      MarketKeepsOrders(db, step);
    } else if step.LimitFillStep? {
      LimitFillTrades(db, step);
      if Trades(db, step) {
        LimitFillAgreesIffUpToDate(db, step.id, step.snapshot, step.price, step.fees, step.fillQty);
      }
    } else if step.FillPendingStep? {
      FillPendingKeepsOrders(db, step.id, step.snapshot, step.price, step.fees);
    } else if step.QueueStep? || step.BracketStep? {
      QueueKeepsOrders(db, step);
    } else if IsCorporateAction(step) {
      CorporateActionsLeaveOrders(db, step);
      NoTradeKeepsOrders(db, Next(db, step));
    } else {
      LifeCycleKeepsOrders(db, step);
    }
  }

  lemma LimitFillKeepsUnfilled(db: Db, step: Step)
    requires HoldingsOk(db.positions) && StepOk(step) && step.LimitFillStep? && PendingUnfilled(db.orders)
    ensures PendingUnfilled(Next(db, step).orders)
  {
    LimitFillTrades(db, step);
    if Trades(db, step) {
      var o := step.snapshot;
      var pl := LegPl(db, o.side, o.symbol, SliceQty(o, step.fillQty), step.price, step.fees);
      PendingStays(db.orders, step.id, o, step.fillQty, step.price, step.fees, pl);
    }
  }

  lemma PendingStays(rows: map<Id, Order>, id: Id, o: Order, fillQty: Option<real>, price: real, fees: real, pl: real)
    requires id in rows && o.filledQty >= 0.0 && SliceQty(o, fillQty) > 0.0 && PendingUnfilled(rows)
    ensures PendingUnfilled(RowsAfterLimitFill(rows, id, o, fillQty, price, fees, pl))
  {
    LimitFillRows(rows, id, o, fillQty, price, fees, pl);
  }

  lemma PendingUnfilledNext(db: Db, step: Step)
    requires HoldingsOk(db.positions) && StepOk(step) && PendingUnfilled(db.orders)
    ensures PendingUnfilled(Next(db, step).orders)
  {
    if step.LimitFillStep? {
      LimitFillKeepsUnfilled(db, step);
    } else if IsCorporateAction(step) {
      CorporateActionsLeaveOrders(db, step);
    }
  }

  // ----- what trades -----

  /** A buyer has cash for price and fees; a seller holds the shares, and the fees are covered. */
  ghost predicate CanSettle(db: Db, side: Side, symbol: Symbol, qty: real, price: real, fees: real) {
    if side == Buy then qty * price + fees <= db.cash
    else qty <= HeldQty(db, symbol) && fees <= db.cash + qty * price
  }

  lemma LegCommitsIff(db: Db, id: Id, symbol: Symbol, side: Side, qty: real, price: real, fees: real)
    requires HoldingsOk(db.positions) && qty > 0.0 && price > 0.0 && fees >= 0.0
    ensures ExecuteLeg(db, id, symbol, side, qty, price, fees).Commit? <==>
            CanSettle(db, side, symbol, qty, price, fees)
  {
    if side == Buy {
      PositiveCost(db, symbol, qty, price, fees);
    }
  }

  lemma PositiveCost(db: Db, symbol: Symbol, qty: real, price: real, fees: real)
    requires HoldingsOk(db.positions) && qty > 0.0 && price > 0.0 && fees >= 0.0
    ensures OpeningCost(qty, price, fees) > 0.0
    ensures symbol in db.positions ==>
              AverageCost(db.positions[symbol].qty, db.positions[symbol].avgCost, qty, price, fees) > 0.0
  {
    assert price * qty > 0.0;
    QuotientPositive(price * qty + fees, qty);
    if symbol in db.positions {
      var held := db.positions[symbol];
      assert held.avgCost * held.qty > 0.0;
      QuotientPositive(held.avgCost * held.qty + price * qty + fees, held.qty + qty);
    }
  }

  lemma FillTradesIff(db: Db, step: Step)
    requires HoldingsOk(db.positions) && StepOk(step) && IsFill(step) && step.price > 0.0 && step.fees >= 0.0
    ensures var o := step.snapshot;
            var qty := if step.LimitFillStep? then SliceQty(o, step.fillQty) else o.qty;
            Trades(db, step) <==>
            && step.id in db.orders && qty > 0.0 && CanSettle(db, o.side, o.symbol, qty, step.price, step.fees)
            && if step.LimitFillStep? then Open(db.orders[step.id])
               else o.status == Pending && db.orders[step.id].status == Pending
  {
    hide ExecuteLeg, CanSettle;
    var o := step.snapshot;
    var qty := if step.LimitFillStep? then SliceQty(o, step.fillQty) else o.qty;
    if qty > 0.0 {
      LegCommitsIff(db, step.id, o.symbol, o.side, qty, step.price, step.fees);
      var leg := ExecuteLeg(db, step.id, o.symbol, o.side, qty, step.price, step.fees);
      if leg.Commit? {
        LegEffect(db, step.id, o.symbol, o.side, qty, step.price, step.fees, leg.db);
      }
    }
  }

  /** When a transaction trades, at a positive price with fees that are none or more: a limit slice if and only if
      it is for something, its order is open, and the account can settle it; a queued market fill if and only if its
      order was read pending, is pending still, and the account can settle the whole of it; an immediate market
      order if and only if it is for something, new, and can be settled. Nothing else trades. */
  lemma TradesIff(db: Db, step: Step)
    requires HoldingsOk(db.positions) && StepOk(step)
    requires step.MarketStep? || IsFill(step) ==> step.price > 0.0 && step.fees >= 0.0
    ensures Trades(db, step) <==>
            match step
            case MarketStep(id, symbol, side, qty, price, fees, _, _, _) =>
              qty > 0.0 && id !in db.orders && CanSettle(db, side, symbol, qty, price, fees)
            case LimitFillStep(id, o, price, fees, fillQty) =>
              && id in db.orders && Open(db.orders[id]) && SliceQty(o, fillQty) > 0.0
              && CanSettle(db, o.side, o.symbol, SliceQty(o, fillQty), price, fees)
            case FillPendingStep(id, o, price, fees) =>
              && id in db.orders && db.orders[id].status == Pending && o.status == Pending
              && CanSettle(db, o.side, o.symbol, o.qty, price, fees)
            case _ => false
  {
    hide ExecuteLeg, CanSettle;
    if IsFill(step) {
      FillTradesIff(db, step);
    } else if step.MarketStep? && step.qty > 0.0 {
      LegCommitsIff(db, step.id, step.symbol, step.side, step.qty, step.price, step.fees);
      var leg := ExecuteLeg(db, step.id, step.symbol, step.side, step.qty, step.price, step.fees);
      if leg.Commit? {
        LegEffect(db, step.id, step.symbol, step.side, step.qty, step.price, step.fees, leg.db);
      }
    } else if IsCorporateAction(step) {
      CorporateActionsLeaveOrders(db, step);
    }
  }

  // ----- positions against net traded quantity -----

  /** Were it to trade, the step would not sell a holding down to a dust remainder, which is dropped. */
  ghost predicate NoSliver(db: Db, step: Step)
    requires StepOk(step)
  {
    match step
    case MarketStep(_, symbol, side, qty, _, _, _, _, _) => side == Sell ==> !Sliver(db, symbol, qty)
    case LimitFillStep(_, o, _, _, fillQty) => o.side == Sell ==> !Sliver(db, o.symbol, SliceQty(o, fillQty))
    case FillPendingStep(_, o, _, _) => o.side == Sell ==> !Sliver(db, o.symbol, o.qty)
    case _ => true
  }

  /** The step drops no dust: it does not trade, or it leaves none. */
  ghost predicate DustFree(db: Db, step: Step)
    requires HoldingsOk(db.positions) && StepOk(step)
  {
    Trades(db, step) ==> NoSliver(db, step)
  }

  /** Shares of the symbol traded but no longer held. */
  ghost function Missing(db: Db, s: Symbol): real {
    TradeSum(NetOf(s), db.trades) - HeldQty(db, s)
  }

  lemma LegMissing(db: Db, id: Id, symbol: Symbol, side: Side, qty: real, price: real, fees: real, d: Db)
    requires HoldingsOk(db.positions) && qty > 0.0
    requires ExecuteLeg(db, id, symbol, side, qty, price, fees) == Commit(d)
    ensures forall s :: s != symbol ==> Missing(d, s) == Missing(db, s)
    ensures Missing(d, symbol) >= Missing(db, symbol)
    ensures Missing(d, symbol) == Missing(db, symbol) <==> side == Buy || !Sliver(db, symbol, qty)
  {
    hide ExecuteLeg, TradeSum, LegPl;
    LegEffect(db, id, symbol, side, qty, price, fees, d);
    forall s ensures TradeSum(NetOf(s), d.trades) == TradeSum(NetOf(s), db.trades) +
                     if s != symbol then 0.0 else if side == Buy then qty else -qty
    {
      TradeSumSnoc(NetOf(s), db.trades, d.trades[|db.trades|]);
    }
  }

  lemma SameMissing(a: Db, b: Db)
    requires SameBooks(a, b)
    ensures forall s :: Missing(a, s) == Missing(b, s)
  {
  }

  /** No transaction but a corporate action ever lets a position exceed its net traded quantity more
      than before, and one that drops dust, and no other, leaves a position further short of it. */
  lemma MissingNext(db: Db, step: Step)
    requires HoldingsOk(db.positions) && StepOk(step) && !IsCorporateAction(step)
    ensures forall s :: Missing(Next(db, step), s) >= Missing(db, s)
    ensures (forall s :: Missing(Next(db, step), s) == Missing(db, s)) <==> DustFree(db, step)
  {
    hide Missing, Next, ExecuteLeg, SameBooks, NoSliver;
    if Trades(db, step) {
      var id, symbol, side, qty, price, fees, d := TradingLeg(db, step);
      LegMissing(db, id, symbol, side, qty, price, fees, d);
      SameMissing(d, Next(db, step));
      assert Missing(Next(db, step), symbol) == Missing(d, symbol);
    } else {
      UntradedBooks(db, step);
      SameMissing(db, Next(db, step));
    }
  }

  /** Every transaction but a corporate action keeps each position equal to its net traded quantity
      exactly when it drops no dust. */
  lemma PositionsAgreeNextIff(db: Db, step: Step)
    requires HoldingsOk(db.positions) && StepOk(step) && !IsCorporateAction(step)
    requires PositionsAgree(db)
    ensures PositionsAgree(Next(db, step)) <==> DustFree(db, step)
  {
    MissingNext(db, step);
    NoneMissing(db);
    NoneMissing(Next(db, step));
  }

  lemma NoneMissing(db: Db)
    ensures PositionsAgree(db) <==> forall s :: Missing(db, s) == 0.0
  {
    if PositionsAgree(db) {
      forall s ensures Missing(db, s) == 0.0 {
        assert HeldQty(db, s) == TradeSum(NetOf(s), db.trades);
      }
    }
    if forall s :: Missing(db, s) == 0.0 {
      forall s ensures HeldQty(db, s) == TradeSum(NetOf(s), db.trades) {
        assert Missing(db, s) == 0.0;
      }
    }
  }
}
