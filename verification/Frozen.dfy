/** Terminal orders are final, under any interleaving and any stale snapshot. */
module Frozen {
  import opened Domain
  import opened Wrappers
  import opened Store
  import opened Books
  import opened Runs

  function TradesOf(id: Id, trades: seq<Trade>): seq<Trade> {
    if trades == [] then []
    else
      var last := trades[|trades| - 1];
      TradesOf(id, trades[..|trades| - 1]) + if last.orderId == id then [last] else []
  }

  function MovementsOf(id: Id, ledger: seq<Movement>): seq<Movement> {
    if ledger == [] then []
    else
      var last := ledger[|ledger| - 1];
      MovementsOf(id, ledger[..|ledger| - 1]) + if last.orderId == Some(id) then [last] else []
  }

  /** Row `id` is untouched, and no trade or cash movement was booked for it. */
  ghost predicate Untouched(id: Id, before: Db, after: Db) {
    && id in before.orders && id in after.orders && after.orders[id] == before.orders[id]
    && TradesOf(id, after.trades) == TradesOf(id, before.trades)
    && MovementsOf(id, after.ledger) == MovementsOf(id, before.ledger)
  }

  lemma MovementOfOther(id: Id, ledger: seq<Movement>, m: Movement)
    requires m.orderId != Some(id)
    ensures MovementsOf(id, ledger + [m]) == MovementsOf(id, ledger)
  {
    assert (ledger + [m])[..|ledger|] == ledger;
  }

  lemma LegOfOther(db: Db, id: Id, other: Id, symbol: Symbol, side: Side, qty: real, price: real, fees: real)
    requires HoldingsOk(db.positions) && qty > 0.0 && other != id
    requires ExecuteLeg(db, other, symbol, side, qty, price, fees).Commit?
    ensures var d := ExecuteLeg(db, other, symbol, side, qty, price, fees).db;
            TradesOf(id, d.trades) == TradesOf(id, db.trades) && MovementsOf(id, d.ledger) == MovementsOf(id, db.ledger)
  {
    var d := ExecuteLeg(db, other, symbol, side, qty, price, fees).db;
    assert d.trades[..|db.trades|] == db.trades;
    var principal := d.ledger[|db.ledger|];
    MovementOfOther(id, db.ledger, principal);
    if fees != 0.0 {
      var fee := d.ledger[|db.ledger| + 1];
      MovementOfOther(id, db.ledger + [principal], fee);
      assert d.ledger == db.ledger + [principal] + [fee];
    } else {
      assert d.ledger == db.ledger + [principal];
    }
  }

  lemma LimitFillLeavesClosedRows(rows: map<Id, Order>, id: Id, o: Order, fillQty: Option<real>, price: real,
                                  fees: real, pl: real, other: Id)
    requires id in rows && other in rows && other != id && !Open(rows[other])
    requires o.filledQty >= 0.0 && SliceQty(o, fillQty) > 0.0
    ensures other in RowsAfterLimitFill(rows, id, o, fillQty, price, fees, pl)
    ensures RowsAfterLimitFill(rows, id, o, fillQty, price, fees, pl)[other] == rows[other]
  {
  }

  lemma TerminalUntouchedByFill(db: Db, step: Step, id: Id)
    requires Sound(db) && StepOk(step) && IsFill(step)
    requires id in db.orders && !Open(db.orders[id])
    ensures Untouched(id, db, Next(db, step))
  {
    var d := Next(db, step);
    if d != db {
      var o := step.snapshot;
      var qty := if step.LimitFillStep? then SliceQty(o, step.fillQty) else o.qty;
      LegOfOther(db, id, step.id, o.symbol, o.side, qty, step.price, step.fees);
      var pl := LegPl(db, o.side, o.symbol, qty, step.price, step.fees);
      if step.LimitFillStep? {
        LimitFillLeavesClosedRows(db.orders, step.id, o, step.fillQty, step.price, step.fees, pl, id);
      }
    }
  }

  lemma TerminalUntouchedByMarket(db: Db, step: Step, id: Id)
    requires Sound(db) && step.MarketStep?
    requires id in db.orders
    ensures Untouched(id, db, Next(db, step))
  {
    if Next(db, step) != db {
      LegOfOther(db, id, step.id, step.symbol, step.side, step.qty, step.price, step.fees);
    }
  }

  lemma TerminalUntouchedNext(db: Db, step: Step, id: Id)
    requires Sound(db) && StepOk(step)
    requires id in db.orders && !Open(db.orders[id])
    ensures Untouched(id, db, Next(db, step))
  {
    var d := Next(db, step);
    if IsFill(step) {
      TerminalUntouchedByFill(db, step, id);
    } else if step.MarketStep? {
      TerminalUntouchedByMarket(db, step, id);
    } else if IsCorporateAction(step) {
      CorporateActionsLeaveOrders(db, step);
      if d.ledger != db.ledger {
        MovementOfOther(id, db.ledger, d.ledger[|db.ledger|]);
      }
    }
  }

  /** Once an order is filled, cancelled or expired, nothing that runs afterwards (fills computed
      from stale snapshots included) changes its row or moves cash or shares in its name. */
  lemma {:induction false} TerminalOrdersAreFinal(db: Db, steps: seq<Step>, id: Id)
    requires Sound(db) && StepsOk(steps)
    requires id in db.orders && !Open(db.orders[id])
    ensures Untouched(id, db, Run(db, steps))
  {
    if steps != [] {
      var last := |steps| - 1;
      TerminalOrdersAreFinal(db, steps[..last], id);
      TerminalUntouchedNext(Run(db, steps[..last]), steps[last], id);
    }
  }

  // ----- cancelling and expiring -----

  /** Cancelling an open order closes it and every open child it has, and moves nothing else. */
  lemma CancelIsExact(db: Db, id: Id)
    requires Sound(db) && id in db.orders && Open(db.orders[id])
    ensures var d := Next(db, CancelStep(id));
            && d == db.(orders := d.orders) && d.orders.Keys == db.orders.Keys
            && forall i :: i in db.orders ==>
                 d.orders[i] == if i == id || IsOpenChild(db.orders[i], id) then db.orders[i].(status := Cancelled)
                                else db.orders[i]
  {
  }

  /** After a cancel, neither the order nor any of its children ever trades again, whatever runs
      afterwards and on whatever snapshots. */
  lemma {:induction false} CancelledBracketNeverTradesAgain(db: Db, id: Id, member: Id, steps: seq<Step>)
    requires Sound(db) && id in db.orders && Open(db.orders[id]) && StepsOk(steps)
    requires member in db.orders && (member == id || db.orders[member].parent == Some(id))
    ensures Sound(Next(db, CancelStep(id)))
    ensures Untouched(member, Next(db, CancelStep(id)), Run(Next(db, CancelStep(id)), steps))
  {
    NextKeepsHoldings(db, CancelStep(id));
    CancelIsExact(db, id);
    TerminalOrdersAreFinal(Next(db, CancelStep(id)), steps, member);
  }

  /** Day expiry ends every open DAY order exactly when none of them is partially filled: it tests for
      the pending status alone, so a partially filled one stays open overnight. */
  lemma ExpiryEndsTheDayIff(db: Db)
    requires Sound(db)
    ensures var d := Next(db, ExpireStep);
            && (forall i :: i in db.orders ==>
                  i in d.orders && (db.orders[i].tif != Day || db.orders[i].status != Pending ==>
                                    d.orders[i] == db.orders[i]))
            && ((forall i :: i in d.orders && d.orders[i].tif == Day ==> !Open(d.orders[i])) <==>
                (forall i :: i in db.orders && db.orders[i].tif == Day ==> db.orders[i].status != PartiallyFilled))
  {
    var d := Next(db, ExpireStep);
    forall i | i in db.orders && db.orders[i].tif == Day && db.orders[i].status == PartiallyFilled
      ensures i in d.orders && d.orders[i].tif == Day && Open(d.orders[i])
    {
    }
  }

  const DAY_BUY := QueueStep(1, "X", Buy, 10.0, Limit, Some(100.0), None, Day, Delivery, 0)

  const DAY_ROW := PendingRow("X", Buy, 10.0, Limit, Some(100.0), None, Day, None, Delivery, 0)

  const FOUR_OF_TEN := LimitFillStep(1, DAY_ROW, 100.0, 0.0, Some(4.0))

  lemma QueueThenFill()
    ensures var start := OpenAccount(1000.0); var queued := Next(start, DAY_BUY);
            && Sound(start) && Sound(queued) && queued.orders == map[1 := DAY_ROW]
            && var part := Next(queued, FOUR_OF_TEN);
               Sound(part) && 1 in part.orders && part.orders[1].status == PartiallyFilled && part.orders[1].tif == Day
  {
  }

  /** From opening: a DAY order for ten, four of them filled, still open after the day has been expired. */
  lemma PartialDayOrderSurvives()
    ensures var start, steps := OpenAccount(1000.0), [DAY_BUY, FOUR_OF_TEN, ExpireStep];
            && Sound(start) && StepsOk(steps)
            && var db := Run(start, steps); 1 in db.orders && db.orders[1].tif == Day && Open(db.orders[1])
  {
    hide Next;
    var start, steps := OpenAccount(1000.0), [DAY_BUY, FOUR_OF_TEN, ExpireStep];
    QueueThenFill();
    assert steps[..0] == [] && Run(start, steps[..0]) == start;
    RunNext(start, steps, 0);
    RunNext(start, steps, 1);
    RunNext(start, steps, 2);
    assert steps[..3] == steps;
    ExpiryEndsTheDayIff(Run(start, steps[..2]));
  }
}
