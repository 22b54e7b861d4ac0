/** Whole runs of transactions, and the agreements that hold after every one of them. */
module Runs {
  import opened Domain
  import opened Wrappers
  import opened Store
  import opened Books
  import opened Value

  ghost predicate Sound(db: Db) {
    HoldingsOk(db.positions) && db.cash >= 0.0
  }

  ghost predicate StepsOk(steps: seq<Step>) {
    forall k :: 0 <= k < |steps| ==> StepOk(steps[k])
  }

  /** The database after the steps; a step that rolls back leaves it alone. */
  ghost function Run(db: Db, steps: seq<Step>): (r: Db)
    requires Sound(db) && StepsOk(steps)
    ensures Sound(r)
  {
    if steps == [] then db
    else
      var last := |steps| - 1;
      NextKeepsHoldings(Run(db, steps[..last]), steps[last]);
      Next(Run(db, steps[..last]), steps[last])
  }

  lemma RunSnoc(db: Db, steps: seq<Step>, step: Step)
    requires Sound(db) && StepsOk(steps) && StepOk(step)
    ensures Run(db, steps + [step]) == Next(Run(db, steps), step)
  {
    assert (steps + [step])[..|steps|] == steps;
  }

  /** Every limit slice that traded was computed from the row's own fill figures. */
  ghost predicate UpToDateAlong(db: Db, steps: seq<Step>)
    requires Sound(db) && StepsOk(steps)
  {
    forall k :: 0 <= k < |steps| ==> UpToDate(Run(db, steps[..k]), steps[k])
  }

  /** Orders and trades agree before the run, after each of its steps, and at its end. */
  ghost predicate OrdersAgreeAlong(db: Db, steps: seq<Step>)
    requires Sound(db) && StepsOk(steps)
  {
    forall n :: 0 <= n <= |steps| ==> OrdersAgree(Run(db, steps[..n]))
  }

  /** No step dropped dust. */
  ghost predicate DustFreeAlong(db: Db, steps: seq<Step>)
    requires Sound(db) && StepsOk(steps)
  {
    if steps == [] then true
    else
      var last := |steps| - 1;
      DustFreeAlong(db, steps[..last]) && DustFree(Run(db, steps[..last]), steps[last])
  }

  lemma PrefixOfPrefix(steps: seq<Step>, k: nat)
    requires |steps| > 0 && k < |steps|
    ensures steps[..|steps| - 1][..k] == steps[..k]
  {
  }

  /** Cash equals the ledger and realized P&L equals the trades' after any run at all, on
      up-to-date snapshots or stale ones. */
  lemma {:induction false} MoneyAgreesAlways(db: Db, steps: seq<Step>)
    requires Sound(db) && StepsOk(steps)
    requires CashAgrees(db) && PlAgrees(db)
    ensures CashAgrees(Run(db, steps)) && PlAgrees(Run(db, steps))
  {
    if steps != [] {
      var last := |steps| - 1;
      MoneyAgreesAlways(db, steps[..last]);
      MoneyAgreesNext(Run(db, steps[..last]), steps[last]);
    }
  }

  /** And cash, and the ledger rows of every order, stay what the trades make them, fees included. */
  lemma {:induction false} CashTradedAlways(db: Db, steps: seq<Step>)
    requires Sound(db) && StepsOk(steps) && OrdersBooked(db) && CashIsTraded(db)
    ensures OrdersBooked(Run(db, steps)) && CashIsTraded(Run(db, steps))
  {
    hide OrdersBooked, CashIsTraded;
    if steps != [] {
      var last := |steps| - 1;
      CashTradedAlways(db, steps[..last]);
      CashTradedNext(Run(db, steps[..last]), steps[last]);
    }
  }

  lemma RunNext(db: Db, steps: seq<Step>, n: nat)
    requires Sound(db) && StepsOk(steps) && n < |steps|
    ensures Run(db, steps[..n + 1]) == Next(Run(db, steps[..n]), steps[n])
  {
    assert steps[..n + 1][..n] == steps[..n];
  }

  lemma {:induction false} UnfilledAlong(db: Db, steps: seq<Step>, n: nat)
    requires Sound(db) && StepsOk(steps) && n <= |steps| && PendingUnfilled(db.orders)
    ensures PendingUnfilled(Run(db, steps[..n]).orders)
  {
    if n > 0 {
      UnfilledAlong(db, steps, n - 1);
      RunNext(db, steps, n - 1);
      PendingUnfilledNext(Run(db, steps[..n - 1]), steps[n - 1]);
    }
  }

  lemma {:induction false} AgreeUpTo(db: Db, steps: seq<Step>, n: nat)
    requires Sound(db) && StepsOk(steps) && n <= |steps|
    requires OrdersAgree(db) && PendingUnfilled(db.orders) && UpToDateAlong(db, steps)
    ensures OrdersAgree(Run(db, steps[..n]))
  {
    if n > 0 {
      AgreeUpTo(db, steps, n - 1);
      UnfilledAlong(db, steps, n - 1);
      RunNext(db, steps, n - 1);
      OrdersAgreeNextIff(Run(db, steps[..n - 1]), steps[n - 1]);
    }
  }

  /** Over any run, whatever its snapshots: orders and trades agree throughout exactly when every
      limit slice that traded was computed from fill figures that were still the row's. */
  lemma OrdersAgreeAlongIff(db: Db, steps: seq<Step>)
    requires Sound(db) && StepsOk(steps)
    requires OrdersAgree(db) && PendingUnfilled(db.orders)
    ensures OrdersAgreeAlong(db, steps) <==> UpToDateAlong(db, steps)
  {
    if UpToDateAlong(db, steps) {
      forall n | 0 <= n <= |steps| ensures OrdersAgree(Run(db, steps[..n])) {
        AgreeUpTo(db, steps, n);
      }
    }
    if OrdersAgreeAlong(db, steps) {
      forall k | 0 <= k < |steps| ensures UpToDate(Run(db, steps[..k]), steps[k]) {
        UnfilledAlong(db, steps, k);
        RunNext(db, steps, k);
        OrdersAgreeNextIff(Run(db, steps[..k]), steps[k]);
      }
    }
  }

  /** Without corporate actions, no position ever comes to exceed its net traded quantity, and as many
      shares go missing as the run drops dust: none exactly when it drops none. */
  lemma {:induction false} MissingAlways(db: Db, steps: seq<Step>)
    requires Sound(db) && StepsOk(steps)
    requires forall k :: 0 <= k < |steps| ==> !IsCorporateAction(steps[k])
    ensures forall s :: Missing(Run(db, steps), s) >= Missing(db, s)
    ensures (forall s :: Missing(Run(db, steps), s) == Missing(db, s)) <==> DustFreeAlong(db, steps)
  {
    hide Missing, DustFree, Next;
    if steps != [] {
      var last := |steps| - 1;
      var middle := Run(db, steps[..last]);
      MissingAlways(db, steps[..last]);
      MissingNext(middle, steps[last]);
      assert Run(db, steps) == Next(middle, steps[last]);
      if !DustFreeAlong(db, steps[..last]) {
        var s :| Missing(middle, s) != Missing(db, s);
        assert Missing(Run(db, steps), s) > Missing(db, s);
      }
    }
  }

  /** From agreement, over any run without corporate actions on any snapshots: positions equal their net
      traded quantity at its end exactly when it dropped no dust on the way. */
  lemma PositionsAgreeIffDustFree(db: Db, steps: seq<Step>)
    requires Sound(db) && StepsOk(steps) && PositionsAgree(db)
    requires forall k :: 0 <= k < |steps| ==> !IsCorporateAction(steps[k])
    ensures PositionsAgree(Run(db, steps)) <==> DustFreeAlong(db, steps)
  {
    hide Missing, DustFreeAlong, Run, PositionsAgree;
    MissingAlways(db, steps);
    NoneMissing(db);
    NoneMissing(Run(db, steps));
  }

  lemma {:induction false} LostAlways(db: Db, steps: seq<Step>)
    requires Sound(db) && StepsOk(steps)
    ensures Lost(Run(db, steps)) >= Lost(db)
    ensures Lost(Run(db, steps)) == Lost(db) <==> DustFreeAlong(db, steps)
  {
    hide Lost, DustFree, Next;
    if steps != [] {
      var last := |steps| - 1;
      LostAlways(db, steps[..last]);
      LostNext(Run(db, steps[..last]), steps[last]);
      assert Run(db, steps) == Next(Run(db, steps[..last]), steps[last]);
    }
  }

  lemma FreshAccountAgrees(capital: real)
    requires capital >= 0.0
    ensures var db := OpenAccount(capital);
            && Sound(db) && CashAgrees(db) && PlAgrees(db) && OrdersAgree(db) && PositionsAgree(db) && Lost(db) == 0.0
            && PendingUnfilled(db.orders) && OrdersBooked(db) && CashIsTraded(db)
  {
    var db := OpenAccount(capital);
    LedgerSnoc([], db.ledger[0]);
    assert [] + [db.ledger[0]] == db.ledger;
  }

  lemma CashIsItsTrades(capital: real, steps: seq<Step>)
    requires capital >= 0.0 && StepsOk(steps) && Sound(OpenAccount(capital))
    ensures var db := Run(OpenAccount(capital), steps);
            && OrdersBooked(db)
            && db.cash == capital + TradeSum(AllCash, db.trades) + ReasonSum(Dividend, db.ledger)
                          + ReasonSum(Adjustment, db.ledger)
  {
    hide Run, OrdersBooked, TradeSum, ReasonSum;
    FreshAccountAgrees(capital);
    CashTradedAlways(OpenAccount(capital), steps);
    OnlyOpeningCapital(capital, steps);
  }

  /** From opening, over any run on any snapshots: cash equals the ledger and realized P&L the trades'; cash is
      the opening capital, less price and fees of every buy, plus price less fees of every sale, plus dividends
      and subscriptions, and each order's ledger rows are just that over its own trades, reason by reason; each
      order equals the sum of its trades at every point of the run exactly when every limit slice that
      traded was up to date; and without corporate actions each position equals its net traded quantity
      exactly when no dust was dropped. */
  lemma {:induction false} FourStoresAgree(capital: real, steps: seq<Step>)
    requires capital >= 0.0 && StepsOk(steps)
    ensures var start := OpenAccount(capital); var db := Run(start, steps);
            && CashAgrees(db) && PlAgrees(db) && OrdersBooked(db)
            && db.cash == capital + TradeSum(AllCash, db.trades) + ReasonSum(Dividend, db.ledger)
                          + ReasonSum(Adjustment, db.ledger)
            && (OrdersAgreeAlong(start, steps) <==> UpToDateAlong(start, steps))
            && (UpToDateAlong(start, steps) ==> OrdersAgree(db))
            && ((forall k :: 0 <= k < |steps| ==> !IsCorporateAction(steps[k])) ==>
                  (PositionsAgree(db) <==> DustFreeAlong(start, steps)))
  {
    hide OrdersBooked, CashAgrees, PlAgrees, OrdersAgree, PositionsAgree, PendingUnfilled, DustFreeAlong, TradeSum,
      ReasonSum;
    var start := OpenAccount(capital);
    FreshAccountAgrees(capital);
    MoneyAgreesAlways(start, steps);
    CashIsItsTrades(capital, steps);
    OrdersAgreeAlongIff(start, steps);
    assert steps[..|steps|] == steps;
    if forall k :: 0 <= k < |steps| ==> !IsCorporateAction(steps[k]) {
      PositionsAgreeIffDustFree(start, steps);
    }
  }

  lemma {:induction false} OnlyOpeningCapital(capital: real, steps: seq<Step>)
    requires capital >= 0.0 && StepsOk(steps)
    ensures ReasonSum(InitialCapital, Run(OpenAccount(capital), steps).ledger) == capital
  {
    FreshAccountAgrees(capital);
    if steps == [] {
      LedgerSnoc([], OpenAccount(capital).ledger[0]);
      assert [] + [OpenAccount(capital).ledger[0]] == OpenAccount(capital).ledger;
    } else {
      var last := |steps| - 1;
      OnlyOpeningCapital(capital, steps[..last]);
      CapitalUntouched(Run(OpenAccount(capital), steps[..last]), steps[last]);
    }
  }

  lemma ActionsAddNoCapital(db: Db, step: Step)
    requires Sound(db) && IsCorporateAction(step)
    ensures ReasonSum(InitialCapital, Next(db, step).ledger) == ReasonSum(InitialCapital, db.ledger)
  {
    if Next(db, step).ledger != db.ledger {
      LedgerSnoc(db.ledger, Next(db, step).ledger[|db.ledger|]);
    }
  }

  lemma CapitalUntouched(db: Db, step: Step)
    requires Sound(db) && StepOk(step)
    ensures ReasonSum(InitialCapital, Next(db, step).ledger) == ReasonSum(InitialCapital, db.ledger)
  {
    hide Next, ExecuteLeg, ReasonSum;
    if IsCorporateAction(step) {
      ActionsAddNoCapital(db, step);
    } else if Trades(db, step) {
      var id, symbol, side, qty, price, fees, d := TradingLeg(db, step);
      LegEffect(db, id, symbol, side, qty, price, fees, d);
    } else {
      UntradedBooks(db, step);
    }
  }

  /** Over any mix of buys, sells, splits, bonuses, rights and dividends, stale snapshots included: cash
      plus holdings at cost is never more than the opening capital plus realized P&L plus dividends, and
      exactly that if and only if no dust was dropped. So a flat account's realized P&L is its cash gain
      net of dividends on the same condition. */
  lemma {:induction false} ValueConservedIff(capital: real, steps: seq<Step>)
    requires capital >= 0.0 && StepsOk(steps)
    ensures var start := OpenAccount(capital); var db := Run(start, steps);
            var kept, due := db.cash + Basis(db.positions),
              capital + db.realizedPlTotal + ReasonSum(Dividend, db.ledger);
            && kept <= due && (kept == due <==> DustFreeAlong(start, steps))
            && (db.positions == map[] ==>
                  (db.realizedPlTotal == db.cash - capital - ReasonSum(Dividend, db.ledger) <==>
                   DustFreeAlong(start, steps)))
  {
    hide DustFreeAlong;
    FreshAccountAgrees(capital);
    LostAlways(OpenAccount(capital), steps);
    OnlyOpeningCapital(capital, steps);
  }

  // ----- what dust does -----

  const DUSTY_BUY := MarketStep(1, "X", Buy, 1.0000000005, 10.0, 0.0, Day, Delivery, 0)

  const DUSTY_SALE := MarketStep(2, "X", Sell, 1.0, 10.0, 0.0, Day, Delivery, 0)

  lemma BuyThenSell()
    ensures var start := OpenAccount(100.0); var bought := Next(start, DUSTY_BUY); var sold := Next(bought, DUSTY_SALE);
            && Sound(start) && Sound(bought)
            && bought.positions == map["X" := Position(1.0000000005, 10.0)] && sold.positions == map[]
            && Trades(bought, DUSTY_SALE)
  {
    assert map["X" := Position(1.0000000005, 10.0)] - {"X"} == map[];
  }

  /** Buying half a billionth more than a share and selling the share: from opening, two trades that leave
      nothing held, a position out of step with its trades, and less value than was put in. */
  lemma DustSaleLosesValue()
    ensures var start, steps := OpenAccount(100.0), [DUSTY_BUY, DUSTY_SALE];
            && Sound(start) && StepsOk(steps)
            && var db := Run(start, steps);
               && db.positions == map[] && !PositionsAgree(db)
               && db.cash + Basis(db.positions) < 100.0 + db.realizedPlTotal + ReasonSum(Dividend, db.ledger)
  {
    hide Next, PositionsAgree, Basis, OrdersBooked, CashIsTraded;
    var start, steps := OpenAccount(100.0), [DUSTY_BUY, DUSTY_SALE];
    BuyThenSell();
    FreshAccountAgrees(100.0);
    assert steps[..1] == [DUSTY_BUY] && [DUSTY_BUY][..0] == [];
    assert Run(start, [DUSTY_BUY][..0]) == start;
    assert Run(start, steps[..1]) == Next(start, DUSTY_BUY);
    assert !DustFree(Run(start, steps[..1]), DUSTY_SALE);
    ValueConservedIff(100.0, steps);
    PositionsAgreeIffDustFree(start, steps);
  }

  // ----- what a stale snapshot does -----

  const UNFILLED := PendingRow("X", Buy, 10.0, Limit, Some(100.0), None, Day, None, Delivery, 0)

  const FOUR_FILLED := UNFILLED.(status := PartiallyFilled, filledQty := 4.0, filledAvgPrice := Some(100.0))

  const FOUR_BOUGHT := Trade(1, "X", Buy, 4.0, 100.0, 0.0, 0.0)

  const ONCE := Db(1000.0, 0.0, map["X" := Position(4.0, 100.0)], map[1 := FOUR_FILLED], [FOUR_BOUGHT], [])

  lemma OnceAgrees()
    ensures Sound(ONCE) && OrdersAgree(ONCE) && RowOk(UNFILLED) && TradeSum(QtyOf(1), ONCE.trades) == 4.0
  {
    assert [] + [FOUR_BOUGHT] == [FOUR_BOUGHT];
    OrderSumsSnoc(1, [], FOUR_BOUGHT);
  }

  lemma FillsAgain()
    ensures Sound(ONCE)
    ensures var tx := LimitFill(ONCE, 1, UNFILLED, 100.0, 0.0, Some(4.0));
            && tx.Commit? && tx.db.trades == ONCE.trades + [FOUR_BOUGHT] && 1 in tx.db.orders
            && tx.db.orders[1].filledQty == 4.0
  {
  }

  /** Two fills of four shares from the same unfilled snapshot: eight shares trade, the order says four. */
  lemma StaleSnapshotExample() returns (db: Db, o: Order, d: Db)
    ensures Sound(db) && OrdersAgree(db) && RowOk(o)
    ensures LimitFill(db, 1, o, 100.0, 0.0, Some(4.0)) == Commit(d)
    ensures 1 in d.orders && d.orders[1].filledQty == 4.0 && TradeSum(QtyOf(1), d.trades) == 8.0
    ensures !OrdersAgree(d)
  {
    hide OrdersAgree, LimitFill, TradeSum;
    OnceAgrees();
    FillsAgain();
    db, o := ONCE, UNFILLED;
    d := LimitFill(db, 1, o, 100.0, 0.0, Some(4.0)).db;
    LimitFillAgreesIffUpToDate(db, 1, o, 100.0, 0.0, Some(4.0));
    OrderSumsSnoc(1, db.trades, FOUR_BOUGHT);
  }
}
