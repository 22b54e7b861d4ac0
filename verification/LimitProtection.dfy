/** Over whole runs no limit order ever pays worse than its limit, slice by slice or on average. */
module LimitProtection {
  import opened Domain
  import opened Wrappers
  import opened Slippage
  import opened Store
  import opened Books
  import opened Runs
  import opened Brackets

  /** The price of a limit slice is one the slippage model gives for a price that reached the limit. */
  ghost predicate Crossed(step: Step) {
    step.LimitFillStep? && step.snapshot.limitPrice.Some? ==>
      exists config, last ::
        && NoWorse(step.snapshot.side, last, step.snapshot.limitPrice.value)
        && ApplySlippage(config, step.snapshot.side, Limit, last, step.snapshot.limitPrice, step.snapshot.symbol) ==
           Some(step.price)
  }

  ghost predicate TradeInside(t: Trade, o: Order) {
    t.side == o.side && t.qty > 0.0 && (o.limitPrice.Some? ==> NoWorse(o.side, t.price, o.limitPrice.value))
  }

  ghost predicate TradesInside(db: Db) {
    forall k :: 0 <= k < |db.trades| ==>
      db.trades[k].orderId in db.orders && TradeInside(db.trades[k], db.orders[db.trades[k].orderId])
  }

  /** Side and limit of a row never change. */
  ghost predicate TermsKept(rows: map<Id, Order>, rows': map<Id, Order>) {
    forall i :: i in rows ==> i in rows' && rows'[i].side == rows[i].side && rows'[i].limitPrice == rows[i].limitPrice
  }

  lemma MarketFillKeepsTerms(rows: map<Id, Order>, id: Id, o: Order, price: real, fees: real, pl: real)
    requires id in rows
    ensures TermsKept(rows, RowsAfterMarketFill(rows, id, o, price, fees, pl))
  {
  }

  lemma TermsKeptNext(db: Db, step: Step)
    requires Sound(db) && StepOk(step)
    ensures TermsKept(db.orders, Next(db, step).orders)
  {
    if Next(db, step).orders != db.orders {
      if step.LimitFillStep? {
        var o := step.snapshot;
        LimitFillRows(db.orders, step.id, o, step.fillQty, step.price, step.fees,
                      LegPl(db, o.side, o.symbol, SliceQty(o, step.fillQty), step.price, step.fees));
      } else if step.FillPendingStep? {
        var o := step.snapshot;
        MarketFillKeepsTerms(db.orders, step.id, o, step.price, step.fees,
                             LegPl(db, o.side, o.symbol, o.qty, step.price, step.fees));
      }
    }
  }

  lemma SnocInside(db: Db, d: Db, t: Trade)
    requires TradesInside(db) && TermsKept(db.orders, d.orders)
    requires d.trades == db.trades + [t] && t.orderId in d.orders && TradeInside(t, d.orders[t.orderId])
    ensures TradesInside(d)
  {
  }

  lemma FillTrade(db: Db, step: Step) returns (t: Trade)
    requires Sound(db) && StepOk(step) && IsFill(step) && Next(db, step) != db
    ensures Next(db, step).trades == db.trades + [t]
    ensures t.orderId == step.id && step.id in db.orders && step.id in Next(db, step).orders
    ensures t.side == step.snapshot.side && t.qty > 0.0 && t.price == step.price
  {
    var o := step.snapshot;
    var qty := if step.LimitFillStep? then SliceQty(o, step.fillQty) else o.qty;
    LegEffect(db, step.id, o.symbol, o.side, qty, step.price, step.fees,
              ExecuteLeg(db, step.id, o.symbol, o.side, qty, step.price, step.fees).db);
    t := Trade(step.id, o.symbol, o.side, qty, step.price, step.fees,
               LegPl(db, o.side, o.symbol, qty, step.price, step.fees));
    TermsKeptNext(db, step);
  }

  lemma CrossedIsInside(step: Step)
    requires Crossed(step) && step.LimitFillStep? && step.snapshot.limitPrice.Some?
    ensures NoWorse(step.snapshot.side, step.price, step.snapshot.limitPrice.value)
  {
    var config, last :|
      && NoWorse(step.snapshot.side, last, step.snapshot.limitPrice.value)
      && ApplySlippage(config, step.snapshot.side, Limit, last, step.snapshot.limitPrice, step.snapshot.symbol) ==
         Some(step.price);
    CrossedFillStaysInsideLimit(config, step.snapshot.side, last, step.snapshot.limitPrice.value, step.snapshot.symbol);
  }

  lemma TradesInsideNext(db: Db, step: Step)
    requires Sound(db) && Stale(db, step) && Base(db.orders) && Crossed(step)
    requires TradesInside(db)
    ensures TradesInside(Next(db, step))
  {
    TermsKeptNext(db, step);
    var d := Next(db, step);
    if IsFill(step) {
      if d != db {
        var t := FillTrade(db, step);
        assert Earlier(step.snapshot, db.orders[step.id]);
        if step.snapshot.limitPrice.Some? {
          CrossedIsInside(step);
        }
        SnocInside(db, d, t);
      }
    } else if step.MarketStep? {
      if d != db {
        var leg := ExecuteLeg(db, step.id, step.symbol, step.side, step.qty, step.price, step.fees);
        LegEffect(db, step.id, step.symbol, step.side, step.qty, step.price, step.fees, leg.db);
        SnocInside(db, d, Trade(step.id, step.symbol, step.side, step.qty, step.price, step.fees,
                                LegPl(db, step.side, step.symbol, step.qty, step.price, step.fees)));
      }
    } else {
      assert d.trades == db.trades;
    }
  }

  ghost predicate CrossedAlong(steps: seq<Step>) {
    forall k :: 0 <= k < |steps| ==> Crossed(steps[k])
  }

  lemma {:induction false} TradesInsideAlways(db: Db, steps: seq<Step>, n: nat)
    requires Sound(db) && StepsOk(steps) && StaleAlong(db, steps) && Base(db.orders) && CrossedAlong(steps)
    requires TradesInside(db) && n <= |steps|
    ensures TradesInside(Run(db, steps[..n]))
  {
    hide TradesInside, Base, Stale, OnceRead, Typed, Gated, Crossed, Sound, Next;
    if n == 0 {
      assert steps[..0] == [];
    } else {
      TradesInsideAlways(db, steps, n - 1);
      BaseAlways(db, steps, n);
      BaseAlways(db, steps, n - 1);
      RunNext(db, steps, n - 1);
      TradesInsideNext(Run(db, steps[..n - 1]), steps[n - 1]);
    }
  }

  // ----- averages -----

  lemma Distributes(a: real, b: real, c: real, first: real, second: real, whole: real)
    requires first == a * b && second == a * c && whole == a * (b + c)
    ensures whole == first + second
  {
  }

  lemma ScaledOrder(a: real, b: real, c: real, low: real, high: real)
    requires a <= b && c >= 0.0 && low == a * c && high == b * c
    ensures low <= high
  {
    assert (b - a) * c >= 0.0;
  }

  lemma OneMoreTrade(side: Side, notional: real, limit: real, q: real, price: real, qty: real)
    requires NoWorse(side, notional, limit * q) && qty > 0.0 && NoWorse(side, price, limit)
    ensures NoWorse(side, notional + qty * price, limit * (q + qty))
  {
    var paid, allowed, before, after := qty * price, limit * qty, limit * q, limit * (q + qty);
    Distributes(limit, q, qty, before, allowed, after);
    if side == Buy {
      ScaledOrder(price, limit, qty, paid, allowed);
    } else {
      ScaledOrder(limit, price, qty, allowed, paid);
    }
    assert NoWorse(side, notional + paid, after);
  }

  lemma AverageWithinLimit(avg: real, qty: real, limit: real)
    requires qty > 0.0
    ensures avg * qty <= limit * qty <==> avg <= limit
    ensures avg * qty >= limit * qty <==> avg >= limit
  {
    var gap := (limit - avg) * qty;
    assert gap == limit * qty - avg * qty;
    assert limit > avg ==> gap > 0.0;
    assert limit < avg ==> gap < 0.0;
  }

  lemma FilledNotional(side: Side, filled: real, avg: real, limit: real)
    requires filled >= 0.0 && (filled > 0.0 ==> NoWorse(side, avg, limit))
    ensures NoWorse(side, filled * avg, limit * filled)
  {
    if filled > 0.0 {
      AverageWithinLimit(avg, filled, limit);
    } else {
      assert filled == 0.0;
    }
  }

  lemma AverageFillInside(side: Side, filled: real, avg: real, slice: real, price: real, limit: real)
    requires filled >= 0.0 && slice > 0.0 && (filled > 0.0 ==> NoWorse(side, avg, limit))
    requires NoWorse(side, price, limit)
    ensures NoWorse(side, AverageFill(filled, avg, slice, price), limit)
  {
    FilledNotional(side, filled, avg, limit);
    OneMoreTrade(side, filled * avg, limit, filled, price, slice);
    QuotientTimes(filled * avg + slice * price, filled + slice);
    AverageWithinLimit(AverageFill(filled, avg, slice, price), filled + slice, limit);
  }

  /** If the order has a limit and has filled, its average price is no worse. */
  ghost predicate AverageInside(o: Order) {
    o.limitPrice.Some? && o.filledQty > 0.0 ==>
      o.filledAvgPrice.Some? && NoWorse(o.side, o.filledAvgPrice.value, o.limitPrice.value)
  }

  ghost predicate AveragesInside(rows: map<Id, Order>) {
    forall i :: i in rows ==> AverageInside(rows[i])
  }

  lemma SliceAverageInside(row: Order, step: Step, pl: real)
    requires step.LimitFillStep? && StepOk(step) && Crossed(step) && SliceQty(step.snapshot, step.fillQty) > 0.0
    requires Earlier(step.snapshot, row) && AverageInside(step.snapshot)
    ensures AverageInside(FilledRow(row, step.snapshot, step.fillQty, step.price, step.fees, pl))
  {
    var o := step.snapshot;
    if o.limitPrice.Some? {
      CrossedIsInside(step);
      AverageFillInside(o.side, o.filledQty, o.filledAvgPrice.GetOr(0.0), SliceQty(o, step.fillQty), step.price,
                        o.limitPrice.value);
    }
  }

  lemma SliceKeepsAverages(db: Db, step: Step)
    requires Sound(db) && Stale(db, step) && Base(db.orders) && Crossed(step) && step.LimitFillStep?
    requires AveragesInside(db.orders) && AverageInside(step.snapshot)
    ensures AveragesInside(Next(db, step).orders)
  {
    LimitFillTrades(db, step);
    if Trades(db, step) {
      var o := step.snapshot;
      var pl := LegPl(db, o.side, o.symbol, SliceQty(o, step.fillQty), step.price, step.fees);
      SliceAverageInside(db.orders[step.id], step, pl);
      SliceRows(db.orders, step, pl);
    }
  }

  lemma SliceRows(rows: map<Id, Order>, step: Step, pl: real)
    requires step.LimitFillStep? && step.id in rows && StepOk(step) && SliceQty(step.snapshot, step.fillQty) > 0.0
    requires AveragesInside(rows)
    requires AverageInside(FilledRow(rows[step.id], step.snapshot, step.fillQty, step.price, step.fees, pl))
    ensures AveragesInside(RowsAfterLimitFill(rows, step.id, step.snapshot, step.fillQty, step.price, step.fees, pl))
  {
    hide RowsAfterLimitFill, FilledRow;
    LimitFillRows(rows, step.id, step.snapshot, step.fillQty, step.price, step.fees, pl);
  }

  lemma WholeFillKeepsAverages(db: Db, step: Step)
    requires Sound(db) && Stale(db, step) && Base(db.orders) && step.FillPendingStep?
    requires AveragesInside(db.orders)
    ensures AveragesInside(Next(db, step).orders)
  {
    hide RowsAfterMarketFill, Shape;
    FillPendingTrades(db, step);
    if Trades(db, step) {
      var o := step.snapshot;
      MarketFillRows(db.orders, step.id, o, step.price, step.fees,
                     LegPl(db, o.side, o.symbol, o.qty, step.price, step.fees));
      MarketFillKeepsTerms(db.orders, step.id, o, step.price, step.fees,
                           LegPl(db, o.side, o.symbol, o.qty, step.price, step.fees));
    }
  }

  lemma OthersKeepAverages(db: Db, step: Step)
    requires Sound(db) && StepOk(step) && !IsFill(step) && AveragesInside(db.orders)
    ensures AveragesInside(Next(db, step).orders)
  {
    if IsCorporateAction(step) {
      CorporateActionsLeaveOrders(db, step);
    }
  }

  lemma AveragesInsideNext(db: Db, step: Step)
    requires Sound(db) && Stale(db, step) && Base(db.orders) && Crossed(step)
    requires AveragesInside(db.orders) && (HasSnapshot(step) && step.id in db.orders ==> AverageInside(step.snapshot))
    ensures AveragesInside(Next(db, step).orders)
  {
    if step.LimitFillStep? {
      hide Base, Crossed, AverageInside, AveragesInside;
      LimitFillTrades(db, step);
      if Trades(db, step) {
        SliceKeepsAverages(db, step);
      }
    } else if step.FillPendingStep? {
      WholeFillKeepsAverages(db, step);
    } else {
      OthersKeepAverages(db, step);
    }
  }

  lemma ReadingInside(db: Db, steps: seq<Step>, k: nat)
    requires Sound(db) && StepsOk(steps) && k < |steps| && OnceRead(db, steps, k)
    requires forall j: nat :: j <= k ==> AveragesInside(TableAt(db, steps, j))
    ensures HasSnapshot(steps[k]) && steps[k].id in TableAt(db, steps, k) ==> AverageInside(steps[k].snapshot)
  {
    if HasSnapshot(steps[k]) && steps[k].id in TableAt(db, steps, k) {
      var j: nat :| j <= k && ReadAfter(db, steps, j, steps[k]);
      assert AveragesInside(TableAt(db, steps, j));
    }
  }

  lemma {:induction false} AveragesInsideAlways(db: Db, steps: seq<Step>, n: nat)
    requires Sound(db) && StepsOk(steps) && StaleAlong(db, steps) && Base(db.orders) && CrossedAlong(steps)
    requires AveragesInside(db.orders) && n <= |steps|
    ensures forall j: nat :: j <= n ==> AveragesInside(TableAt(db, steps, j))
  {
    hide AveragesInside, AverageInside, Base, Stale, OnceRead, Typed, Gated, Crossed, Sound, Next;
    if n == 0 {
      assert steps[..0] == [];
    } else {
      var k: nat := n - 1;
      AveragesInsideAlways(db, steps, k);
      BaseAlways(db, steps, n);
      BaseAlways(db, steps, k);
      RunNext(db, steps, k);
      ReadingInside(db, steps, k);
      AveragesInsideNext(Run(db, steps[..k]), steps[k]);
    }
  }

  // ----- whole runs -----

  /** If the order has a limit, every trade of it, and its average price once it has one, are no worse. */
  ghost predicate Honoured(id: Id, o: Order, trades: seq<Trade>) {
    o.limitPrice.Some? ==>
      && (forall k :: 0 <= k < |trades| && trades[k].orderId == id ==>
            NoWorse(o.side, trades[k].price, o.limitPrice.value))
      && AverageInside(o)
  }

  /** From opening, after any run of typed, gated steps on readings of any age whose limit slices were
      priced by the slippage model from a price that reached the limit: every trade of a limit order
      (a converted stop-limit included), and the order's average price, is no worse than its limit. */
  lemma {:induction false} LimitsAreHonoured(capital: real, steps: seq<Step>, id: Id)
    requires capital >= 0.0 && StepsOk(steps) && Sound(OpenAccount(capital))
    requires StaleAlong(OpenAccount(capital), steps) && CrossedAlong(steps)
    requires id in Run(OpenAccount(capital), steps).orders
    ensures var db := Run(OpenAccount(capital), steps); Honoured(id, db.orders[id], db.trades)
  {
    var start := OpenAccount(capital);
    var db := Run(start, steps);
    assert steps[..|steps|] == steps;
    TradesInsideAlways(start, steps, |steps|);
    AveragesInsideAlways(start, steps, |steps|);
    assert AveragesInside(TableAt(start, steps, |steps|));
    var o := db.orders[id];
    if o.limitPrice.Some? {
      forall k | 0 <= k < |db.trades| && db.trades[k].orderId == id
        ensures NoWorse(o.side, db.trades[k].price, o.limitPrice.value)
      {
        assert TradeInside(db.trades[k], db.orders[db.trades[k].orderId]);
      }
    }
  }

  /** The step queues a bracket, its target row included. */
  ghost predicate QueuesTarget(db: Db, step: Step)
    requires Sound(db) && StepOk(step)
  {
    step.BracketStep? && step.targetId !in db.orders && step.targetId in Next(db, step).orders
  }

  /** A bracket's target is taken at its price or better: in every such run, from the step that queues
      the bracket to the end, the target row keeps the side opposite to the entry, and every trade of
      it is at the target price or better for that side. */
  lemma {:induction false} TargetsTakeTheirPrice(capital: real, steps: seq<Step>, k: nat)
    requires capital >= 0.0 && StepsOk(steps) && Sound(OpenAccount(capital))
    requires StaleAlong(OpenAccount(capital), steps) && CrossedAlong(steps)
    requires k < |steps| && QueuesTarget(Run(OpenAccount(capital), steps[..k]), steps[k])
    ensures var db := Run(OpenAccount(capital), steps); var t := steps[k].targetId;
            && t in db.orders && db.orders[t].side == Opposite(steps[k].side)
            && forall j :: 0 <= j < |db.trades| && db.trades[j].orderId == t ==>
                 NoWorse(Opposite(steps[k].side), db.trades[j].price, steps[k].targetPrice)
  {
    var start, t := OpenAccount(capital), steps[k].targetId;
    assert steps[..|steps|] == steps;
    var db := Run(start, steps);
    BracketsEndure(start, steps, k);
    TradesInsideAlways(start, steps, |steps|);
    forall j | 0 <= j < |db.trades| && db.trades[j].orderId == t
      ensures NoWorse(Opposite(steps[k].side), db.trades[j].price, steps[k].targetPrice)
    {
      assert TradeInside(db.trades[j], db.orders[db.trades[j].orderId]);
    }
  }
}
