/** Value conservation: cash plus the cost basis of every holding moves only by realized P&L,
    dividends and deposits. */
module Value {
  import opened Domain
  import opened Wrappers
  import opened Store
  import opened Books

  ghost function Cost(positions: map<Symbol, Position>, s: Symbol): real {
    if s in positions then positions[s].qty * positions[s].avgCost else 0.0
  }

  ghost function Pick(positions: map<Symbol, Position>): (s: Symbol)
    requires positions != map[]
    ensures s in positions
  {
    EmptyOrHasMember(positions.Keys);
    var s :| s in positions; s
  }

  /** What the holdings cost, summed over the position table. */
  ghost function Basis(positions: map<Symbol, Position>): real
    decreases positions.Keys
  {
    if positions == map[] then 0.0
    else
      var s := Pick(positions);
      Cost(positions, s) + Basis(positions - {s})
  }

  lemma RemovalsCommute(positions: map<Symbol, Position>, r: Symbol, s: Symbol)
    ensures positions - {r} - {s} == positions - {s} - {r}
    ensures s !in positions ==> positions - {s} == positions
  {
  }

  lemma BasisOfPick(positions: map<Symbol, Position>)
    requires positions != map[]
    ensures Basis(positions) == Cost(positions, Pick(positions)) + Basis(positions - {Pick(positions)})
  {
  }

  lemma {:induction false} BasisSplit(positions: map<Symbol, Position>, s: Symbol)
    ensures Basis(positions) == Cost(positions, s) + Basis(positions - {s})
    decreases positions.Keys
  {
    hide Basis;
    if s !in positions {
      RemovalsCommute(positions, s, s);
    } else {
      var r := Pick(positions);
      BasisOfPick(positions);
      if r != s {
        BasisSplit(positions - {r}, s);
        BasisSplit(positions - {s}, r);
        RemovalsCommute(positions, r, s);
      }
    }
  }

  lemma UpdateThenRemove(positions: map<Symbol, Position>, s: Symbol, p: Position)
    ensures positions[s := p] - {s} == positions - {s}
  {
  }

  lemma BasisOfUpdate(positions: map<Symbol, Position>, s: Symbol, p: Position)
    ensures Basis(positions[s := p]) == Basis(positions) - Cost(positions, s) + p.qty * p.avgCost
  {
    hide Basis;
    BasisSplit(positions, s);
    BasisSplit(positions[s := p], s);
    UpdateThenRemove(positions, s, p);
  }

  /** Cash and holdings at cost, net of what was realized. */
  ghost function NetValue(db: Db): real {
    db.cash + Basis(db.positions) - db.realizedPlTotal
  }

  /** Capital and dividends paid in that net value no longer accounts for. */
  ghost function Lost(db: Db): real {
    ReasonSum(InitialCapital, db.ledger) + ReasonSum(Dividend, db.ledger) - NetValue(db)
  }

  lemma BoughtCost(db: Db, id: Id, symbol: Symbol, qty: real, price: real, fees: real, d: Db)
    requires HoldingsOk(db.positions) && qty > 0.0
    requires ApplyBuy(db, symbol, qty, price, fees, id) == Commit(d)
    ensures d.realizedPlTotal == db.realizedPlTotal
    ensures symbol in d.positions && d.positions == db.positions[symbol := d.positions[symbol]]
    ensures d.positions[symbol].qty * d.positions[symbol].avgCost == Cost(db.positions, symbol) + (db.cash - d.cash)
  {
    if symbol in db.positions {
      var held := db.positions[symbol];
      QuotientTimes(held.avgCost * held.qty + price * qty + fees, held.qty + qty);
    } else {
      QuotientTimes(price * qty + fees, qty);
    }
  }

  /** Cash turned into cost basis leaves net value where it was. */
  lemma CashIntoBasis(db: Db, symbol: Symbol, p: Position, d: Db)
    requires d.realizedPlTotal == db.realizedPlTotal && d.positions == db.positions[symbol := p]
    requires p.qty * p.avgCost == Cost(db.positions, symbol) + (db.cash - d.cash)
    ensures NetValue(d) == NetValue(db)
  {
    BasisOfUpdate(db.positions, symbol, p);
  }

  lemma BuyConserves(db: Db, id: Id, symbol: Symbol, qty: real, price: real, fees: real)
    requires HoldingsOk(db.positions) && qty > 0.0
    ensures NetValue(After(db, ApplyBuy(db, symbol, qty, price, fees, id))) == NetValue(db)
  {
    var tx := ApplyBuy(db, symbol, qty, price, fees, id);
    if tx.Commit? {
      BoughtCost(db, id, symbol, qty, price, fees, tx.db);
      CashIntoBasis(db, symbol, tx.db.positions[symbol], tx.db);
    }
  }

  lemma ProfitSplits(price: real, avg: real, qty: real, fees: real)
    ensures Profit(price, avg, qty, fees) == Times(qty, price) - fees - Times(qty, avg)
  {
  }

  lemma BasisOfRemoval(positions: map<Symbol, Position>, s: Symbol)
    requires s in positions
    ensures Basis(positions - {s}) == Basis(positions) - positions[s].qty * positions[s].avgCost
  {
    hide Basis;
    BasisSplit(positions, s);
  }

  /** The cost a sale writes off with a dropped dust remainder. */
  ghost function Dropped(db: Db, symbol: Symbol, qty: real): real {
    if symbol in db.positions && Sliver(db, symbol, qty) then (HeldQty(db, symbol) - qty) * db.positions[symbol].avgCost
    else 0.0
  }

  lemma ZeroTimes(x: real, y: real)
    requires x == 0.0
    ensures x * y == 0.0
  {
  }

  lemma BasisAfterSale(db: Db, symbol: Symbol, qty: real)
    requires symbol in db.positions && db.positions[symbol].qty >= qty
    ensures var held := db.positions[symbol]; var left := held.qty - qty;
            Basis(if left <= QTY_EPSILON then db.positions - {symbol}
                  else db.positions[symbol := Position(left, held.avgCost)])
            == Basis(db.positions) - Times(qty, held.avgCost) - Dropped(db, symbol, qty)
  {
    hide Basis;
    var held := db.positions[symbol];
    var left := held.qty - qty;
    assert left * held.avgCost == held.qty * held.avgCost - qty * held.avgCost;
    if left <= QTY_EPSILON {
      BasisOfRemoval(db.positions, symbol);
      if left == 0.0 {
        ZeroTimes(left, held.avgCost);
      }
    } else {
      BasisOfUpdate(db.positions, symbol, Position(left, held.avgCost));
    }
  }

  /** The cash a sale raises beyond the profit it books is the cost of the shares sold. */
  lemma SaleMoney(db: Db, id: Id, symbol: Symbol, qty: real, price: real, fees: real, d: Db)
    requires ApplySell(db, symbol, qty, price, fees, id) == Commit(d)
    ensures (d.cash - db.cash) - (d.realizedPlTotal - db.realizedPlTotal) == Times(qty, db.positions[symbol].avgCost)
  {
    ProfitSplits(price, db.positions[symbol].avgCost, qty, fees);
  }

  /** What a sale does to net value: nothing, except that a dropped dust remainder takes its cost with it. */
  lemma SellEffect(db: Db, id: Id, symbol: Symbol, qty: real, price: real, fees: real, d: Db)
    requires HoldingsOk(db.positions) && qty > 0.0
    requires ApplySell(db, symbol, qty, price, fees, id) == Commit(d)
    ensures NetValue(d) == NetValue(db) - Dropped(db, symbol, qty)
  {
    BasisAfterSale(db, symbol, qty);
    SaleMoney(db, id, symbol, qty, price, fees, d);
  }

  /** A committed sale conserves value exactly when it does not leave a dust remainder behind:
      the remainder is zero, or larger than the broker's epsilon. */
  lemma SellConservesIffNoSliver(db: Db, id: Id, symbol: Symbol, qty: real, price: real, fees: real)
    requires HoldingsOk(db.positions) && qty > 0.0
    requires ApplySell(db, symbol, qty, price, fees, id).Commit?
    ensures NetValue(ApplySell(db, symbol, qty, price, fees, id).db) == NetValue(db) <==>
            var left := db.positions[symbol].qty - qty; left == 0.0 || left > 0.000000001
  {
    SellEffect(db, id, symbol, qty, price, fees, ApplySell(db, symbol, qty, price, fees, id).db);
    if Sliver(db, symbol, qty) {
      assert (HeldQty(db, symbol) - qty) * db.positions[symbol].avgCost > 0.0;
    }
  }

  lemma Regroup(q: real, f: real, a: real, c: real)
    requires f * c == 1.0
    ensures (q * f) * (a * c) == q * a
  {
    assert (q * f) * (a * c) == (q * a) * (f * c);
  }

  lemma RescaleConserves(db: Db, symbol: Symbol, qtyFactor: real, costFactor: real)
    requires qtyFactor * costFactor == 1.0
    ensures NetValue(Rescale(db, symbol, qtyFactor, costFactor)) == NetValue(db)
  {
    if symbol in db.positions {
      var held := db.positions[symbol];
      var d := Rescale(db, symbol, qtyFactor, costFactor);
      var p := d.positions[symbol];
      Regroup(held.qty, qtyFactor, held.avgCost, costFactor);
      BasisOfUpdate(db.positions, symbol, p);
      assert d.positions == db.positions[symbol := p];
    }
  }

  lemma RatioInverse(num: int, den: int)
    requires num > 0 && den > 0
    ensures Ratio(num, den) * Ratio(den, num) == 1.0
  {
    var r, q := Ratio(num, den), Ratio(den, num);
    QuotientTimes(num as real, den as real);
    QuotientTimes(den as real, num as real);
    assert (r * q - 1.0) * num as real == r * (q * num as real) - num as real;
  }

  lemma DivideByRatio(x: real, num: int, den: int)
    requires num > 0 && den > 0
    ensures Ratio(num, den) > 0.0
    ensures Quotient(x, Ratio(num, den)) == Times(x, Ratio(den, num))
  {
    var r, q := Ratio(num, den), Ratio(den, num);
    RatioPositive(num, den);
    RatioInverse(num, den);
    QuotientTimes(x, r);
    assert (x * q) * r == x * (r * q);
    assert ((x / r) - x * q) * r == 0.0;
  }

  /** A num:den bonus, which divides the cost by its ratio, is a (num + den):den split, which multiplies
      the cost by the inverse ratio. */
  lemma BonusIsSplit(db: Db, symbol: Symbol, num: int, den: int)
    requires num > 0 && den > 0
    ensures ApplyBonus(db, symbol, num, den) == ApplySplit(db, symbol, num + den, den)
  {
    if symbol in db.positions {
      DivideByRatio(db.positions[symbol].avgCost, num + den, den);
    }
  }

  lemma RightsPosition(db: Db, symbol: Symbol, num: int, den: int, price: real, d: Db) returns (p: Position)
    requires HoldingsOk(db.positions) && d != db
    requires ApplyRights(db, symbol, num, den, price, true) == Commit(d)
    ensures d.realizedPlTotal == db.realizedPlTotal && d.positions == db.positions[symbol := p]
    ensures p.qty * p.avgCost == Cost(db.positions, symbol) + (db.cash - d.cash)
  {
    p := d.positions[symbol];
    var held := db.positions[symbol];
    QuotientTimes(held.qty * held.avgCost + (db.cash - d.cash), p.qty);
  }

  lemma RightsConserve(db: Db, symbol: Symbol, num: int, den: int, price: real, subscribe: bool)
    requires HoldingsOk(db.positions)
    ensures NetValue(After(db, ApplyRights(db, symbol, num, den, price, subscribe))) == NetValue(db)
  {
    var d := After(db, ApplyRights(db, symbol, num, den, price, subscribe));
    if d != db {
      var p := RightsPosition(db, symbol, num, den, price, d);
      CashIntoBasis(db, symbol, p, d);
    }
  }

  lemma DroppedIsPositive(db: Db, symbol: Symbol, qty: real)
    requires HoldingsOk(db.positions)
    ensures Dropped(db, symbol, qty) >= 0.0
    ensures symbol in db.positions ==> (Dropped(db, symbol, qty) == 0.0 <==> !Sliver(db, symbol, qty))
  {
    if symbol in db.positions && Sliver(db, symbol, qty) {
      assert (HeldQty(db, symbol) - qty) * db.positions[symbol].avgCost > 0.0;
    }
  }

  /** A leg loses nothing, unless it is a sale that drops dust: then it loses what the dust cost. */
  lemma LegLoses(db: Db, id: Id, symbol: Symbol, side: Side, qty: real, price: real, fees: real, d: Db)
    requires HoldingsOk(db.positions) && qty > 0.0
    requires ExecuteLeg(db, id, symbol, side, qty, price, fees) == Commit(d)
    ensures Lost(d) >= Lost(db)
    ensures Lost(d) == Lost(db) <==> side == Buy || !Sliver(db, symbol, qty)
  {
    hide Basis;
    LegEffect(db, id, symbol, side, qty, price, fees, d);
    if side == Buy {
      BuyConserves(db, id, symbol, qty, price, fees);
      assert NetValue(d) == NetValue(ApplyBuy(db, symbol, qty, price, fees, id).db);
    } else {
      SellEffect(db, id, symbol, qty, price, fees, ApplySell(db, symbol, qty, price, fees, id).db);
      assert NetValue(d) == NetValue(ApplySell(db, symbol, qty, price, fees, id).db);
      DroppedIsPositive(db, symbol, qty);
    }
  }

  ghost predicate Conserves(db: Db, d: Db) {
    && NetValue(d) - NetValue(db) == ReasonSum(Dividend, d.ledger) - ReasonSum(Dividend, db.ledger)
    && ReasonSum(InitialCapital, d.ledger) == ReasonSum(InitialCapital, db.ledger)
  }

  lemma SplitConserves(db: Db, step: Step)
    requires HoldingsOk(db.positions) && (step.SplitStep? || step.BonusStep?)
    ensures Conserves(db, Next(db, step))
  {
    if step.num > 0 && step.den > 0 {
      var num := if step.SplitStep? then step.num else step.num + step.den;
      if step.BonusStep? {
        BonusIsSplit(db, step.symbol, step.num, step.den);
      }
      RatioInverse(num, step.den);
      RescaleConserves(db, step.symbol, Ratio(num, step.den), Ratio(step.den, num));
    }
  }

  lemma CashActionConserves(db: Db, step: Step)
    requires HoldingsOk(db.positions) && (step.RightsStep? || step.DividendStep?)
    ensures Conserves(db, Next(db, step))
  {
    var d := Next(db, step);
    if d != db {
      LedgerSnoc(db.ledger, d.ledger[|db.ledger|]);
      if step.RightsStep? {
        RightsConserve(db, step.symbol, step.num, step.den, step.price, step.subscribe);
      }
    }
  }

  lemma CorporateActionConserves(db: Db, step: Step)
    requires HoldingsOk(db.positions) && StepOk(step) && IsCorporateAction(step)
    ensures Lost(Next(db, step)) == Lost(db) && !Trades(db, step)
  {
    if step.SplitStep? || step.BonusStep? {
      SplitConserves(db, step);
    } else {
      CashActionConserves(db, step);
    }
  }

  /** No transaction ever brings lost value back, and one loses some exactly when it drops dust. */
  lemma LostNext(db: Db, step: Step)
    requires HoldingsOk(db.positions) && StepOk(step)
    ensures Lost(Next(db, step)) >= Lost(db)
    ensures Lost(Next(db, step)) == Lost(db) <==> DustFree(db, step)
  {
    hide Lost, Next, ExecuteLeg, NoSliver;
    if IsCorporateAction(step) {
      CorporateActionConserves(db, step);
    } else if Trades(db, step) {
      var id, symbol, side, qty, price, fees, d := TradingLeg(db, step);
      LegLoses(db, id, symbol, side, qty, price, fees, d);
      SameLoss(d, Next(db, step));
    } else {
      UntradedBooks(db, step);
      SameLoss(db, Next(db, step));
    }
  }

  lemma SameLoss(a: Db, b: Db)
    requires SameMoney(a, b)
    ensures Lost(a) == Lost(b)
  {
  }

  // ----- the terms of a corporate action -----

  lemma RatioExact(x: real, num: int, den: int)
    requires den != 0
    ensures Times(x, Ratio(num, den)) * den as real == x * num as real
  {
    QuotientTimes(num as real, den as real);
    assert (x * Ratio(num, den)) * den as real == x * (Ratio(num, den) * den as real);
  }

  /** A num:den split turns every den shares into num, at den/num of their cost. */
  lemma SplitScales(db: Db, symbol: Symbol, num: int, den: int)
    requires num > 0 && den > 0 && symbol in db.positions
    ensures var p, q := db.positions[symbol], After(db, ApplySplit(db, symbol, num, den)).positions[symbol];
            q.qty * den as real == p.qty * num as real && q.avgCost * num as real == p.avgCost * den as real
  {
    RatioExact(db.positions[symbol].qty, num, den);
    RatioExact(db.positions[symbol].avgCost, den, num);
  }

  lemma FactorUndone(x: real, f: real, g: real)
    requires f * g == 1.0
    ensures Times(Times(x, f), g) == x
  {
    assert (x * f) * g == x * (f * g);
  }

  /** A reverse split undoes a split, to the last field of the account. */
  lemma SplitUndone(db: Db, symbol: Symbol, num: int, den: int)
    requires num > 0 && den > 0
    ensures ApplySplit(After(db, ApplySplit(db, symbol, num, den)), symbol, den, num) == Commit(db)
  {
    if symbol in db.positions {
      var held := db.positions[symbol];
      RatioInverse(num, den);
      FactorUndone(held.qty, Ratio(num, den), Ratio(den, num));
      RatioInverse(den, num);
      FactorUndone(held.avgCost, Ratio(den, num), Ratio(num, den));
      var once := After(db, ApplySplit(db, symbol, num, den));
      var twice := After(once, ApplySplit(once, symbol, den, num));
      assert twice.positions[symbol] == held;
      assert twice.positions == db.positions;
    }
  }

  /** Rights are offered on whole shares: as many as num per den held allows, and not one more. */
  lemma EntitlementExact(held: real, num: int, den: int)
    requires den > 0
    ensures var n := Entitlement(held, num, den);
            (n * den) as real <= held * num as real < ((n + 1) * den) as real
  {
    var x := held * num as real / den as real;
    var n := Entitlement(held, num, den);
    QuotientTimes(held * num as real, den as real);
    FloorTimes(x, n, den, held * num as real);
  }

  lemma FloorTimes(x: real, n: int, den: int, product: real)
    requires den > 0 && n as real <= x < n as real + 1.0 && x * den as real == product
    ensures (n * den) as real <= product < ((n + 1) * den) as real
  {
    var low, high := x - n as real, n as real + 1.0 - x;
    assert low * den as real >= 0.0 && high * den as real > 0.0;
    assert low * den as real == product - n as real * den as real;
    assert high * den as real == n as real * den as real + den as real - product;
    assert (n * den) as real == n as real * den as real;
    assert ((n + 1) * den) as real == n as real * den as real + den as real by {
      assert (n + 1) * den == n * den + den;
    }
  }

  /** A rights issue in full: with `n` whole shares on offer, as many as num per den held and not one more,
      a subscriber who can pay for them gets them at the offer price, which goes from cash into what the
      holding cost, and one who cannot is refused. */
  lemma RightsTerms(db: Db, symbol: Symbol, num: int, den: int, price: real) returns (n: int)
    requires HoldingsOk(db.positions) && db.cash >= 0.0 && symbol in db.positions
    requires num > 0 && den > 0 && price > 0.0
    ensures n >= 0
    ensures (n * den) as real <= db.positions[symbol].qty * num as real < ((n + 1) * den) as real
    ensures var tx, held := ApplyRights(db, symbol, num, den, price, true), db.positions[symbol];
            if n as real * price > db.cash then tx == Rollback(InsufficientFunds)
            else && tx.Commit? && tx.db.cash == db.cash - n as real * price
                 && ReasonSum(Adjustment, tx.db.ledger) == ReasonSum(Adjustment, db.ledger) - n as real * price
                 && symbol in tx.db.positions && tx.db.positions == db.positions[symbol := tx.db.positions[symbol]]
                 && var got := tx.db.positions[symbol];
                    got.qty == held.qty + n as real
                      && got.qty * got.avgCost == held.qty * held.avgCost + n as real * price
  {
    hide Entitlement, ApplyRights, ReasonSum;
    var held := db.positions[symbol];
    n := Entitlement(held.qty, num, den);
    EntitlementExact(held.qty, num, den);
    SomeEntitlement(held.qty, num, den);
    RightsOutcome(db, symbol, num, den, price, n, n as real * price);
  }

  lemma SomeEntitlement(held: real, num: int, den: int)
    requires held >= 0.0 && num >= 0 && den > 0
    ensures Entitlement(held, num, den) >= 0
  {
    assert held * num as real >= 0.0;
    assert held * num as real / den as real >= 0.0;
  }

  lemma RightsOutcome(db: Db, symbol: Symbol, num: int, den: int, price: real, n: int, cost: real)
    requires HoldingsOk(db.positions) && db.cash >= 0.0 && symbol in db.positions
    requires num > 0 && den > 0 && price > 0.0
    requires n == Entitlement(db.positions[symbol].qty, num, den) >= 0 && cost == n as real * price
    ensures var tx, held := ApplyRights(db, symbol, num, den, price, true), db.positions[symbol];
            if cost > db.cash then tx == Rollback(InsufficientFunds)
            else && tx.Commit? && tx.db.cash == db.cash - cost
                 && ReasonSum(Adjustment, tx.db.ledger) == ReasonSum(Adjustment, db.ledger) - cost
                 && symbol in tx.db.positions && tx.db.positions == db.positions[symbol := tx.db.positions[symbol]]
                 && var got := tx.db.positions[symbol];
                    got.qty == held.qty + n as real && got.qty * got.avgCost == held.qty * held.avgCost + cost
  {
    hide Entitlement, ReasonSum, SpreadCost;
    var held := db.positions[symbol];
    var tx := ApplyRights(db, symbol, num, den, price, true);
    assert Times(n as real, price) == cost;
    if n > 0 && tx.Commit? {
      LedgerSnoc(db.ledger, tx.db.ledger[|db.ledger|]);
      SpreadOver(held.qty, held.avgCost, cost, held.qty + n as real);
    } else if n == 0 {
      assert cost == 0.0;
    }
  }

  lemma SpreadOver(heldQty: real, heldAvg: real, cost: real, newQty: real)
    requires newQty != 0.0
    ensures newQty * SpreadCost(heldQty, heldAvg, cost, newQty) == heldQty * heldAvg + cost
  {
    QuotientTimes(heldQty * heldAvg + cost, newQty);
  }

  /** A dividend pays its rate on every share held, to the ledger and to cash, and moves nothing else; without
      a holding it pays nothing. */
  lemma DividendPaysPerShare(db: Db, symbol: Symbol, perShare: real)
    requires perShare > 0.0 && HoldingsOk(db.positions)
    ensures var tx := ApplyDividend(db, symbol, perShare);
            && tx.Commit? && tx.db.cash == db.cash + HeldQty(db, symbol) * perShare
            && ReasonSum(Dividend, tx.db.ledger) == ReasonSum(Dividend, db.ledger) + HeldQty(db, symbol) * perShare
            && tx.db.(cash := db.cash, ledger := db.ledger) == db
  {
    var tx := ApplyDividend(db, symbol, perShare);
    if symbol in db.positions {
      LedgerSnoc(db.ledger, tx.db.ledger[|db.ledger|]);
    }
  }

  /** A dividend after a num:den split at den/num of the rate pays what it would have paid before the split. */
  lemma DividendFollowsSplit(db: Db, symbol: Symbol, num: int, den: int, perShare: real)
    requires num > 0 && den > 0 && perShare > 0.0 && HoldingsOk(db.positions)
    ensures var split := After(db, ApplySplit(db, symbol, num, den));
            After(split, ApplyDividend(split, symbol, Times(perShare, Ratio(den, num)))).cash ==
            After(db, ApplyDividend(db, symbol, perShare)).cash
  {
    var split := After(db, ApplySplit(db, symbol, num, den));
    RatioPositive(num, den);
    RatioPositive(den, num);
    RatioInverse(num, den);
    assert Times(perShare, Ratio(den, num)) > 0.0;
    if symbol in db.positions {
      var qty := db.positions[symbol].qty;
      Regroup(qty, Ratio(num, den), perShare, Ratio(den, num));
      assert Times(qty, Ratio(num, den)) > 0.0;
    }
  }
}
