/** What an auction leaves in the trade table: its applied fills, one trade each, at the clearing price. */
module AuctionTrades {
  import opened Domain
  import opened Wrappers
  import opened Slippage
  import Fees
  import Auction
  import opened Store
  import opened Books
  import opened Runs
  import opened Brackets
  import opened Account
  import opened Watcher
  import opened OpeningAuction

  /** A fill of one of the symbol's auction orders at the clearing price, for no more than the order wants. */
  ghost predicate OfTheBook(f: Auction.Fill, orders: map<Id, Order>, symbol: Symbol, p: real) {
    && f.orderId in orders && f.price == p
    && var o := orders[f.orderId];
       InAuction(o, symbol, o.side) && 0.0 < f.qty <= o.qty - o.filledQty
  }

  lemma SideOfTheBook(book: seq<Auction.BookRow>, orders: map<Id, Order>, symbol: Symbol, side: Side, volume: real,
                      p: real)
    requires RowsOk(orders) && Collected(book, orders, symbol, side)
    requires 0.0 <= volume <= Auction.Volume(side, book, p)
    ensures var fills := Auction.SideFills(side, book, volume, p);
            && (forall j :: 0 <= j < |fills| ==>
                  OfTheBook(fills[j], orders, symbol, p) && orders[fills[j].orderId].side == side)
            && (forall i, j :: 0 <= i < j < |fills| ==> fills[i].orderId != fills[j].orderId)
  {
    forall k | 0 <= k < |book| ensures book[k].qty > 0.0 {
      assert RowOk(orders[book[k].orderId]);
    }
    Auction.ServedOnce(side, book, volume, p);
    Auction.SideFillsExact(side, book, volume, p);
    var queue := Auction.SortBySeq(Auction.Eligible(side, book, p));
    var fills := Auction.SideFills(side, book, volume, p);
    forall j | 0 <= j < |fills|
      ensures OfTheBook(fills[j], orders, symbol, p) && orders[fills[j].orderId].side == side
    {
      assert queue[j] in queue && fills[j] in fills;
      var k :| 0 <= k < |book| && book[k] == queue[j];
    }
  }

  /** Nothing matched, or a clearing price, and fills of distinct orders of the book at it. */
  ghost predicate OfTheAuction(r: AuctionRun) {
    && (r.m.equilibriumPrice.None? ==> r.m.fills == [])
    && (forall j :: 0 <= j < |r.m.fills| ==>
          OfTheBook(r.m.fills[j], r.before.orders, r.symbol, r.m.equilibriumPrice.GetOr(0.0)))
    && (forall i, j :: 0 <= i < j < |r.m.fills| ==> r.m.fills[i].orderId != r.m.fills[j].orderId)
  }

  lemma MatchOfTheAuction(b: Broker, references: map<Symbol, real>, r: AuctionRun)
    requires IsAuctionRun(b, references, r)
    ensures OfTheAuction(r)
  {
    hide OfTheBook, Collected, Trail, TakenInTurn, Landed, Auction.SideFills, RowsOk;
    TrailRows(r.before, r.steps, r.after);
    if r.m.equilibriumPrice.Some? {
      var p, volume := r.m.equilibriumPrice.value, r.m.matchedVolume;
      SideOfTheBook(r.buys, r.before.orders, r.symbol, Buy, volume, p);
      SideOfTheBook(r.sells, r.before.orders, r.symbol, Sell, volume, p);
    }
  }

  /** The trade of a fill: the order's side and symbol, the fill's quantity, priced from the fill's price and
      charged the fees of just that. */
  ghost predicate IsTradeOf(b: Broker, o: Order, f: Auction.Fill, t: Trade) {
    && t.orderId == f.orderId && t.symbol == o.symbol && t.side == o.side && t.qty == f.qty
    && o.limitPrice.Some? && LimitPays(b.slippage, o.side, o.symbol, f.price, o.limitPrice.value, t.price)
    && t.fees == Fees.Calculate(b.feeConfig, o.side, f.qty, t.price, b.exchange).total
  }

  lemma OneFill(b: Broker, db: Db, o: Order, f: Auction.Fill, step: Step)
    requires Sound(db) && Driven(db, step) && FillSteps(b, db.orders, f) == [step]
    requires f.orderId in db.orders && db.orders[f.orderId] == o && InBook(o) && 0.0 < f.qty <= o.qty - o.filledQty
    ensures OnlyRow(db.orders, Next(db, step).orders, f.orderId)
    ensures var d := Next(db, step);
            if ErrorOf(db, step).None? then |d.trades| == |db.trades| + 1 && db.trades <= d.trades
                                            && IsTradeOf(b, o, f, d.trades[|db.trades|])
            else d.trades == db.trades
  {
    hide LimitPays, Fees.Calculate, ApplySlippage, ExecuteLeg;
    LimitStepsExact(b, Row(f.orderId, o), f.price, Some(f.qty));
    assert step in FillSteps(b, db.orders, f);
    ParentlessSliceIsAlone(db, step);
    LimitFillTrades(db, step);
    if ErrorOf(db, step).None? {
      LegEffect(db, step.id, o.symbol, o.side, f.qty, step.price, step.fees,
                ExecuteLeg(db, step.id, o.symbol, o.side, f.qty, step.price, step.fees).db);
    }
  }

  // ----- the whole auction -----

  /** The trades from `from` on are those of the landed fills, one each, in turn. */
  ghost predicate TradesOf(b: Broker, orders: map<Id, Order>, landed: seq<Auction.Fill>, trades: seq<Trade>,
                           from: nat)
  {
    && |trades| == from + |landed|
    && forall k :: 0 <= k < |landed| ==>
         landed[k].orderId in orders && IsTradeOf(b, orders[landed[k].orderId], landed[k], trades[from + k])
  }

  lemma TradesOfSnoc(b: Broker, orders: map<Id, Order>, landed: seq<Auction.Fill>, trades: seq<Trade>, from: nat,
                     f: Auction.Fill, trades': seq<Trade>)
    requires TradesOf(b, orders, landed, trades, from) && trades <= trades' && |trades'| == |trades| + 1
    requires f.orderId in orders && IsTradeOf(b, orders[f.orderId], f, trades'[|trades|])
    ensures TradesOf(b, orders, landed + [f], trades', from)
  {
    hide IsTradeOf;
  }

  /** Orders whose fill is still to come are as they were. */
  ghost predicate StillToCome(r: AuctionRun, n: nat)
    requires Sound(r.before) && StepsOk(r.steps) && n <= |r.steps| <= |r.m.fills|
  {
    forall j :: n <= j < |r.m.fills| ==>
      && r.m.fills[j].orderId in r.before.orders && r.m.fills[j].orderId in Run(r.before, r.steps[..n]).orders
      && Run(r.before, r.steps[..n]).orders[r.m.fills[j].orderId] == r.before.orders[r.m.fills[j].orderId]
  }

  ghost predicate TradedUpTo(b: Broker, r: AuctionRun, n: nat)
    requires Sound(r.before) && StepsOk(r.steps) && n <= |r.steps| <= |r.m.fills|
  {
    var db := Run(r.before, r.steps[..n]);
    && r.before.trades <= db.trades && StillToCome(r, n)
    && TradesOf(b, r.before.orders, Landed(r.before, r.m.fills, r.steps[..n]), db.trades, |r.before.trades|)
  }

  lemma AuctionIsRun(b: Broker, references: map<Symbol, real>, r: AuctionRun)
    requires IsAuctionRun(b, references, r)
    ensures Sound(r.before) && StepsOk(r.steps) && |r.steps| <= |r.m.fills| && r.after == Run(r.before, r.steps)
    ensures DrivenAlong(r.before, r.steps) && r.applied == Landed(r.before, r.m.fills, r.steps)
    ensures forall j :: 0 <= j < |r.steps| ==>
              FillSteps(b, Run(r.before, r.steps[..j]).orders, r.m.fills[j]) == [r.steps[j]]
  {
    hide Collected, Auction.IsEquilibrium, Driven, FillSteps, Landed, FailsLast;
  }

  lemma NextFill(b: Broker, references: map<Symbol, real>, r: AuctionRun, n: nat)
    requires IsAuctionRun(b, references, r) && OfTheAuction(r)
    requires Sound(r.before) && StepsOk(r.steps) && n < |r.steps| <= |r.m.fills| && TradedUpTo(b, r, n)
    ensures TradedUpTo(b, r, n + 1)
  {
    hide IsAuctionRun, IsTradeOf, FillSteps, Driven, ErrorOf, TradesOf, Landed, Run, Next, FailsLast, Fails;
    AuctionIsRun(b, references, r);
    var db, f, step := Run(r.before, r.steps[..n]), r.m.fills[n], r.steps[n];
    var landed := Landed(r.before, r.m.fills, r.steps[..n]);
    RunNext(r.before, r.steps, n);
    var d := Next(db, step);
    assert OfTheBook(f, r.before.orders, r.symbol, r.m.equilibriumPrice.GetOr(0.0));
    OneFill(b, db, r.before.orders[f.orderId], f, step);
    assert r.steps[..n + 1] == r.steps[..n] + [step];
    LandedSnoc(r.before, r.m.fills, r.steps[..n], step);
    if ErrorOf(db, step).None? {
      TradesOfSnoc(b, r.before.orders, landed, db.trades, |r.before.trades|, f, d.trades);
    } else {
      assert landed + [] == landed;
    }
    forall j | n < j < |r.m.fills|
      ensures r.m.fills[j].orderId in d.orders
      ensures d.orders[r.m.fills[j].orderId] == db.orders[r.m.fills[j].orderId]
    {
      assert r.m.fills[j].orderId != f.orderId;
    }
  }

  lemma {:induction false} FillsTraded(b: Broker, references: map<Symbol, real>, r: AuctionRun, n: nat)
    requires IsAuctionRun(b, references, r) && OfTheAuction(r)
    requires Sound(r.before) && StepsOk(r.steps) && n <= |r.steps| <= |r.m.fills|
    ensures TradedUpTo(b, r, n)
  {
    hide IsAuctionRun, TradedUpTo;
    if n == 0 {
      NothingTraded(b, r);
    } else {
      FillsTraded(b, references, r, n - 1);
      NextFill(b, references, r, n - 1);
    }
  }

  lemma NothingTraded(b: Broker, r: AuctionRun)
    requires OfTheAuction(r) && Sound(r.before) && StepsOk(r.steps) && |r.steps| <= |r.m.fills|
    ensures TradedUpTo(b, r, 0)
  {
    assert r.steps[..0] == [];
    assert Run(r.before, []) == r.before;
    forall j | 0 <= j < |r.m.fills| ensures r.m.fills[j].orderId in r.before.orders {
      assert OfTheBook(r.m.fills[j], r.before.orders, r.symbol, r.m.equilibriumPrice.GetOr(0.0));
    }
  }

  lemma AppliedIsOfTheBook(r: AuctionRun, k: nat)
    requires Sound(r.before) && StepsOk(r.steps) && |r.steps| <= |r.m.fills| && OfTheAuction(r)
    requires k < |Landed(r.before, r.m.fills, r.steps)|
    ensures r.m.equilibriumPrice.Some?
    ensures OfTheBook(Landed(r.before, r.m.fills, r.steps)[k], r.before.orders, r.symbol, r.m.equilibriumPrice.value)
  {
    hide OfTheBook;
    LandedAmong(r.before, r.m.fills, r.steps, k);
    var j :| 0 <= j < |r.m.fills| && r.m.fills[j] == Landed(r.before, r.m.fills, r.steps)[k];
  }

  lemma {:induction false} LandedAmong(db: Db, fills: seq<Auction.Fill>, steps: seq<Step>, k: nat)
    requires Sound(db) && StepsOk(steps) && |steps| <= |fills| && k < |Landed(db, fills, steps)|
    ensures Landed(db, fills, steps)[k] in fills
    decreases |steps|
  {
    var last := |steps| - 1;
    if k < |Landed(db, fills, steps[..last])| {
      LandedAmong(db, fills, steps[..last], k);
    }
  }

  /** What an auction trades: one trade for each fill that landed, in turn, and nothing else. Each is of a
      pending parentless DAY or GTT limit order of the symbol whose limit admits the clearing price, for the
      quantity of the fill. With slippage on limit orders off, every one of them, on either side, is at the
      clearing price itself. */
  lemma AuctionTradesAtOnePrice(b: Broker, references: map<Symbol, real>, r: AuctionRun, k: nat)
    requires IsAuctionRun(b, references, r)
    ensures r.before.trades <= r.after.trades && |r.after.trades| == |r.before.trades| + |r.applied|
    ensures k < |r.applied| ==>
              var f, t := r.applied[k], r.after.trades[|r.before.trades| + k];
              && t.orderId == f.orderId && f.orderId in r.before.orders && t.qty == f.qty > 0.0
              && r.m.equilibriumPrice.Some?
              && var o, p := r.before.orders[f.orderId], r.m.equilibriumPrice.value;
                 && o.symbol == t.symbol == r.symbol && o.side == t.side && f.qty <= o.qty - o.filledQty
                 && o.status == Pending && o.orderType == Limit && o.parent.None? && (o.tif == Day || o.tif == Gtt)
                 && o.limitPrice.Some?
                 && LimitPays(b.slippage, o.side, o.symbol, p, o.limitPrice.value, t.price)
                 && (!b.slippage.applyToLimits ==> t.price == p)
  {
    hide IsAuctionRun, Landed, OfTheAuction, Run, StillToCome, OfTheBook, IsTradeOf;
    MatchOfTheAuction(b, references, r);
    AuctionIsRun(b, references, r);
    FillsTraded(b, references, r, |r.steps|);
    assert r.steps[..|r.steps|] == r.steps;
    if k < |r.applied| {
      AppliedIsOfTheBook(r, k);
      TradeOfTheBook(b, r.before.orders, r.symbol, r.m.equilibriumPrice.value, r.applied[k],
                     r.after.trades[|r.before.trades| + k]);
    }
  }

  lemma TradeOfTheBook(b: Broker, orders: map<Id, Order>, symbol: Symbol, p: real, f: Auction.Fill, t: Trade)
    requires OfTheBook(f, orders, symbol, p) && IsTradeOf(b, orders[f.orderId], f, t)
    ensures t.orderId == f.orderId && t.qty == f.qty > 0.0
    ensures var o := orders[f.orderId];
            && o.symbol == t.symbol == symbol && o.side == t.side && f.qty <= o.qty - o.filledQty
            && o.status == Pending && o.orderType == Limit && o.parent.None? && (o.tif == Day || o.tif == Gtt)
            && o.limitPrice.Some? && LimitPays(b.slippage, o.side, o.symbol, p, o.limitPrice.value, t.price)
            && (!b.slippage.applyToLimits ==> t.price == p)
  {
  }

  // ----- the price it clears at -----

  /** The auction of a symbol clears as near its live price as it can: of the limit prices that trade as much and
      leave as little over, none is nearer to it, or without one to the midpoint of the highest buy limit and the
      lowest sell limit, and of two as near the higher is taken. */
  lemma ClearsNearestTheLivePrice(b: Broker, references: map<Symbol, real>, r: AuctionRun, p: real, high: real,
                                  low: real, q: real)
    requires IsAuctionRun(b, references, r) && r.m.equilibriumPrice == Some(p)
    requires Auction.IsLimit(r.buys, high) && forall i :: 0 <= i < |r.buys| ==> r.buys[i].price <= high
    requires Auction.IsLimit(r.sells, low) && forall j :: 0 <= j < |r.sells| ==> low <= r.sells[j].price
    requires Auction.IsLimit(r.buys, q) || Auction.IsLimit(r.sells, q)
    ensures var live := if r.symbol in references then references[r.symbol] else (high + low) / 2.0;
            Auction.Executable(r.buys, r.sells, q) == Auction.Executable(r.buys, r.sells, p) &&
            Auction.Imbalance(r.buys, r.sells, q) == Auction.Imbalance(r.buys, r.sells, p) ==>
              Abs(p - live) <= Abs(q - live) && (Abs(p - live) == Abs(q - live) ==> q <= p)
  {
    hide Collected, Trail, TakenInTurn, Landed, Auction.IsEquilibrium, Auction.Volume;
    Auction.ClearsNearestTheReference(r.buys, r.sells, ReferenceFor(references, r.symbol), r.m, p, high, low, q);
  }

  // ----- first come, first served -----

  lemma QueuedRow(book: seq<Auction.BookRow>, orders: map<Id, Order>, symbol: Symbol, side: Side, p: real, i: Id)
    returns (a: nat)
    requires Collected(book, orders, symbol, side) && i in orders && InAuction(orders[i], symbol, side)
    requires if side == Buy then orders[i].limitPrice.value >= p else orders[i].limitPrice.value <= p
    requires RowsOk(orders)
    ensures var queue := Auction.SortBySeq(Auction.Eligible(side, book, p));
            a < |queue| && queue[a] == BookRowOf(Row(i, orders[i]))
  {
    BookNonNegative(book, orders, symbol, side);
    Auction.VolumeNonNegative(side, book, p);
    Auction.SideFillsExact(side, book, 0.0, p);
    var k :| 0 <= k < |book| && book[k].orderId == i;
    var queue := Auction.SortBySeq(Auction.Eligible(side, book, p));
    assert book[k] in book && book[k] in queue;
    a :| 0 <= a < |queue| && queue[a] == book[k];
  }

  lemma RowOfTheQueue(book: seq<Auction.BookRow>, orders: map<Id, Order>, symbol: Symbol, side: Side,
                      row: Auction.BookRow)
    requires Collected(book, orders, symbol, side) && row in book
    ensures row.orderId in orders && row == BookRowOf(Row(row.orderId, orders[row.orderId]))
  {
    var k :| 0 <= k < |book| && book[k] == row;
  }

  lemma SideServesEarlierFirst(book: seq<Auction.BookRow>, orders: map<Id, Order>, symbol: Symbol, side: Side,
                               volume: real, p: real, i: Id, j: Id)
    requires RowsOk(orders) && Collected(book, orders, symbol, side) && 0.0 <= volume <= Auction.Volume(side, book, p)
    requires i in orders && j in orders && InAuction(orders[i], symbol, side) && InAuction(orders[j], symbol, side)
    requires if side == Buy then orders[i].limitPrice.value >= p else orders[i].limitPrice.value <= p
    requires orders[i].createdAt < orders[j].createdAt
    requires exists f :: f in Auction.SideFills(side, book, volume, p) && f.orderId == j
    ensures Auction.Fill(i, orders[i].qty - orders[i].filledQty, p) in Auction.SideFills(side, book, volume, p)
  {
    hide Collected, InAuction, RowsOk, Auction.SideFills, Auction.SortBySeq, Auction.Eligible, Auction.Volume;
    var fills := Auction.SideFills(side, book, volume, p);
    var queue := Auction.SortBySeq(Auction.Eligible(side, book, p));
    BookNonNegative(book, orders, symbol, side);
    Auction.SideFillsExact(side, book, volume, p);
    var a := QueuedRow(book, orders, symbol, side, p, i);
    var f :| f in fills && f.orderId == j;
    var c: nat :| c < |fills| && fills[c] == f;
    RowOfTheQueue(book, orders, symbol, side, queue[c]);
    assert queue[c].submissionSeq == orders[j].createdAt && queue[a].submissionSeq == orders[i].createdAt;
    assert a < c;
    assert fills[a] == Auction.Fill(i, orders[i].qty - orders[i].filledQty, p);
  }

  /** First come, first served, order by order: if the auction gives a later order of a side anything, every
      earlier order of that side whose limit admits the clearing price is given all it wants. */
  lemma EarlierOrdersFirst(b: Broker, references: map<Symbol, real>, r: AuctionRun, p: real, i: Id, j: Id)
    requires IsAuctionRun(b, references, r) && r.m.equilibriumPrice == Some(p)
    requires i in r.before.orders && j in r.before.orders
    requires var o, later := r.before.orders[i], r.before.orders[j];
             && InBook(o) && InBook(later) && o.symbol == later.symbol == r.symbol && o.side == later.side
             && (if o.side == Buy then o.limitPrice.value >= p else o.limitPrice.value <= p)
             && o.createdAt < later.createdAt
    requires exists f :: f in r.m.fills && f.orderId == j
    ensures Auction.Fill(i, r.before.orders[i].qty - r.before.orders[i].filledQty, p) in r.m.fills
  {
    hide Collected, Trail, TakenInTurn, Landed, Auction.SideFills, RowsOk;
    TrailRows(r.before, r.steps, r.after);
    var side, volume := r.before.orders[i].side, r.m.matchedVolume;
    SideOfTheBook(r.buys, r.before.orders, r.symbol, Buy, volume, p);
    SideOfTheBook(r.sells, r.before.orders, r.symbol, Sell, volume, p);
    var f :| f in r.m.fills && f.orderId == j;
    var book := if side == Buy then r.buys else r.sells;
    assert f in Auction.SideFills(side, book, volume, p);
    SideServesEarlierFirst(book, r.before.orders, r.symbol, side, volume, p, i, j);
  }

  // ----- both sides balance in the trade table -----

  ghost function Signed(orders: map<Id, Order>, fills: seq<Auction.Fill>): real {
    if fills == [] then 0.0
    else
      var f := fills[|fills| - 1];
      Signed(orders, fills[..|fills| - 1]) +
        if f.orderId in orders && orders[f.orderId].side == Buy then f.qty else -f.qty
  }

  lemma {:induction false} SignedJoins(orders: map<Id, Order>, first: seq<Auction.Fill>, second: seq<Auction.Fill>)
    ensures Signed(orders, first + second) == Signed(orders, first) + Signed(orders, second)
  {
    if second == [] {
      assert first + second == first;
    } else {
      SignedJoins(orders, first, second[..|second| - 1]);
      assert (first + second)[..|first + second| - 1] == first + second[..|second| - 1];
    }
  }

  lemma {:induction false} SignedSide(orders: map<Id, Order>, fills: seq<Auction.Fill>, side: Side)
    requires forall j :: 0 <= j < |fills| ==> fills[j].orderId in orders && orders[fills[j].orderId].side == side
    ensures Signed(orders, fills) == if side == Buy then Auction.SumFills(fills) else -Auction.SumFills(fills)
  {
    if fills != [] {
      var init, last := fills[..|fills| - 1], fills[|fills| - 1];
      SignedSide(orders, init, side);
      assert fills == init + [last];
      Auction.SumFillsJoins(init, [last]);
      SumFillsOne(last);
    }
  }

  lemma {:induction false} TradesSigned(b: Broker, orders: map<Id, Order>, symbol: Symbol, landed: seq<Auction.Fill>,
                                        trades: seq<Trade>, from: nat, n: nat)
    requires TradesOf(b, orders, landed, trades, from) && n <= |landed|
    requires forall k :: 0 <= k < |landed| ==> landed[k].orderId in orders && orders[landed[k].orderId].symbol == symbol
    ensures TradeSum(NetOf(symbol), trades[..from + n]) ==
            TradeSum(NetOf(symbol), trades[..from]) + Signed(orders, landed[..n])
  {
    hide LimitPays, Fees.Calculate;
    if n > 0 {
      TradesSigned(b, orders, symbol, landed, trades, from, n - 1);
      var t := trades[from + n - 1];
      assert trades[..from + n] == trades[..from + n - 1] + [t];
      assert landed[..n][..n - 1] == landed[..n - 1];
      TradeSumSnoc(NetOf(symbol), trades[..from + n - 1], t);
      assert IsTradeOf(b, orders[landed[n - 1].orderId], landed[n - 1], t);
    } else {
      assert landed[..0] == [];
    }
  }

  lemma FillsBalance(b: Broker, references: map<Symbol, real>, r: AuctionRun)
    requires IsAuctionRun(b, references, r)
    ensures Signed(r.before.orders, r.m.fills) == 0.0
  {
    hide Collected, Trail, TakenInTurn, Landed, Auction.SideFills, RowsOk, OfTheBook;
    TrailRows(r.before, r.steps, r.after);
    if r.m.equilibriumPrice.Some? {
      var p, volume := r.m.equilibriumPrice.value, r.m.matchedVolume;
      BookNonNegative(r.buys, r.before.orders, r.symbol, Buy);
      BookNonNegative(r.sells, r.before.orders, r.symbol, Sell);
      SideOfTheBook(r.buys, r.before.orders, r.symbol, Buy, volume, p);
      SideOfTheBook(r.sells, r.before.orders, r.symbol, Sell, volume, p);
      Auction.SideFillsExact(Buy, r.buys, volume, p);
      Auction.SideFillsExact(Sell, r.sells, volume, p);
      var bought, sold := Auction.SideFills(Buy, r.buys, volume, p), Auction.SideFills(Sell, r.sells, volume, p);
      SignedInTheBook(r.before.orders, r.symbol, p, bought, Buy);
      SignedInTheBook(r.before.orders, r.symbol, p, sold, Sell);
      SignedJoins(r.before.orders, bought, sold);
    }
  }

  lemma SignedInTheBook(orders: map<Id, Order>, symbol: Symbol, p: real, fills: seq<Auction.Fill>, side: Side)
    requires forall j :: 0 <= j < |fills| ==>
               OfTheBook(fills[j], orders, symbol, p) && orders[fills[j].orderId].side == side
    ensures Signed(orders, fills) == if side == Buy then Auction.SumFills(fills) else -Auction.SumFills(fills)
  {
    forall j | 0 <= j < |fills| ensures fills[j].orderId in orders {
      assert OfTheBook(fills[j], orders, symbol, p);
    }
    SignedSide(orders, fills, side);
  }

  /** An auction in which every fill lands buys exactly as many shares as it sells. */
  lemma AuctionBalancesTrades(b: Broker, references: map<Symbol, real>, r: AuctionRun)
    requires IsAuctionRun(b, references, r) && Sound(r.before) && StepsOk(r.steps) && AllLanded(r)
    ensures TradeSum(NetOf(r.symbol), r.after.trades) == TradeSum(NetOf(r.symbol), r.before.trades)
  {
    hide IsAuctionRun, Landed, OfTheAuction, Run, StillToCome, OfTheBook, IsTradeOf, TradeSum, RolledBack, Signed;
    MatchOfTheAuction(b, references, r);
    AuctionIsRun(b, references, r);
    MatchedFills(b, references, r);
    LandedWithin(r.before, r.m.fills, r.steps);
    assert r.m.fills[..|r.m.fills|] == r.m.fills && r.steps[..|r.steps|] == r.steps;
    FillsTraded(b, references, r, |r.steps|);
    FillsBalance(b, references, r);
    var n, all := |r.before.trades|, r.after.trades;
    forall k | 0 <= k < |r.applied|
      ensures r.applied[k].orderId in r.before.orders
      ensures r.before.orders[r.applied[k].orderId].symbol == r.symbol
    {
      AppliedIsOfTheBook(r, k);
      BookOrderSymbol(r.applied[k], r.before.orders, r.symbol, r.m.equilibriumPrice.value);
    }
    TradesSigned(b, r.before.orders, r.symbol, r.applied, all, n, |r.applied|);
    assert all[..n] == r.before.trades && all[..n + |r.applied|] == all && r.applied[..|r.applied|] == r.applied;
  }

  lemma BookOrderSymbol(f: Auction.Fill, orders: map<Id, Order>, symbol: Symbol, p: real)
    requires OfTheBook(f, orders, symbol, p)
    ensures f.orderId in orders && orders[f.orderId].symbol == symbol
  {
  }
}
