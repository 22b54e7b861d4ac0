/** The background watcher: every transaction it starts is a gated, up-to-date, limit-respecting
    step, so every theorem about driven runs holds of what it does. */
module Watcher {
  import opened Domain
  import opened Wrappers
  import opened Slippage
  import opened PartialFills
  import opened BookImpact
  import Fees
  import opened Store
  import opened Books
  import opened Runs
  import opened Brackets
  import opened LimitProtection
  import opened Frozen
  import opened Account

  datatype Row = Row(id: Id, order: Order)

  datatype Quote = Quote(price: real, isStale: bool)

  /** Prices as a tick sees them: the one fetch per symbol that triggers go by, what a market fill
      fetches for itself, the full quote its book is built from, if there is one, and the tick sizes. */
  datatype Feed = Feed(quotes: map<Symbol, Quote>, fills: map<Symbol, Quote>,
                       depthOf: Symbol -> Option<MarketQuote>, tickOf: Symbol -> real, enforceFresh: bool)

  // ----- trails: what a method did, as a run of driven steps -----

  ghost predicate Trail(before: Db, steps: seq<Step>, after: Db) {
    && Sound(before) && Inv(before.orders)
    && StepsOk(steps) && CrossedAlong(steps) && DrivenAlong(before, steps)
    && after == Run(before, steps)
  }

  /** How many of the steps were rolled back. */
  ghost function RolledBack(db: Db, steps: seq<Step>): nat
    requires Sound(db) && StepsOk(steps)
  {
    if steps == [] then 0
    else
      var last := |steps| - 1;
      RolledBack(db, steps[..last]) + if Transact(Run(db, steps[..last]), steps[last]).Rollback? then 1 else 0
  }

  lemma EmptyTrail(db: Db)
    requires Sound(db) && Inv(db.orders)
    ensures Trail(db, [], db) && StepsOk([]) && RolledBack(db, []) == 0
  {
  }

  lemma TrailKeepsInv(before: Db, steps: seq<Step>, after: Db)
    requires Trail(before, steps, after)
    ensures Sound(after) && Inv(after.orders)
  {
    InvAlways(before, steps);
  }

  lemma TrailIsRun(before: Db, steps: seq<Step>, after: Db)
    requires Trail(before, steps, after)
    ensures Sound(before) && StepsOk(steps) && after == Run(before, steps)
  {
  }

  lemma ExtendTrail(before: Db, steps: seq<Step>, after: Db, step: Step)
    requires Trail(before, steps, after) && Driven(after, step) && Crossed(step)
    ensures Trail(before, steps + [step], Next(after, step))
  {
    var longer := steps + [step];
    RunSnoc(before, steps, step);
    forall k | 0 <= k < |longer| ensures Driven(Run(before, longer[..k]), longer[k]) {
      assert longer[..k] == steps[..k];
      if k == |steps| {
        assert steps[..k] == steps;
      }
    }
  }

  lemma SplitTrail(before: Db, steps: seq<Step>, after: Db)
    requires Trail(before, steps, after) && steps != []
    ensures var last := |steps| - 1; var middle := Run(before, steps[..last]);
            Trail(before, steps[..last], middle) && Driven(middle, steps[last]) && Crossed(steps[last])
              && after == Next(middle, steps[last])
  {
    var last := |steps| - 1;
    var init := steps[..last];
    forall k | 0 <= k < last ensures Driven(Run(before, init[..k]), init[k]) {
      PrefixOfPrefix(steps, k);
    }
    assert init == steps[..last];
  }

  lemma LastOfJoined(first: seq<Step>, second: seq<Step>)
    requires second != []
    ensures first + second == (first + second[..|second| - 1]) + [second[|second| - 1]]
  {
  }

  lemma {:induction false} JoinTrails(before: Db, first: seq<Step>, middle: Db, second: seq<Step>, after: Db)
    requires Trail(before, first, middle) && Trail(middle, second, after)
    ensures Trail(before, first + second, after)
  {
    if second == [] {
      assert first + second == first;
    } else {
      var last := |second| - 1;
      SplitTrail(middle, second, after);
      JoinTrails(before, first, middle, second[..last], Run(middle, second[..last]));
      ExtendTrail(before, first + second[..last], Run(middle, second[..last]), second[last]);
      LastOfJoined(first, second);
    }
  }

  /** Filled orders stay exactly as they are along any trail. */
  lemma TrailKeepsFilled(before: Db, steps: seq<Step>, after: Db, id: Id)
    requires Trail(before, steps, after) && id in before.orders && before.orders[id].status == Filled
    ensures id in after.orders && after.orders[id] == before.orders[id]
  {
    TerminalOrdersAreFinal(before, steps, id);
  }

  lemma RolledBackOne(db: Db, step: Step)
    requires Sound(db) && StepOk(step)
    ensures RolledBack(db, [step]) == if Transact(db, step).Rollback? then 1 else 0
  {
    assert [step][..0] == [];
    assert RolledBack(db, [step][..0]) == 0 && Run(db, [step][..0]) == db;
  }

  lemma {:induction false} RolledBackSplits(db: Db, first: seq<Step>, second: seq<Step>)
    requires Sound(db) && StepsOk(first) && StepsOk(second)
    ensures StepsOk(first + second) && Run(db, first + second) == Run(Run(db, first), second)
    ensures RolledBack(db, first + second) == RolledBack(db, first) + RolledBack(Run(db, first), second)
  {
    hide Transact, Next;
    if second == [] {
      assert first + second == first;
    } else {
      var last := |second| - 1;
      RolledBackSplits(db, first, second[..last]);
      LastOfJoined(first, second);
      RunSnoc(db, first + second[..last], second[last]);
      assert (first + second)[..|first + second| - 1] == first + second[..last];
    }
  }

  lemma NoSteps(db: Db, steps: seq<Step>)
    requires Sound(db) && StepsOk(steps)
    ensures RolledBack(db, steps) <= |steps|
  {
    if steps != [] {
      NoSteps(db, steps[..|steps| - 1]);
    }
  }

  /** One trail after another: everything a loop that extends a trail needs to go on. */
  lemma Continue(before: Db, first: seq<Step>, middle: Db, second: seq<Step>, after: Db)
    requires Trail(before, first, middle) && Trail(middle, second, after)
    ensures Trail(before, first + second, after)
    ensures Sound(before) && Sound(middle) && Sound(after) && Inv(after.orders)
    ensures StepsOk(first) && StepsOk(second) && StepsOk(first + second)
    ensures RolledBack(before, first + second) == RolledBack(before, first) + RolledBack(middle, second)
    ensures forall step :: second == [step] ==>
              RolledBack(middle, second) == if Transact(middle, step).Rollback? then 1 else 0
  {
    JoinTrails(before, first, middle, second, after);
    TrailKeepsInv(before, first, middle);
    TrailKeepsInv(middle, second, after);
    RolledBackSplits(before, first, second);
    if |second| == 1 {
      RolledBackOne(middle, second[0]);
      assert second == [second[0]];
    }
  }

  // ----- reading orders -----

  ghost predicate Listed(rows: seq<Row>, orders: map<Id, Order>) {
    && (forall k :: 0 <= k < |rows| ==> rows[k].id in orders && orders[rows[k].id] == rows[k].order)
    && (forall j, k :: 0 <= j < k < |rows| ==> rows[j].id != rows[k].id)
  }

  function WithStatus(orders: map<Id, Order>, status: OrderStatus): set<Id> {
    set i | i in orders && orders[i].status == status
  }

  function AtMost(cap: nat, n: nat): nat {
    if n <= cap then n else cap
  }

  method Newest(b: Broker, ids: set<Id>) returns (i: Id)
    requires ids != {} && ids <= b.orders.Keys
    ensures i in ids && forall j :: j in ids ==> b.orders[j].createdAt <= b.orders[i].createdAt
  {
    EmptyOrHasMember(ids);
    i :| i in ids;
    var rest := ids - {i};
    while rest != {}
      invariant rest <= ids && i in ids
      invariant forall j :: j in ids ==> j in rest || b.orders[j].createdAt <= b.orders[i].createdAt
      decreases rest
    {
      EmptyOrHasMember(rest);
      var j :| j in rest;
      if b.orders[j].createdAt > b.orders[i].createdAt {
        i := j;
      }
      rest := rest - {j};
    }
  }

  ghost predicate NewestFirst(rows: seq<Row>) {
    forall j, k :: 0 <= j < k < |rows| ==> rows[k].order.createdAt <= rows[j].order.createdAt
  }

  /** Every order of the status is among the rows or no newer than any of them. */
  ghost predicate KeepsNewest(rows: seq<Row>, orders: map<Id, Order>, status: OrderStatus) {
    forall i :: i in WithStatus(orders, status) ==>
      || (exists k :: 0 <= k < |rows| && rows[k].id == i)
      || (forall k :: 0 <= k < |rows| ==> orders[i].createdAt <= rows[k].order.createdAt)
  }

  /** `get_orders(status, limit)`: the `cap` newest rows of one status, or all of them when there are fewer,
      newest first. */
  method GetOrders(b: Broker, status: OrderStatus, cap: nat) returns (rows: seq<Row>)
    ensures Listed(rows, b.orders) && NewestFirst(rows) && KeepsNewest(rows, b.orders, status)
    ensures forall k :: 0 <= k < |rows| ==> rows[k].order.status == status
    ensures |rows| == AtMost(cap, |WithStatus(b.orders, status)|)
    ensures |WithStatus(b.orders, status)| <= cap ==> forall i :: i in WithStatus(b.orders, status) ==>
              exists k :: 0 <= k < |rows| && rows[k].id == i
  {
    hide KeepsNewest;
    var ids := WithStatus(b.orders, status);
    ghost var all := ids;
    rows := [];
    while ids != {} && |rows| < cap
      invariant ids <= all && |rows| + |ids| == |all| && |rows| <= cap
      invariant Listed(rows, b.orders) && NewestFirst(rows) && NoNewer(ids, rows, b.orders)
      invariant forall k :: 0 <= k < |rows| ==>
                rows[k].order.status == status && rows[k].id in all && rows[k].id !in ids
      invariant forall i :: i in all ==> i in ids || exists k :: 0 <= k < |rows| && rows[k].id == i
      decreases ids
    {
      var i := Newest(b, ids);
      OneMoreListed(rows, Row(i, b.orders[i]), ids, b.orders);
      ghost var before := rows;
      rows := rows + [Row(i, b.orders[i])];
      ids := ids - {i};
      assert rows[|before|].id == i;
      assert forall k :: 0 <= k < |before| ==> rows[k] == before[k];
    }
    NewestKept(rows, ids, b.orders, status);
    assert |all| <= cap ==> ids == {};
  }

  ghost predicate NoNewer(ids: set<Id>, rows: seq<Row>, orders: map<Id, Order>) {
    forall i, k :: i in ids && i in orders && 0 <= k < |rows| ==> orders[i].createdAt <= rows[k].order.createdAt
  }

  lemma OneMoreListed(rows: seq<Row>, row: Row, ids: set<Id>, orders: map<Id, Order>)
    requires Listed(rows, orders) && NewestFirst(rows) && NoNewer(ids, rows, orders)
    requires row.id in ids && row.id in orders && orders[row.id] == row.order
    requires forall k :: 0 <= k < |rows| ==> rows[k].id !in ids
    requires forall j :: j in ids && j in orders ==> orders[j].createdAt <= row.order.createdAt
    ensures Listed(rows + [row], orders) && NewestFirst(rows + [row]) && NoNewer(ids - {row.id}, rows + [row], orders)
  {
  }

  lemma NewestKept(rows: seq<Row>, ids: set<Id>, orders: map<Id, Order>, status: OrderStatus)
    requires NoNewer(ids, rows, orders)
    requires forall i :: i in WithStatus(orders, status) ==> i in ids || exists k :: 0 <= k < |rows| && rows[k].id == i
    ensures KeepsNewest(rows, orders, status)
  {
  }

  /** A child may act once its parent is filled. */
  predicate Released(o: Order, orders: map<Id, Order>) {
    o.parent.Some? ==> o.parent.value in orders && orders[o.parent.value].status == Filled
  }

  predicate IsStop(o: Order) {
    o.orderType == StopMarket || o.orderType == StopLimit
  }

  // ----- effects of one fill on the rows other orders are read from -----

  lemma OneChildPerType(rows: map<Id, Order>, i: Id, j: Id)
    requires Shape(rows) && i in rows && j in rows && i != j && rows[i].orderType == rows[j].orderType
    ensures rows[i].parent.Some? ==> rows[i].parent != rows[j].parent
  {
    assert IsChild(rows, i) && IsChild(rows, j) && rows[i].parent == rows[j].parent ==> SameIdentity(rows[i], rows[j]);
  }

  lemma StopChildIsStopMarket(rows: map<Id, Order>, i: Id)
    requires Shape(rows) && i in rows && IsStop(rows[i])
    ensures rows[i].parent.Some? ==> rows[i].orderType == StopMarket
  {
    assert IsChild(rows, i) ==> rows[i].parent.value in rows;
  }

  /** Filling one limit order leaves every other limit row as it was: its only open sibling is a stop. */
  lemma OtherLimitsUntouched(db: Db, step: Step, i: Id)
    requires Sound(db) && Inv(db.orders) && Driven(db, step) && step.LimitFillStep?
    requires i in db.orders && i != step.id && db.orders[i].orderType == Limit
    ensures i in Next(db, step).orders && Next(db, step).orders[i] == db.orders[i]
  {
    var o := step.snapshot;
    if Next(db, step).orders != db.orders {
      LimitFillRowByRow(db.orders, step.id, o, step.fillQty, step.price, step.fees,
                        LegPl(db, o.side, o.symbol, SliceQty(o, step.fillQty), step.price, step.fees));
      OneChildPerType(db.orders, step.id, i);
    }
  }

  /** Firing one stop leaves every other stop row as it was. */
  lemma OtherStopsUntouched(db: Db, step: Step, i: Id)
    requires Sound(db) && Inv(db.orders) && Driven(db, step)
    requires step.TriggerStep? || (step.FillPendingStep? && step.snapshot.orderType == StopMarket)
    requires i in db.orders && i != step.id && IsStop(db.orders[i])
    ensures i in Next(db, step).orders && Next(db, step).orders[i] == db.orders[i]
  {
    var o := step.snapshot;
    if step.FillPendingStep? && Next(db, step).orders != db.orders {
      MarketFillRowByRow(db.orders, step.id, o, step.price, step.fees,
                         LegPl(db, o.side, o.symbol, o.qty, step.price, step.fees));
      StopChildIsStopMarket(db.orders, i);
      if db.orders[i].orderType == StopMarket {
        OneChildPerType(db.orders, step.id, i);
      }
    }
  }

  // ----- single actions -----

  function FeeOf(b: Broker, side: Side, qty: real, price: real): real {
    Fees.Calculate(b.feeConfig, side, qty, price, b.exchange).total
  }

  predicate Usable(quotes: map<Symbol, Quote>, symbol: Symbol, enforceFresh: bool) {
    symbol in quotes && !(enforceFresh && quotes[symbol].isStale)
  }

  /** The transaction a limit slice at `last` amounts to; none when slippage rejects the price. */
  function LimitSteps(b: Broker, row: Row, last: real, fillQty: Option<real>): seq<Step> {
    match ApplySlippage(b.slippage, row.order.side, Limit, last, row.order.limitPrice, row.order.symbol)
    case None => []
    case Some(price) => [LimitFillStep(row.id, row.order, price,
                                       FeeOf(b, row.order.side, SliceQty(row.order, fillQty), price), fillQty)]
  }

  /** A slice of a limit order at `last`: what is asked for within what remains, at the price the order pays
      there, charged the fees of just that. */
  ghost predicate IsSlice(b: Broker, row: Row, last: real, fillQty: Option<real>, step: Step) {
    && step.LimitFillStep? && step.id == row.id && step.snapshot == row.order && step.fillQty == fillQty
    && last > 0.0 && row.order.limitPrice.Some?
    && LimitPays(b.slippage, row.order.side, row.order.symbol, last, row.order.limitPrice.value, step.price)
    && var left := row.order.qty - row.order.filledQty;
       var qty := if fillQty.Some? then Min(fillQty.value, left) else left;
       step.fees == Fees.Calculate(b.feeConfig, row.order.side, qty, step.price, b.exchange).total
  }

  lemma LimitStepsExact(b: Broker, row: Row, last: real, fillQty: Option<real>)
    requires row.order.limitPrice.Some?
    ensures forall step :: step in LimitSteps(b, row, last, fillQty) <==> IsSlice(b, row, last, fillQty, step)
    ensures LimitSteps(b, row, last, fillQty) != [] <==> last > 0.0
  {
    hide ApplySlippage, LimitPays, Fees.Calculate;
    var o := row.order;
    var price := ApplySlippage(b.slippage, o.side, Limit, last, o.limitPrice, o.symbol);
    forall step ensures step in LimitSteps(b, row, last, fillQty) <==> IsSlice(b, row, last, fillQty, step) {
      if step.LimitFillStep? {
        LimitPaysExactly(b.slippage, o.side, last, o.limitPrice.value, o.symbol, step.price);
      }
      if price.Some? {
        LimitPaysExactly(b.slippage, o.side, last, o.limitPrice.value, o.symbol, price.value);
      }
    }
    PricedWhenPositive(b.slippage, o.side, Limit, last, o.limitPrice, o.symbol);
  }

  lemma PricedWhenPositive(config: SlippageConfig, side: Side, orderType: OrderType, last: real, limit: Option<real>,
                           symbol: string)
    ensures ApplySlippage(config, side, orderType, last, limit, symbol).Some? <==> last > 0.0
  {
  }

  /** What a market fill pays at the quote it fetches; `None` when there is no usable quote or price. */
  function MarketPrice(b: Broker, o: Order, feed: Feed): Option<real> {
    if !Usable(feed.fills, o.symbol, feed.enforceFresh) then None
    else FillPrice(b.slippage, b.book, o.side, o.qty, feed.fills[o.symbol].price, o.symbol, feed.depthOf(o.symbol),
                   feed.tickOf(o.symbol))
  }

  method PriceMarketOrder(b: Broker, o: Order, feed: Feed) returns (price: Option<real>)
    ensures price == MarketPrice(b, o, feed)
  {
    if !Usable(feed.fills, o.symbol, feed.enforceFresh) {
      return None;
    }
    var last := feed.fills[o.symbol].price;
    price := ApplySlippage(b.slippage, o.side, Market, last, None, o.symbol);
    if price.Some? && b.book.enabled {
      price := ApplyBookImpact(b.book, feed.depthOf(o.symbol), o.side, o.qty, last, feed.tickOf(o.symbol));
    }
  }

  /** The transaction a queued market fill of a row amounts to; none when it is no longer pending or has no price. */
  function QueuedSteps(b: Broker, id: Id, o: Order, feed: Feed): seq<Step> {
    if o.status != Pending || MarketPrice(b, o, feed).None? then []
    else
      var price := MarketPrice(b, o, feed).value;
      [FillPendingStep(id, o, price, FeeOf(b, o.side, o.qty, price))]
  }

  /** What a market fill pays: the quote it fetches, if that is fit for use, moved by slippage, or with the book
      on what the order's own walk of its book comes to. */
  ghost predicate MarketPaid(b: Broker, o: Order, feed: Feed, price: real) {
    && o.symbol in feed.fills && !(feed.enforceFresh && feed.fills[o.symbol].isStale)
    && var last := feed.fills[o.symbol].price;
       && last > 0.0
       && if b.book.enabled
          then BookPrice(b.book, feed.depthOf(o.symbol), o.side, o.qty, last, feed.tickOf(o.symbol)) == Some(price)
          else price == Moved(b.slippage, o.side, o.symbol, last)
  }

  /** The whole fill of a pending row at what it pays, charged the fees of just that. */
  ghost predicate IsWholeFill(b: Broker, id: Id, o: Order, feed: Feed, step: Step) {
    && step.FillPendingStep? && step.id == id && step.snapshot == o && o.status == Pending
    && MarketPaid(b, o, feed, step.price)
    && step.fees == Fees.Calculate(b.feeConfig, o.side, o.qty, step.price, b.exchange).total
  }

  lemma QueuedStepsExact(b: Broker, id: Id, o: Order, feed: Feed)
    ensures forall step :: step in QueuedSteps(b, id, o, feed) <==> IsWholeFill(b, id, o, feed, step)
  {
    hide ApplySlippage, BookPrice, Fees.Calculate, Moved;
    forall price: real ensures MarketPrice(b, o, feed) == Some(price) <==> MarketPaid(b, o, feed, price) {
      if Usable(feed.fills, o.symbol, feed.enforceFresh) {
        var last := feed.fills[o.symbol].price;
        PricedWhenPositive(b.slippage, o.side, Market, last, None, o.symbol);
        MarketPaysExactly(b.slippage, o.side, last, o.symbol, price);
      }
    }
  }

  function Marked(o: Order): Order {
    if o.status == Pending then o.(triggered := true) else o
  }

  /** A touched stop: the mark or conversion, then a stop-market's fill. */
  function StopSteps(b: Broker, row: Row, feed: Feed): seq<Step> {
    [TriggerStep(row.id, row.order)] +
      if row.order.orderType == StopMarket then QueuedSteps(b, row.id, Marked(row.order), feed) else []
  }

  /** The stop needs no market price, or has one. */
  predicate Priced(b: Broker, o: Order, feed: Feed) {
    o.orderType == StopMarket && o.status == Pending ==> MarketPrice(b, o, feed).Some?
  }

  lemma CrossingPrice(b: Broker, row: Row, last: real, price: real, fees: real, fillQty: Option<real>)
    requires row.order.limitPrice.Some? && NoWorse(row.order.side, last, row.order.limitPrice.value)
    requires ApplySlippage(b.slippage, row.order.side, Limit, last, row.order.limitPrice, row.order.symbol) ==
             Some(price)
    ensures Crossed(LimitFillStep(row.id, row.order, price, fees, fillQty))
  {
  }

  /** What the transaction reports. */
  ghost function ErrorOf(db: Db, step: Step): Option<TxError>
    requires Sound(db) && StepOk(step)
  {
    match Transact(db, step)
    case Commit(_) => None
    case Rollback(e) => Some(e)
  }

  /** No row but this one has changed, appeared or gone. */
  ghost predicate OnlyRow(rows: map<Id, Order>, rows': map<Id, Order>, id: Id) {
    rows.Keys == rows'.Keys && forall i :: i in rows && i != id ==> rows'[i] == rows[i]
  }

  lemma SliceEvolves(db: Db, step: Step)
    requires Sound(db) && Inv(db.orders) && Driven(db, step) && step.LimitFillStep?
    ensures Evolves(db.orders, Next(db, step).orders)
  {
    EarlierItself(db, step);
    BaseNext(db, step);
  }

  lemma ParentlessSliceIsAlone(db: Db, step: Step)
    requires Sound(db) && Driven(db, step) && step.LimitFillStep? && step.snapshot.parent.None?
    ensures OnlyRow(db.orders, Next(db, step).orders, step.id)
  {
    LimitFillTrades(db, step);
    if Next(db, step).orders != db.orders {
      hide RowsAfterLimitFill, ExecuteLeg;
      var o := step.snapshot;
      LimitFillRowByRow(db.orders, step.id, o, step.fillQty, step.price, step.fees,
                        LegPl(db, o.side, o.symbol, SliceQty(o, step.fillQty), step.price, step.fees));
    }
  }

  /** Slippage, fees and the fill transaction for a limit order the price has reached. */
  method FillAt(b: Broker, row: Row, last: real, fillQty: Option<real>)
    returns (error: Option<TxError>, ghost steps: seq<Step>)
    requires Sound(b.Tables()) && Inv(b.orders)
    requires row.id in b.orders && b.orders[row.id] == row.order
    requires row.order.orderType == Limit && Released(row.order, b.orders)
    requires row.order.limitPrice.Some? && NoWorse(row.order.side, last, row.order.limitPrice.value)
    modifies b
    ensures Trail(old(b.Tables()), steps, b.Tables())
    ensures steps == LimitSteps(b, row, last, fillQty) && |steps| <= 1
    ensures forall step :: step in steps ==> IsSlice(b, row, last, fillQty, step)
    ensures steps == [] ==> error == Some(InvalidOrder)
    ensures error.None? <==> |steps| == 1 && RolledBack(old(b.Tables()), steps) == 0
    ensures steps != [] ==> error == ErrorOf(old(b.Tables()), steps[0])
    ensures forall i :: i in old(b.orders) && i != row.id && old(b.orders)[i].orderType == Limit ==>
              i in b.orders && b.orders[i] == old(b.orders)[i]
    ensures Evolves(old(b.orders), b.orders)
    ensures row.order.parent.None? ==> OnlyRow(old(b.orders), b.orders, row.id)
  {
    hide IsSlice, Trail, Fees.Calculate, ApplySlippage, Run, Evolves;
    ghost var before := b.Tables();
    steps := [];
    LimitStepsExact(b, row, last, fillQty);
    EmptyTrail(before);
    EvolvesSelf(before.orders);
    var adjusted := ApplySlippage(b.slippage, row.order.side, Limit, last, row.order.limitPrice, row.order.symbol);
    if adjusted.None? {
      return Some(InvalidOrder), steps;
    }
    var fees := FeeOf(b, row.order.side, SliceQty(row.order, fillQty), adjusted.value);
    error := b.FillLimit(row.id, row.order, adjusted.value, fees, fillQty);
    ghost var step := LimitFillStep(row.id, row.order, adjusted.value, fees, fillQty);
    CrossingPrice(b, row, last, adjusted.value, fees, fillQty);
    ExtendTrail(before, [], before, step);
    assert [] + [step] == [step];
    steps := [step];
    RolledBackOne(before, step);
    assert b.Tables() == Next(before, step);
    forall i | i in before.orders && i != row.id && before.orders[i].orderType == Limit
      ensures i in b.orders && b.orders[i] == before.orders[i]
    {
      OtherLimitsUntouched(before, step, i);
    }
    SliceEvolves(before, step);
    if row.order.parent.None? {
      ParentlessSliceIsAlone(before, step);
    }
  }

  /** A whole fill of `o` leaves such an order alone: `o` has no siblings, or both are stops. */
  predicate OutOfReach(o: Order, other: Order) {
    o.parent.None? || (o.orderType == StopMarket && IsStop(other))
  }

  lemma OthersUntouched(db: Db, step: Step, i: Id)
    requires Sound(db) && Inv(db.orders) && Driven(db, step) && step.FillPendingStep?
    requires i in db.orders && i != step.id
    requires OutOfReach(step.snapshot, db.orders[i])
    ensures i in Next(db, step).orders && Next(db, step).orders[i] == db.orders[i]
  {
    var o := step.snapshot;
    if o.parent.Some? {
      OtherStopsUntouched(db, step, i);
    } else if Next(db, step).orders != db.orders {
      MarketFillRowByRow(db.orders, step.id, o, step.price, step.fees,
                         LegPl(db, o.side, o.symbol, o.qty, step.price, step.fees));
    }
  }

  /** The whole fill of a current, released market or stop-market row as a run of its own. */
  lemma WholeFillTrail(db: Db, step: Step)
    requires Sound(db) && Inv(db.orders) && step.FillPendingStep?
    requires step.id in db.orders && db.orders[step.id] == step.snapshot && Released(step.snapshot, db.orders)
    requires step.snapshot.orderType == Market || step.snapshot.orderType == StopMarket
    ensures StepOk(step) && Trail(db, [step], Next(db, step))
    ensures RolledBack(db, [step]) == if Transact(db, step).Rollback? then 1 else 0
    ensures forall i :: i in db.orders && i != step.id && OutOfReach(step.snapshot, db.orders[i]) ==>
              i in Next(db, step).orders && Next(db, step).orders[i] == db.orders[i]
  {
    assert Driven(db, step) && Crossed(step);
    EmptyTrail(db);
    ExtendTrail(db, [], db, step);
    assert [] + [step] == [step];
    RolledBackOne(db, step);
    hide Next, Inv, Driven, OutOfReach;
    forall i | i in db.orders && i != step.id && OutOfReach(step.snapshot, db.orders[i])
      ensures i in Next(db, step).orders && Next(db, step).orders[i] == db.orders[i]
    {
      OthersUntouched(db, step, i);
    }
  }

  /** Quote, slippage, fees and the fill transaction for a queued market order, read afresh. */
  method FillQueued(b: Broker, id: Id, feed: Feed) returns (error: Option<TxError>, ghost steps: seq<Step>)
    requires Sound(b.Tables()) && Inv(b.orders)
    requires id in b.orders ==> (b.orders[id].orderType == Market || b.orders[id].orderType == StopMarket)
    requires id in b.orders ==> Released(b.orders[id], b.orders)
    modifies b
    ensures Trail(old(b.Tables()), steps, b.Tables())
    ensures |steps| <= 1 && steps == if id in old(b.orders) then QueuedSteps(b, id, old(b.orders)[id], feed) else []
    ensures id in old(b.orders) ==>
              forall step :: step in steps <==> IsWholeFill(b, id, old(b.orders)[id], feed, step)
    ensures id in old(b.orders) && old(b.orders)[id].status == Pending ==>
              (error.None? <==> |steps| == 1 && RolledBack(old(b.Tables()), steps) == 0)
    ensures id !in old(b.orders) || old(b.orders)[id].status != Pending ==> error.None?
    ensures id in old(b.orders) ==>
            forall i :: i in old(b.orders) && i != id && OutOfReach(old(b.orders)[id], old(b.orders)[i]) ==>
              i in b.orders && b.orders[i] == old(b.orders)[i]
  {
    hide IsWholeFill, Trail, FillPrice, Run, Fees.Calculate, ApplySlippage, RolledBack, OutOfReach;
    ghost var before := b.Tables();
    steps := [];
    if id in b.orders {
      QueuedStepsExact(b, id, b.orders[id], feed);
    }
    EmptyTrail(before);
    NoSteps(before, []);
    error := None;
    if id !in b.orders || b.orders[id].status != Pending {
      return;
    }
    var o := b.orders[id];
    var price := PriceMarketOrder(b, o, feed);
    if price.None? {
      return Some(PriceUnavailable), steps;
    }
    var fees := FeeOf(b, o.side, o.qty, price.value);
    error := b.FillPendingMarket(id, o, price.value, fees);
    ghost var step := FillPendingStep(id, o, price.value, fees);
    WholeFillTrail(before, step);
    steps := [step];
  }

  /** The first half of a touched stop: the mark or the conversion. */
  method MarkStop(b: Broker, row: Row) returns (ghost steps: seq<Step>)
    requires Sound(b.Tables()) && Inv(b.orders)
    requires row.id in b.orders && b.orders[row.id] == row.order
    requires IsStop(row.order) && Released(row.order, b.orders)
    modifies b
    ensures Trail(old(b.Tables()), steps, b.Tables())
    ensures steps == [TriggerStep(row.id, row.order)] && RolledBack(old(b.Tables()), steps) == 0
    ensures Sound(b.Tables()) && Inv(b.orders)
    ensures row.id in b.orders && Released(b.orders[row.id], b.orders)
    ensures row.order.orderType == StopMarket ==> b.orders[row.id] == Marked(row.order)
    ensures forall i :: i in old(b.orders) && i != row.id && IsStop(old(b.orders)[i]) ==>
            i in b.orders && b.orders[i] == old(b.orders)[i]
  {
    ghost var before := b.Tables();
    EmptyTrail(before);
    ghost var step := TriggerStep(row.id, row.order);
    b.TriggerStop(row.id, row.order);
    assert b.Tables() == Next(before, step);
    ExtendTrail(before, [], before, step);
    assert [] + [step] == [step];
    steps := [step];
    RolledBackOne(before, step);
    TrailKeepsInv(before, steps, b.Tables());
    if row.order.parent.Some? {
      TrailKeepsFilled(before, steps, b.Tables(), row.order.parent.value);
    }
    forall i | i in before.orders && i != row.id && IsStop(before.orders[i])
      ensures i in b.orders && b.orders[i] == before.orders[i]
    {
      OtherStopsUntouched(before, step, i);
    }
  }

  /** A touched stop: mark or convert it, then fill a stop-market from a fresh read. */
  method FireStop(b: Broker, row: Row, feed: Feed) returns (error: Option<TxError>, ghost steps: seq<Step>)
    requires Sound(b.Tables()) && Inv(b.orders)
    requires row.id in b.orders && b.orders[row.id] == row.order
    requires IsStop(row.order) && Released(row.order, b.orders)
    modifies b
    ensures Trail(old(b.Tables()), steps, b.Tables())
    ensures steps == StopSteps(b, row, feed)
    ensures error.None? <==> Priced(b, row.order, feed) && RolledBack(old(b.Tables()), steps) == 0
    ensures RolledBack(old(b.Tables()), steps) <= if Priced(b, row.order, feed) then 1 else 0
    ensures forall i :: i in old(b.orders) && i != row.id && IsStop(old(b.orders)[i]) ==>
            i in b.orders && b.orders[i] == old(b.orders)[i]
  {
    hide Trail, Inv, RolledBack, Run, Released;
    ghost var before := b.Tables();
    steps := MarkStop(b, row);
    ghost var marked := b.Tables();
    error := None;
    if row.order.orderType == StopMarket {
      ghost var more;
      error, more := FillQueued(b, row.id, feed);
      Continue(before, steps, marked, more, b.Tables());
      NoSteps(marked, more);
      steps := steps + more;
    }
  }

  // ----- one matching pass -----

  /** What the watcher reads before a pass: rows of released orders, none of them out of date. */
  ghost predicate Ready(rows: seq<Row>, from: nat, orders: map<Id, Order>)
    requires from <= |rows|
  {
    && (forall k :: from <= k < |rows| ==>
        rows[k].id in orders && orders[rows[k].id] == rows[k].order && Released(rows[k].order, orders))
    && (forall j, k :: 0 <= j < k < |rows| ==> rows[j].id != rows[k].id)
  }

  /** `get_orders` is asked for a thousand rows of each status. */
  const CAP := 1000

  ghost predicate WithinCap(orders: map<Id, Order>) {
    |WithStatus(orders, Pending)| <= CAP && |WithStatus(orders, PartiallyFilled)| <= CAP
  }

  /** The newest rows of one status, as many as the cap allows, newest first. */
  ghost predicate IsPull(rows: seq<Row>, orders: map<Id, Order>, status: OrderStatus) {
    && |rows| == AtMost(CAP, |WithStatus(orders, status)|) && NewestFirst(rows) && KeepsNewest(rows, orders, status)
    && forall k :: 0 <= k < |rows| ==> rows[k].order.status == status
  }

  /** Open rows as they stand: the pending ones pulled, then the partially filled ones; all of them when the
      cap allows all. */
  ghost predicate Pulled(rows: seq<Row>, orders: map<Id, Order>) {
    && Listed(rows, orders) && (forall k :: 0 <= k < |rows| ==> Open(rows[k].order))
    && (exists pending, partials :: rows == pending + partials
          && IsPull(pending, orders, Pending) && IsPull(partials, orders, PartiallyFilled))
    && (WithinCap(orders) ==> forall i :: i in orders && Open(orders[i]) ==>
        exists k :: 0 <= k < |rows| && rows[k].id == i)
  }

  method PullOpen(b: Broker) returns (rows: seq<Row>)
    ensures Pulled(rows, b.orders)
  {
    var pending := GetOrders(b, Pending, CAP);
    var partials := GetOrders(b, PartiallyFilled, CAP);
    rows := pending + partials;
    assert IsPull(pending, b.orders, Pending) && IsPull(partials, b.orders, PartiallyFilled);
    forall j, k | 0 <= j < k < |rows| ensures rows[j].id != rows[k].id {
      if j < |pending| && |pending| <= k {
        assert rows[j].order.status == Pending && rows[k].order.status == PartiallyFilled;
      }
    }
    if WithinCap(b.orders) {
      forall i | i in b.orders && Open(b.orders[i]) ensures exists k :: 0 <= k < |rows| && rows[k].id == i {
        if i in WithStatus(b.orders, Pending) {
          var k :| 0 <= k < |pending| && pending[k].id == i;
          assert rows[k].id == i;
        } else {
          assert i in WithStatus(b.orders, PartiallyFilled);
          var k :| 0 <= k < |partials| && partials[k].id == i;
          assert rows[|pending| + k].id == i;
        }
      }
    }
  }

  predicate Wanted(o: Order, stops: bool) {
    if stops then IsStop(o) else o.orderType == Limit
  }

  /** The rows are the released orders of one kind among the open rows one pull returned, in its order, as
      they now stand and each once; so, when no status has more than the cap, all the released open ones. */
  ghost predicate Selected(rows: seq<Row>, orders: map<Id, Order>, stops: bool) {
    && Ready(rows, 0, orders)
    && (exists listed :: Pulled(listed, orders) && rows == Chosen(listed, orders, stops))
    && (forall k :: 0 <= k < |rows| ==> Wanted(rows[k].order, stops) && Open(rows[k].order))
    && (WithinCap(orders) ==>
        forall i :: i in orders && Open(orders[i]) && Wanted(orders[i], stops) && Released(orders[i], orders) ==>
          exists k :: 0 <= k < |rows| && rows[k].id == i)
  }

  /** The released rows of one kind, in the order they are listed. */
  function Chosen(listed: seq<Row>, orders: map<Id, Order>, stops: bool): seq<Row> {
    if listed == [] then []
    else
      var last := |listed| - 1;
      Chosen(listed[..last], orders, stops) +
        if Chooses(listed[last], orders, stops) then [listed[last]] else []
  }

  predicate Chooses(row: Row, orders: map<Id, Order>, stops: bool) {
    Wanted(row.order, stops) && Released(row.order, orders)
  }

  /** They are current, distinct, and exactly the listed ones of the kind that are released. */
  lemma {:induction false} ChosenExact(listed: seq<Row>, orders: map<Id, Order>, stops: bool)
    requires Listed(listed, orders)
    ensures var rows := Chosen(listed, orders, stops);
            && (forall row :: row in rows <==> row in listed && Chooses(row, orders, stops))
            && (forall j, k :: 0 <= j < k < |rows| ==> rows[j].id != rows[k].id)
  {
    hide Chooses;
    if listed != [] {
      var init, last := listed[..|listed| - 1], listed[|listed| - 1];
      assert listed == init + [last];
      ChosenExact(init, orders, stops);
      assert forall row :: row in init ==> row.id != last.id;
    }
  }

  method KeepReleased(b: Broker, listed: seq<Row>, stops: bool) returns (rows: seq<Row>)
    ensures rows == Chosen(listed, b.orders, stops)
  {
    rows := [];
    assert listed[..|listed|] == listed;
    for j := 0 to |listed|
      invariant rows == Chosen(listed[..j], b.orders, stops)
    {
      assert listed[..j + 1][..j] == listed[..j];
      if Chooses(listed[j], b.orders, stops) {
        rows := rows + [listed[j]];
      }
    }
  }

  lemma ChosenReady(listed: seq<Row>, orders: map<Id, Order>, stops: bool)
    requires Pulled(listed, orders)
    ensures var rows := Chosen(listed, orders, stops);
            Ready(rows, 0, orders) && forall k :: 0 <= k < |rows| ==>
              Wanted(rows[k].order, stops) && Open(rows[k].order)
  {
    hide Chosen, IsPull, Wanted, WithinCap, Released;
    var rows := Chosen(listed, orders, stops);
    ChosenExact(listed, orders, stops);
    forall k | 0 <= k < |rows|
      ensures rows[k].id in orders && orders[rows[k].id] == rows[k].order && Chooses(rows[k], orders, stops)
      ensures Open(rows[k].order)
    {
      assert rows[k] in rows && rows[k] in listed;
      var l :| 0 <= l < |listed| && listed[l] == rows[k];
    }
  }

  lemma ChosenAll(listed: seq<Row>, orders: map<Id, Order>, stops: bool, i: Id)
    requires Pulled(listed, orders) && WithinCap(orders)
    requires i in orders && Open(orders[i]) && Wanted(orders[i], stops) && Released(orders[i], orders)
    ensures exists k :: 0 <= k < |Chosen(listed, orders, stops)| && Chosen(listed, orders, stops)[k].id == i
  {
    hide Chosen, IsPull, Wanted, Released, WithinCap, Open;
    var rows := Chosen(listed, orders, stops);
    ChosenExact(listed, orders, stops);
    var l :| 0 <= l < |listed| && listed[l].id == i;
    assert listed[l] in listed && Chooses(listed[l], orders, stops);
    var k :| 0 <= k < |rows| && rows[k] == listed[l];
  }

  method Select(b: Broker, listed: seq<Row>, stops: bool) returns (rows: seq<Row>)
    requires Pulled(listed, b.orders)
    ensures Selected(rows, b.orders, stops)
  {
    hide Pulled, Chosen, WithinCap, Wanted, Released, Open, Ready;
    rows := KeepReleased(b, listed, stops);
    ChosenReady(listed, b.orders, stops);
    if WithinCap(b.orders) {
      forall i | i in b.orders && Open(b.orders[i]) && Wanted(b.orders[i], stops) && Released(b.orders[i], b.orders)
        ensures exists k :: 0 <= k < |rows| && rows[k].id == i
      {
        ChosenAll(listed, b.orders, stops, i);
      }
    }
  }

  lemma SelectedReady(rows: seq<Row>, orders: map<Id, Order>, stops: bool)
    requires Selected(rows, orders, stops)
    ensures Ready(rows, 0, orders) && forall k :: 0 <= k < |rows| ==> Wanted(rows[k].order, stops)
  {
  }

  predicate Touched(o: Order, price: real) {
    o.stopPrice.Some? && if o.side == Buy then price >= o.stopPrice.value else price <= o.stopPrice.value
  }

  predicate Reached(o: Order, price: real) {
    o.limitPrice.Some? && NoWorse(o.side, price, o.limitPrice.value)
  }

  predicate Fires(o: Order, feed: Feed) {
    Usable(feed.quotes, o.symbol, feed.enforceFresh) && Touched(o, feed.quotes[o.symbol].price)
  }

  predicate Fills(o: Order, feed: Feed, partial: PartialFillConfig) {
    Usable(feed.quotes, o.symbol, feed.enforceFresh) && Reached(o, feed.quotes[o.symbol].price)
      && FillQty(partial, Remaining(o)) > 0.0
  }

  /** What the stop loop does, stop by stop. */
  function AllStopSteps(b: Broker, stops: seq<Row>, feed: Feed): seq<Step> {
    if stops == [] then []
    else
      var row := stops[|stops| - 1];
      AllStopSteps(b, stops[..|stops| - 1], feed) + if Fires(row.order, feed) then StopSteps(b, row, feed) else []
  }

  /** How many stops fire with a price to fill at. */
  function StopAttempts(b: Broker, stops: seq<Row>, feed: Feed): nat {
    if stops == [] then 0
    else
      var o := stops[|stops| - 1].order;
      StopAttempts(b, stops[..|stops| - 1], feed) + if Fires(o, feed) && Priced(b, o, feed) then 1 else 0
  }

  /** What the limit loop does: one slice for every order the price has reached. */
  function AllLimitSteps(b: Broker, limits: seq<Row>, feed: Feed, partial: PartialFillConfig): seq<Step> {
    if limits == [] then []
    else
      var row := limits[|limits| - 1];
      AllLimitSteps(b, limits[..|limits| - 1], feed, partial) +
        if Fills(row.order, feed, partial)
        then LimitSteps(b, row, feed.quotes[row.order.symbol].price, Some(FillQty(partial, Remaining(row.order))))
        else []
  }

  /** After a trail that left the remaining rows alone they are still ready. */
  lemma StillReady(rows: seq<Row>, from: nat, before: Db, steps: seq<Step>, after: Db)
    requires from < |rows| && Ready(rows, from, before.orders) && Trail(before, steps, after)
    requires forall k :: from < k < |rows| ==>
             rows[k].id in after.orders && after.orders[rows[k].id] == before.orders[rows[k].id]
    ensures Ready(rows, from + 1, after.orders)
  {
    forall k | from < k < |rows| ensures Released(rows[k].order, after.orders) {
      if rows[k].order.parent.Some? {
        TrailKeepsFilled(before, steps, after, rows[k].order.parent.value);
      }
    }
  }

  /** Stop triggers, before any limit fill of the pass. Errors are caught and the pass goes on. */
  method FireStops(b: Broker, stops: seq<Row>, feed: Feed) returns (fired: nat, ghost steps: seq<Step>)
    requires Sound(b.Tables()) && Inv(b.orders)
    requires Ready(stops, 0, b.orders) && forall k :: 0 <= k < |stops| ==> IsStop(stops[k].order)
    modifies b
    ensures Trail(old(b.Tables()), steps, b.Tables())
    ensures steps == AllStopSteps(b, stops, feed)
    ensures fired + RolledBack(old(b.Tables()), steps) == StopAttempts(b, stops, feed)
  {
    hide Trail, Inv, RolledBack, Run, StopSteps, Priced, Fires;
    ghost var before := b.Tables();
    fired, steps := 0, [];
    EmptyTrail(before);
    assert stops[..|stops|] == stops;
    for k := 0 to |stops|
      invariant Trail(before, steps, b.Tables()) && Sound(before) && StepsOk(steps)
      invariant Sound(b.Tables()) && Inv(b.orders)
      invariant Ready(stops, k, b.orders)
      invariant steps == AllStopSteps(b, stops[..k], feed)
      invariant fired + RolledBack(before, steps) == StopAttempts(b, stops[..k], feed)
    {
      var row := stops[k];
      assert stops[..k + 1][..k] == stops[..k];
      if Fires(row.order, feed) {
        ghost var middle := b.Tables();
        var error; ghost var more;
        error, more := FireStop(b, row, feed);
        StillReady(stops, k, middle, more, b.Tables());
        Continue(before, steps, middle, more, b.Tables());
        steps := steps + more;
        if error.None? {
          fired := fired + 1;
        }
      }
    }
  }

  /** Limit fills, sliced by the partial-fill cap. Errors are caught and the pass goes on. */
  method FillLimits(b: Broker, limits: seq<Row>, feed: Feed, partial: PartialFillConfig)
    returns (filled: nat, ghost steps: seq<Step>)
    requires Sound(b.Tables()) && Inv(b.orders)
    requires Ready(limits, 0, b.orders) && forall k :: 0 <= k < |limits| ==> limits[k].order.orderType == Limit
    modifies b
    ensures Trail(old(b.Tables()), steps, b.Tables())
    ensures steps == AllLimitSteps(b, limits, feed, partial)
    ensures filled + RolledBack(old(b.Tables()), steps) == |steps|
  {
    hide Trail, Inv, RolledBack, Run, LimitSteps;
    ghost var before := b.Tables();
    filled, steps := 0, [];
    EmptyTrail(before);
    assert limits[..|limits|] == limits;
    for k := 0 to |limits|
      invariant Trail(before, steps, b.Tables()) && Sound(before) && StepsOk(steps)
      invariant Sound(b.Tables()) && Inv(b.orders)
      invariant Ready(limits, k, b.orders)
      invariant steps == AllLimitSteps(b, limits[..k], feed, partial)
      invariant filled + RolledBack(before, steps) == |steps|
    {
      var row := limits[k];
      assert limits[..k + 1][..k] == limits[..k];
      if Usable(feed.quotes, row.order.symbol, feed.enforceFresh)
        && Reached(row.order, feed.quotes[row.order.symbol].price)
      {
        var slice := FillQty(partial, Remaining(row.order));
        if slice > 0.0 {
          ghost var middle := b.Tables();
          var error; ghost var more;
          error, more := FillAt(b, row, feed.quotes[row.order.symbol].price, Some(slice));
          StillReady(limits, k, middle, more, b.Tables());
          Continue(before, steps, middle, more, b.Tables());
          NoSteps(middle, more);
          steps := steps + more;
          if error.None? {
            filled := filled + 1;
          }
        }
      }
    }
  }

  /** The prices fetched for a pass: those of the symbols selected before any stop fires. */
  function Fetched(feed: Feed, rows: seq<Row>): Feed {
    var symbols := set k | 0 <= k < |rows| :: rows[k].order.symbol;
    feed.(quotes := map s | s in feed.quotes && s in symbols :: feed.quotes[s])
  }

  /** A whole matching pass: prices fetched for the released open stops and limits as they stood, the
      stops fired in turn, then the released open limit orders as they stood after that sliced in
      turn at those prices; what it reports are the attempts that were not rolled back. */
  ghost predicate IsPass(b: Broker, before: Db, feed: Feed, partial: PartialFillConfig, stops: seq<Row>,
                         first: seq<Row>, limits: seq<Row>, steps: seq<Step>, fills: nat)
  {
    var prices := Fetched(feed, first + stops);
    var fired := AllStopSteps(b, stops, prices);
    && Sound(before) && StepsOk(fired) && StepsOk(steps)
    && Selected(stops, before.orders, true) && Selected(first, before.orders, false)
    && Selected(limits, Run(before, fired).orders, false) && (stops == [] ==> limits == first)
    && steps == fired + AllLimitSteps(b, limits, prices, partial)
    && fills + RolledBack(before, steps) == StopAttempts(b, stops, prices) + |AllLimitSteps(b, limits, prices, partial)|
  }

  lemma NothingToDo(b: Broker, before: Db, feed: Feed, partial: PartialFillConfig, stops: seq<Row>, limits: seq<Row>)
    requires Sound(before) && stops == [] && limits == []
    requires Selected(stops, before.orders, true) && Selected(limits, before.orders, false)
    ensures IsPass(b, before, feed, partial, stops, limits, limits, [], 0)
  {
  }

  lemma NoStepsNoChange(before: Db, steps: seq<Step>, after: Db)
    requires Trail(before, steps, after) && steps == []
    ensures after == before
  {
  }

  /** The matching pass of one tick. When no other thread writes in between, no snapshot it acts on
      is ever out of date, no child is filled before its parent, and no slice is priced past its
      limit: the pass is a trail. */
  method MatchPass(b: Broker, feed: Feed, partial: PartialFillConfig)
    returns (fills: nat, ghost stops: seq<Row>, ghost first: seq<Row>, ghost limits: seq<Row>, ghost steps: seq<Step>)
    requires Sound(b.Tables()) && Inv(b.orders)
    modifies b
    ensures Trail(old(b.Tables()), steps, b.Tables())
    ensures IsPass(b, old(b.Tables()), feed, partial, stops, first, limits, steps, fills)
  {
    hide Trail, Inv, RolledBack, Run, Selected, Pulled, Ready, Fetched, StopAttempts;
    ghost var before := b.Tables();
    EmptyTrail(before);
    var open := PullOpen(b);
    var limitRows := Select(b, open, false);
    var stopRows := Select(b, open, true);
    stops, first, limits := stopRows, limitRows, limitRows;
    if limitRows == [] && stopRows == [] {
      NothingToDo(b, before, feed, partial, stops, limits);
      return 0, stops, first, limits, [];
    }
    SelectedReady(stopRows, b.orders, true);
    var prices := Fetched(feed, limitRows + stopRows);
    fills, steps := FireStops(b, stopRows, prices);
    ghost var middle := b.Tables();
    TrailIsRun(before, steps, middle);
    TrailKeepsInv(before, steps, middle);
    if stopRows != [] {
      open := PullOpen(b);
      limitRows := Select(b, open, false);
    }
    limits := limitRows;
    assert stopRows == [] ==> steps == [];
    assert Selected(limits, middle.orders, false) by {
      if stopRows == [] {
        NoStepsNoChange(before, steps, middle);
      }
    }
    SelectedReady(limitRows, middle.orders, false);
    var filled; ghost var more;
    filled, more := FillLimits(b, limitRows, prices, partial);
    Continue(before, steps, middle, more, b.Tables());
    steps := steps + more;
    fills := fills + filled;
  }

  // ----- after-market orders -----

  ghost predicate ListsPending(rows: seq<Row>, orders: map<Id, Order>) {
    && Listed(rows, orders)
    && forall i :: i in orders && orders[i].status == Pending ==> exists k :: 0 <= k < |rows| && rows[k].id == i
  }

  ghost predicate OldestFirst(rows: seq<Row>) {
    forall j, k :: 0 <= j < k < |rows| ==> rows[j].order.createdAt <= rows[k].order.createdAt
  }

  /** Every pending row, without a cap, oldest first. */
  method AllPending(b: Broker) returns (rows: seq<Row>)
    ensures ListsPending(rows, b.orders) && OldestFirst(rows)
    ensures forall k :: 0 <= k < |rows| ==> rows[k].order.status == Pending
  {
    hide Listed, NewestFirst, KeepsNewest, OldestFirst;
    var newest := GetOrders(b, Pending, |WithStatus(b.orders, Pending)|);
    rows := Backwards(newest);
    BackwardsListed(newest, b.orders);
    forall i | i in b.orders && b.orders[i].status == Pending ensures exists k :: 0 <= k < |rows| && rows[k].id == i {
      assert i in WithStatus(b.orders, Pending);
      var k :| 0 <= k < |newest| && newest[k].id == i;
      assert rows[|newest| - 1 - k].id == i;
    }
  }

  function Backwards(rows: seq<Row>): seq<Row> {
    seq(|rows|, k requires 0 <= k < |rows| => rows[|rows| - 1 - k])
  }

  lemma BackwardsListed(rows: seq<Row>, orders: map<Id, Order>)
    requires Listed(rows, orders) && NewestFirst(rows)
    ensures Listed(Backwards(rows), orders) && OldestFirst(Backwards(rows))
  {
  }

  lemma MarketRowIsNoChild(rows: map<Id, Order>, i: Id)
    requires Inv(rows) && i in rows && rows[i].orderType == Market
    ensures rows[i].parent.None? && Released(rows[i], rows)
  {
    assert !IsChild(rows, i);
  }

  predicate IsAmo(o: Order) {
    o.orderType == Market && o.tif == Amo
  }

  /** What firing the pending after-market orders does, order by order. */
  function AllAmoSteps(b: Broker, pending: seq<Row>, feed: Feed): seq<Step> {
    if pending == [] then []
    else
      var row := pending[|pending| - 1];
      AllAmoSteps(b, pending[..|pending| - 1], feed) +
        if IsAmo(row.order) then QueuedSteps(b, row.id, row.order, feed) else []
  }

  /** Fills every pending after-market order at the open; a failure leaves that order pending. */
  method FireAmo(b: Broker, feed: Feed) returns (fired: nat, ghost pending: seq<Row>, ghost steps: seq<Step>)
    requires Sound(b.Tables()) && Inv(b.orders)
    modifies b
    ensures Trail(old(b.Tables()), steps, b.Tables())
    ensures ListsPending(pending, old(b.orders)) && steps == AllAmoSteps(b, pending, feed)
    ensures fired + RolledBack(old(b.Tables()), steps) == |steps|
  {
    hide Trail, Inv, RolledBack, Run, QueuedSteps, Released;
    ghost var before := b.Tables();
    EmptyTrail(before);
    fired, steps := 0, [];
    var rows := AllPending(b);
    pending := rows;
    assert rows[..|rows|] == rows;
    for k := 0 to |rows|
      invariant Trail(before, steps, b.Tables()) && Sound(before) && StepsOk(steps)
      invariant Sound(b.Tables()) && Inv(b.orders)
      invariant forall j :: k <= j < |rows| ==> rows[j].id in b.orders && b.orders[rows[j].id] == rows[j].order
      invariant steps == AllAmoSteps(b, rows[..k], feed)
      invariant fired + RolledBack(before, steps) == |steps|
    {
      var row := rows[k];
      assert rows[..k + 1][..k] == rows[..k];
      if IsAmo(row.order) {
        ghost var middle := b.Tables();
        MarketRowIsNoChild(b.orders, row.id);
        var error; ghost var more;
        error, more := FillQueued(b, row.id, feed);
        Continue(before, steps, middle, more, b.Tables());
        NoSteps(middle, more);
        steps := steps + more;
        if error.None? {
          fired := fired + 1;
        }
      }
    }
  }

  /** Expires what is still pending from the day, as one step. */
  method ExpireToday(b: Broker) returns (ghost steps: seq<Step>)
    requires Sound(b.Tables()) && Inv(b.orders)
    modifies b`orders
    ensures Trail(old(b.Tables()), steps, b.Tables()) && steps == [ExpireStep]
  {
    hide Trail, Inv, Run, RolledBack, ExpireDayOrders;
    ghost var before := b.Tables();
    b.ExpireDayOrders();
    EmptyTrail(before);
    ExtendTrail(before, [], before, ExpireStep);
    assert [] + [ExpireStep] == [ExpireStep];
    steps := [ExpireStep];
  }
}
