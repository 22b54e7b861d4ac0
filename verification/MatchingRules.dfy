/** Which orders a matching pass acts on, and at what price, with every comparison written out. */
module MatchingRules {
  import opened Domain
  import opened Wrappers
  import opened Slippage
  import opened PartialFills
  import opened Calendar
  import Auction
  import opened Store
  import opened Runs
  import opened Brackets
  import opened Account
  import opened Watcher
  import opened OpeningAuction
  import opened Session

  // ----- what is among the steps of a loop -----

  lemma {:induction false} StopStepsExact(b: Broker, stops: seq<Row>, feed: Feed, step: Step)
    ensures step in AllStopSteps(b, stops, feed) <==>
            exists k :: 0 <= k < |stops| && Fires(stops[k].order, feed) && step in StopSteps(b, stops[k], feed)
  {
    hide Fires, StopSteps;
    if stops != [] {
      var last := |stops| - 1;
      StopStepsExact(b, stops[..last], feed, step);
      assert forall k :: 0 <= k < last ==> stops[..last][k] == stops[k];
    }
  }

  lemma {:induction false} LimitStepsOfAll(b: Broker, limits: seq<Row>, feed: Feed, partial: PartialFillConfig,
                                           step: Step)
    ensures step in AllLimitSteps(b, limits, feed, partial) <==>
            exists k :: 0 <= k < |limits| && Fills(limits[k].order, feed, partial)
              && step in LimitSteps(b, limits[k], feed.quotes[limits[k].order.symbol].price,
                                    Some(FillQty(partial, Remaining(limits[k].order))))
  {
    hide Reached, LimitSteps, FillQty;
    if limits != [] {
      var last := |limits| - 1;
      LimitStepsOfAll(b, limits[..last], feed, partial, step);
      assert forall k :: 0 <= k < last ==> limits[..last][k] == limits[k];
    }
  }

  lemma {:induction false} AmoStepsExact(b: Broker, pending: seq<Row>, feed: Feed, step: Step)
    ensures step in AllAmoSteps(b, pending, feed) <==>
            exists k :: 0 <= k < |pending| && IsAmo(pending[k].order)
              && step in QueuedSteps(b, pending[k].id, pending[k].order, feed)
  {
    hide IsAmo, QueuedSteps;
    if pending != [] {
      var last := |pending| - 1;
      AmoStepsExact(b, pending[..last], feed, step);
      assert forall k :: 0 <= k < last ==> pending[..last][k] == pending[k];
    }
  }

  // ----- stops -----

  lemma FetchedQuotes(feed: Feed, rows: seq<Row>)
    ensures var prices := Fetched(feed, rows);
            && prices.enforceFresh == feed.enforceFresh
            && (forall s :: s in prices.quotes <==> s in feed.quotes && exists r :: r in rows && r.order.symbol == s)
            && (forall s :: s in prices.quotes ==> prices.quotes[s] == feed.quotes[s])
  {
    forall s
      ensures s in Fetched(feed, rows).quotes <==> s in feed.quotes && exists r :: r in rows && r.order.symbol == s
    {
      if r :| r in rows && r.order.symbol == s {
        var k :| 0 <= k < |rows| && rows[k] == r;
        assert rows[k].order.symbol == s;
      }
    }
  }

  lemma TriggersOfStops(b: Broker, stops: seq<Row>, prices: Feed, k: nat)
    requires k < |stops| && forall i, j :: 0 <= i < j < |stops| ==> stops[i].id != stops[j].id
    ensures TriggerStep(stops[k].id, stops[k].order) in AllStopSteps(b, stops, prices) <==>
            Fires(stops[k].order, prices)
  {
    hide Fires, AllStopSteps, QueuedSteps, Marked;
    var step := TriggerStep(stops[k].id, stops[k].order);
    StopStepsExact(b, stops, prices, step);
    forall i | 0 <= i < |stops| ensures step in StopSteps(b, stops[i], prices) <==> i == k {
      OneTrigger(b, stops[i], prices);
    }
  }

  lemma OneTrigger(b: Broker, row: Row, prices: Feed)
    ensures forall step ::
              step in StopSteps(b, row, prices) && step.TriggerStep? <==> step == TriggerStep(row.id, row.order)
  {
    assert StopSteps(b, row, prices)[0] == TriggerStep(row.id, row.order);
  }

  lemma SlicesAreNoTriggers(b: Broker, limits: seq<Row>, prices: Feed, partial: PartialFillConfig)
    ensures forall step :: step in AllLimitSteps(b, limits, prices, partial) ==> step.LimitFillStep?
  {
    hide AllLimitSteps, Fills, FillQty;
    forall step | step in AllLimitSteps(b, limits, prices, partial) ensures step.LimitFillStep? {
      LimitStepsOfAll(b, limits, prices, partial, step);
    }
  }

  lemma PassParts(b: Broker, before: Db, feed: Feed, partial: PartialFillConfig, stops: seq<Row>, first: seq<Row>,
                  limits: seq<Row>, steps: seq<Step>, fills: nat)
    requires IsPass(b, before, feed, partial, stops, first, limits, steps, fills)
    ensures var prices := Fetched(feed, first + stops);
            steps == AllStopSteps(b, stops, prices) + AllLimitSteps(b, limits, prices, partial)
    ensures forall i, j :: 0 <= i < j < |stops| ==> stops[i].id != stops[j].id
    ensures forall i, j :: 0 <= i < j < |limits| ==> limits[i].id != limits[j].id
  {
    hide Pulled, Chosen, Fetched, AllStopSteps, AllLimitSteps;
  }

  /** In a matching pass a pulled stop is triggered if and only if its symbol has a quote fit for use and the
      price has come to its stop: up to it or beyond for a buy, down to it or below for a sell. */
  lemma StopsTriggerIff(b: Broker, before: Db, feed: Feed, partial: PartialFillConfig, stops: seq<Row>,
                        first: seq<Row>, limits: seq<Row>, steps: seq<Step>, fills: nat, k: nat)
    requires IsPass(b, before, feed, partial, stops, first, limits, steps, fills) && k < |stops|
    ensures var o := stops[k].order;
            TriggerStep(stops[k].id, o) in steps <==>
            && o.symbol in feed.quotes && !(feed.enforceFresh && feed.quotes[o.symbol].isStale) && o.stopPrice.Some?
            && var x, stop := feed.quotes[o.symbol].price, o.stopPrice.value;
               if o.side == Buy then x >= stop else x <= stop
  {
    hide IsPass, AllStopSteps, AllLimitSteps, Fetched;
    var row, prices := stops[k], Fetched(feed, first + stops);
    FetchedQuotes(feed, first + stops);
    assert row in first + stops;
    PassParts(b, before, feed, partial, stops, first, limits, steps, fills);
    TriggersOfStops(b, stops, prices, k);
    SlicesAreNoTriggers(b, limits, prices, partial);
  }

  /** The fill a triggered stop-market asks for is of the row so marked, and no other stop asks for one. */
  lemma StopMarketFillsIff(b: Broker, before: Db, feed: Feed, partial: PartialFillConfig, stops: seq<Row>,
                           first: seq<Row>, limits: seq<Row>, steps: seq<Step>, fills: nat, k: nat, step: Step)
    requires IsPass(b, before, feed, partial, stops, first, limits, steps, fills) && k < |stops|
    requires step.FillPendingStep? && step.id == stops[k].id
    ensures var o := stops[k].order;
            step in steps <==>
            && TriggerStep(stops[k].id, o) in steps && o.orderType == StopMarket && o.status == Pending
            && IsWholeFill(b, stops[k].id, o.(triggered := true), Fetched(feed, first + stops), step)
  {
    hide IsPass, AllStopSteps, AllLimitSteps, Fetched, Fires, IsWholeFill, QueuedSteps;
    var row, prices := stops[k], Fetched(feed, first + stops);
    PassParts(b, before, feed, partial, stops, first, limits, steps, fills);
    TriggersOfStops(b, stops, prices, k);
    SlicesAreNoTriggers(b, limits, prices, partial);
    StopStepsExact(b, stops, prices, step);
    QueuedStepsExact(b, row.id, Marked(row.order), prices);
    forall i | 0 <= i < |stops| && i != k ensures step !in StopSteps(b, stops[i], prices) {
      QueuedStepsExact(b, stops[i].id, Marked(stops[i].order), prices);
      NotItsFill(b, stops[i].id, Marked(stops[i].order), prices, step);
    }
    PendingFill(b, row.id, Marked(row.order), prices, step);
  }

  lemma NotItsFill(b: Broker, id: Id, o: Order, prices: Feed, step: Step)
    requires !step.FillPendingStep? || step.id != id
    ensures !IsWholeFill(b, id, o, prices, step)
  {
  }

  lemma PendingFill(b: Broker, id: Id, o: Order, prices: Feed, step: Step)
    ensures IsWholeFill(b, id, o, prices, step) ==> o.status == Pending
  {
  }

  // ----- what a triggered stop-limit becomes -----

  /** No trigger of another stop, and no whole fill of another order, reaches a parentless row. */
  lemma ParentlessRowIsAlone(db: Db, step: Step, i: Id)
    requires Sound(db) && Driven(db, step) && (step.TriggerStep? || step.FillPendingStep?)
    requires i in db.orders && i != step.id && db.orders[i].parent.None?
    ensures i in Next(db, step).orders && Next(db, step).orders[i] == db.orders[i]
  {
    var o := step.snapshot;
    if step.FillPendingStep? && Next(db, step).orders != db.orders {
      MarketFillRowByRow(db.orders, step.id, o, step.price, step.fees,
                         LegPl(db, o.side, o.symbol, o.qty, step.price, step.fees));
    }
  }

  lemma {:induction false} ParentlessAlong(db: Db, steps: seq<Step>, i: Id)
    requires Sound(db) && StepsOk(steps) && DrivenAlong(db, steps) && i in db.orders && db.orders[i].parent.None?
    requires forall step :: step in steps ==> (step.TriggerStep? || step.FillPendingStep?) && step.id != i
    ensures i in Run(db, steps).orders && Run(db, steps).orders[i] == db.orders[i]
  {
    hide Driven, Next;
    if steps != [] {
      var last := |steps| - 1;
      var init := steps[..last];
      forall k | 0 <= k < last ensures Driven(Run(db, init[..k]), init[k]) {
        PrefixOfPrefix(steps, k);
      }
      ParentlessAlong(db, init, i);
      ParentlessRowIsAlone(Run(db, init), steps[last], i);
    }
  }

  lemma StopStepsOf(b: Broker, row: Row, prices: Feed)
    ensures forall step :: step in StopSteps(b, row, prices) ==>
              (step.TriggerStep? || step.FillPendingStep?) && step.id == row.id
    ensures row.order.orderType == StopLimit ==> StopSteps(b, row, prices) == [TriggerStep(row.id, row.order)]
  {
  }

  lemma TriggeredStopLimit(db: Db, id: Id, o: Order)
    requires Sound(db) && id in db.orders && db.orders[id] == o && o.status == Pending && o.orderType == StopLimit
    requires StepOk(TriggerStep(id, o))
    ensures var rows := Next(db, TriggerStep(id, o)).orders;
            id in rows && rows[id] == o.(orderType := Limit, triggered := true)
  {
  }

  /** What the stop loop leaves of a pending parentless stop-limit among the stops: the limit order it holds the
      price of if it fired, and itself if it did not. */
  ghost predicate LeftByStops(o: Order, fired: bool, rows: map<Id, Order>, id: Id) {
    id in rows && rows[id] == if fired then o.(orderType := Limit, triggered := true) else o
  }

  lemma {:induction false} StopLimitAlong(b: Broker, db: Db, stops: seq<Row>, prices: Feed, k: nat)
    requires k < |stops| && forall i, j :: 0 <= i < j < |stops| ==> stops[i].id != stops[j].id
    requires Sound(db) && stops[k].id in db.orders && db.orders[stops[k].id] == stops[k].order
    requires stops[k].order.orderType == StopLimit && stops[k].order.status == Pending && stops[k].order.parent.None?
    requires StepsOk(AllStopSteps(b, stops, prices)) && DrivenAlong(db, AllStopSteps(b, stops, prices))
    ensures LeftByStops(stops[k].order, Fires(stops[k].order, prices), Run(db, AllStopSteps(b, stops, prices)).orders,
                        stops[k].id)
  {
    hide Fires, StopSteps, Next, Driven, AllStopSteps;
    var row, before, after := stops[k], AllStopSteps(b, stops[..k], prices), AllStopSteps(b, stops[k + 1..], prices);
    var own := if Fires(row.order, prices) then StopSteps(b, row, prices) else [];
    StopsApart(b, stops, prices, k);
    StopStepsOf(b, row, prices);
    OtherStopSteps(b, stops[..k], prices, row.id);
    OtherStopSteps(b, stops[k + 1..], prices, row.id);
    DrivenParts(db, before, own + after);
    ParentlessAlong(db, before, row.id);
    var middle := Run(db, before);
    DrivenParts(middle, own, after);
    OwnTrigger(b, middle, row, prices, own);
    ParentlessAlong(Run(middle, own), after, row.id);
  }

  lemma OwnTrigger(b: Broker, db: Db, row: Row, prices: Feed, own: seq<Step>)
    requires Sound(db) && row.id in db.orders && db.orders[row.id] == row.order
    requires row.order.orderType == StopLimit && row.order.status == Pending && row.order.parent.None?
    requires own == (if Fires(row.order, prices) then StopSteps(b, row, prices) else [])
    requires StepsOk(own) && DrivenAlong(db, own)
    ensures LeftByStops(row.order, Fires(row.order, prices), Run(db, own).orders, row.id)
    ensures Run(db, own).orders[row.id].parent.None?
  {
    hide Fires, StopSteps, Next;
    StopStepsOf(b, row, prices);
    if own != [] {
      assert own[..0] == [] && Run(db, own[..0]) == db;
      TriggeredStopLimit(db, row.id, row.order);
    }
  }

  lemma OtherStopSteps(b: Broker, stops: seq<Row>, prices: Feed, i: Id)
    requires forall j :: 0 <= j < |stops| ==> stops[j].id != i
    ensures forall step :: step in AllStopSteps(b, stops, prices) ==>
              (step.TriggerStep? || step.FillPendingStep?) && step.id != i
  {
    hide AllStopSteps, Fires, StopSteps;
    forall step | step in AllStopSteps(b, stops, prices)
      ensures (step.TriggerStep? || step.FillPendingStep?) && step.id != i
    {
      StopStepsExact(b, stops, prices, step);
      var j :| 0 <= j < |stops| && Fires(stops[j].order, prices) && step in StopSteps(b, stops[j], prices);
      StopStepsOf(b, stops[j], prices);
    }
  }

  lemma {:induction false} StopStepsJoin(b: Broker, first: seq<Row>, second: seq<Row>, prices: Feed)
    ensures AllStopSteps(b, first + second, prices) == AllStopSteps(b, first, prices) + AllStopSteps(b, second, prices)
  {
    hide Fires, StopSteps;
    if second == [] {
      assert first + second == first;
    } else {
      var init, last := second[..|second| - 1], second[|second| - 1];
      StopStepsJoin(b, first, init, prices);
      assert (first + second)[..|first + second| - 1] == first + init;
    }
  }

  lemma StopsApart(b: Broker, stops: seq<Row>, prices: Feed, k: nat)
    requires k < |stops|
    ensures var own := if Fires(stops[k].order, prices) then StopSteps(b, stops[k], prices) else [];
            AllStopSteps(b, stops, prices) ==
            AllStopSteps(b, stops[..k], prices) + (own + AllStopSteps(b, stops[k + 1..], prices))
  {
    hide Fires, StopSteps;
    var own := if Fires(stops[k].order, prices) then StopSteps(b, stops[k], prices) else [];
    assert stops == stops[..k] + ([stops[k]] + stops[k + 1..]);
    StopStepsJoin(b, stops[..k], [stops[k]] + stops[k + 1..], prices);
    StopStepsJoin(b, [stops[k]], stops[k + 1..], prices);
    assert [stops[k]][..0] == [] && AllStopSteps(b, [stops[k]], prices) == [] + own;
  }

  lemma StepsApart(first: seq<Step>, second: seq<Step>)
    requires StepsOk(first + second)
    ensures StepsOk(first) && StepsOk(second)
  {
    var all := first + second;
    forall k | 0 <= k < |first| ensures StepOk(first[k]) {
      assert first[k] == all[k];
    }
    forall k | 0 <= k < |second| ensures StepOk(second[k]) {
      assert second[k] == all[|first| + k];
    }
  }

  lemma DrivenFront(db: Db, first: seq<Step>, second: seq<Step>)
    requires Sound(db) && StepsOk(first + second) && StepsOk(first) && DrivenAlong(db, first + second)
    ensures DrivenAlong(db, first)
  {
    hide Driven, Run;
    var all := first + second;
    forall k | 0 <= k < |first| ensures Driven(Run(db, first[..k]), first[k]) {
      assert first[..k] == all[..k] && first[k] == all[k];
    }
  }

  lemma DrivenBack(db: Db, first: seq<Step>, second: seq<Step>)
    requires Sound(db) && StepsOk(first + second) && StepsOk(first) && StepsOk(second)
    requires DrivenAlong(db, first + second)
    ensures DrivenAlong(Run(db, first), second)
  {
    hide Driven, Run, RolledBack;
    var all := first + second;
    forall k | 0 <= k < |second| ensures Driven(Run(Run(db, first), second[..k]), second[k]) {
      var n: nat := |first| + k;
      assert all[..n] == first + second[..k] && second[k] == all[n];
      RolledBackSplits(db, first, second[..k]);
    }
  }

  lemma DrivenParts(db: Db, first: seq<Step>, second: seq<Step>)
    requires Sound(db) && StepsOk(first + second) && DrivenAlong(db, first + second)
    ensures StepsOk(first) && StepsOk(second) && Run(db, first + second) == Run(Run(db, first), second)
    ensures DrivenAlong(db, first) && DrivenAlong(Run(db, first), second)
  {
    hide DrivenAlong, StepsOk, Run, RolledBack;
    StepsApart(first, second);
    RolledBackSplits(db, first, second);
    DrivenFront(db, first, second);
    DrivenBack(db, first, second);
  }

  lemma PassReads(b: Broker, before: Db, feed: Feed, partial: PartialFillConfig, stops: seq<Row>, first: seq<Row>,
                  limits: seq<Row>, steps: seq<Step>, fills: nat, after: Db)
    requires IsPass(b, before, feed, partial, stops, first, limits, steps, fills) && Trail(before, steps, after)
    ensures Sound(before) && Inv(before.orders) && StepsOk(steps) && DrivenAlong(before, steps)
    ensures StepsOk(AllStopSteps(b, stops, Fetched(feed, first + stops)))
    ensures forall k :: 0 <= k < |stops| ==>
              stops[k].id in before.orders && before.orders[stops[k].id] == stops[k].order
  {
    hide AllStopSteps, AllLimitSteps, Fetched, DrivenAlong, Run, Pulled, Chosen, WithinCap, Inv;
  }

  /** Within the caps every released open limit order the stops leave is among those the pass goes on to. */
  lemma LeftIsWorked(b: Broker, before: Db, feed: Feed, partial: PartialFillConfig, stops: seq<Row>, first: seq<Row>,
                     limits: seq<Row>, steps: seq<Step>, fills: nat, id: Id)
    requires IsPass(b, before, feed, partial, stops, first, limits, steps, fills)
    requires Sound(before) && StepsOk(AllStopSteps(b, stops, Fetched(feed, first + stops)))
    requires var rows := Run(before, AllStopSteps(b, stops, Fetched(feed, first + stops))).orders;
             WithinCap(rows) && id in rows && Open(rows[id]) && rows[id].orderType == Limit && Released(rows[id], rows)
    ensures var rows := Run(before, AllStopSteps(b, stops, Fetched(feed, first + stops))).orders;
            exists l :: 0 <= l < |limits| && limits[l] == Row(id, rows[id])
  {
    hide AllStopSteps, AllLimitSteps, Fetched, Run, Pulled, Chosen, WithinCap, Released;
    var l :| 0 <= l < |limits| && limits[l].id == id;
    assert limits[l] == Row(id, limits[l].order);
  }

  /** A pending stop-limit that its pass triggers is a limit order at its own limit price from then on, and when no
      status has more orders than the cap it is among the limit orders the same pass goes on to; one whose price has
      not come is left as it was. */
  lemma TriggeredStopLimitIsWorked(b: Broker, before: Db, feed: Feed, partial: PartialFillConfig, stops: seq<Row>,
                                   first: seq<Row>, limits: seq<Row>, steps: seq<Step>, fills: nat, after: Db, k: nat)
    requires IsPass(b, before, feed, partial, stops, first, limits, steps, fills) && Trail(before, steps, after)
    requires k < |stops| && stops[k].order.orderType == StopLimit && stops[k].order.status == Pending
    ensures StepsOk(AllStopSteps(b, stops, Fetched(feed, first + stops))) && Sound(before)
    ensures var id, o := stops[k].id, stops[k].order;
            var rows := Run(before, AllStopSteps(b, stops, Fetched(feed, first + stops))).orders;
            && id in rows
            && rows[id] == (if TriggerStep(id, o) in steps then o.(orderType := Limit, triggered := true) else o)
            && (TriggerStep(id, o) in steps && WithinCap(rows) ==>
                  exists l :: 0 <= l < |limits| && limits[l] == Row(id, o.(orderType := Limit, triggered := true)))
  {
    hide IsPass, Trail, AllStopSteps, AllLimitSteps, Fetched, Fires, DrivenAlong, Run, Inv, WithinCap;
    var row, prices := stops[k], Fetched(feed, first + stops);
    PassReads(b, before, feed, partial, stops, first, limits, steps, fills, after);
    PassParts(b, before, feed, partial, stops, first, limits, steps, fills);
    TriggersOfStops(b, stops, prices, k);
    SlicesAreNoTriggers(b, limits, prices, partial);
    StopLimitHasNoParent(before, row);
    DrivenParts(before, AllStopSteps(b, stops, prices), AllLimitSteps(b, limits, prices, partial));
    StopLimitAlong(b, before, stops, prices, k);
    if Fires(row.order, prices) && WithinCap(Run(before, AllStopSteps(b, stops, prices)).orders) {
      LeftIsWorked(b, before, feed, partial, stops, first, limits, steps, fills, row.id);
    }
  }

  lemma StopLimitHasNoParent(db: Db, row: Row)
    requires Inv(db.orders) && row.id in db.orders && db.orders[row.id] == row.order
    requires row.order.orderType == StopLimit
    ensures row.order.parent.None?
  {
    StopChildIsStopMarket(db.orders, row.id);
  }

  // ----- limit orders -----

  /** In a matching pass a pulled limit order gets a slice if and only if its symbol was fetched and has a
      positive quote fit for use that has come to its limit, down to it or below for a buy, up to it or above
      for a sell, and the cap leaves it something. The slice is what the cap leaves, priced from that quote. */
  lemma LimitsFillIff(b: Broker, before: Db, feed: Feed, partial: PartialFillConfig, stops: seq<Row>,
                      first: seq<Row>, limits: seq<Row>, steps: seq<Step>, fills: nat, k: nat)
    requires IsPass(b, before, feed, partial, stops, first, limits, steps, fills) && k < |limits|
    ensures var o := limits[k].order; var slice := FillQty(partial, o.qty - o.filledQty);
            && ((exists step :: step in steps && step.LimitFillStep? && step.id == limits[k].id) <==>
                && (exists r :: r in first + stops && r.order.symbol == o.symbol)
                && o.symbol in feed.quotes && !(feed.enforceFresh && feed.quotes[o.symbol].isStale)
                && slice > 0.0 && o.limitPrice.Some?
                && var x, limit := feed.quotes[o.symbol].price, o.limitPrice.value;
                   x > 0.0 && if o.side == Buy then x <= limit else x >= limit)
            && (forall step :: step in steps && step.LimitFillStep? && step.id == limits[k].id ==>
                  && o.symbol in feed.quotes
                  && IsSlice(b, limits[k], feed.quotes[o.symbol].price, Some(slice), step))
  {
    hide IsPass, AllStopSteps, AllLimitSteps, Fetched, IsSlice, LimitSteps, FillQty;
    var row, prices := limits[k], Fetched(feed, first + stops);
    var o, slice := row.order, FillQty(partial, Remaining(row.order));
    FetchedQuotes(feed, first + stops);
    PassParts(b, before, feed, partial, stops, first, limits, steps, fills);
    StopsAreNoSlices(b, stops, prices);
    forall step | step in steps && step.LimitFillStep? && step.id == row.id
      ensures Fills(o, prices, partial) && IsSlice(b, row, prices.quotes[o.symbol].price, Some(slice), step)
    {
      SliceOfRow(b, limits, prices, partial, k, step);
    }
    if Fills(o, prices, partial) {
      LimitStepsExact(b, row, prices.quotes[o.symbol].price, Some(slice));
      if prices.quotes[o.symbol].price > 0.0 {
        var step := LimitSteps(b, row, prices.quotes[o.symbol].price, Some(slice))[0];
        LimitStepsOfAll(b, limits, prices, partial, step);
        assert step in steps;
        SliceIsOf(b, row, prices.quotes[o.symbol].price, Some(slice), step);
      }
    }
    forall step | step in steps && step.LimitFillStep? && step.id == row.id
      ensures prices.quotes[o.symbol].price > 0.0
    {
      SliceIsOf(b, row, prices.quotes[o.symbol].price, Some(slice), step);
    }
  }

  lemma SliceIsOf(b: Broker, row: Row, last: real, fillQty: Option<real>, step: Step)
    requires IsSlice(b, row, last, fillQty, step)
    ensures step.LimitFillStep? && step.id == row.id && last > 0.0
  {
  }

  lemma SliceOfRow(b: Broker, limits: seq<Row>, prices: Feed, partial: PartialFillConfig, k: nat, step: Step)
    requires k < |limits| && forall i, j :: 0 <= i < j < |limits| ==> limits[i].id != limits[j].id
    requires step in AllLimitSteps(b, limits, prices, partial) && step.LimitFillStep? && step.id == limits[k].id
    ensures Fills(limits[k].order, prices, partial)
    ensures IsSlice(b, limits[k], prices.quotes[limits[k].order.symbol].price,
                    Some(FillQty(partial, Remaining(limits[k].order))), step)
  {
    hide AllLimitSteps, IsSlice, LimitSteps, FillQty;
    LimitStepsOfAll(b, limits, prices, partial, step);
    var i :| 0 <= i < |limits| && Fills(limits[i].order, prices, partial)
             && step in LimitSteps(b, limits[i], prices.quotes[limits[i].order.symbol].price,
                                   Some(FillQty(partial, Remaining(limits[i].order))));
    var last := prices.quotes[limits[i].order.symbol].price;
    var fillQty := Some(FillQty(partial, Remaining(limits[i].order)));
    LimitStepsExact(b, limits[i], last, fillQty);
    SliceIsOf(b, limits[i], last, fillQty, step);
    assert i == k;
  }

  lemma StopsAreNoSlices(b: Broker, stops: seq<Row>, prices: Feed)
    ensures forall step :: step in AllStopSteps(b, stops, prices) ==> !step.LimitFillStep?
  {
    hide AllStopSteps, Fires, QueuedSteps;
    forall step | step in AllStopSteps(b, stops, prices) ensures !step.LimitFillStep? {
      StopStepsExact(b, stops, prices, step);
      var k :| 0 <= k < |stops| && Fires(stops[k].order, prices) && step in StopSteps(b, stops[k], prices);
      NotASlice(b, stops[k], prices, step);
    }
  }

  lemma NotASlice(b: Broker, row: Row, prices: Feed, step: Step)
    requires step in StopSteps(b, row, prices)
    ensures !step.LimitFillStep?
  {
  }

  // ----- after-market orders -----

  /** A pending order is filled in the after-market round if and only if it is an after-market market order
      and can be priced. */
  lemma AmoFillsIff(b: Broker, pending: seq<Row>, orders: map<Id, Order>, feed: Feed, k: nat, step: Step)
    requires ListsPending(pending, orders) && k < |pending| && step.FillPendingStep? && step.id == pending[k].id
    ensures var o := pending[k].order;
            step in AllAmoSteps(b, pending, feed) <==>
            o.orderType == Market && o.tif == Amo && IsWholeFill(b, pending[k].id, o, feed, step)
  {
    hide AllAmoSteps, QueuedSteps, IsWholeFill;
    AmoStepsExact(b, pending, feed, step);
    forall i | 0 <= i < |pending|
      ensures step in QueuedSteps(b, pending[i].id, pending[i].order, feed) <==>
              i == k && IsWholeFill(b, pending[i].id, pending[i].order, feed, step)
    {
      QueuedStepsExact(b, pending[i].id, pending[i].order, feed);
      if i != k {
        NotItsFill(b, pending[i].id, pending[i].order, feed, step);
      }
    }
  }

  // ----- market entries of brackets -----

  /** A bracket that is queued with a market entry is filled at once, if its entry can be priced; no other request
      is followed by anything. */
  lemma EntryFillsAtOnce(b: Broker, db: Db, request: Step, feed: Feed, step: Step)
    requires Sound(db) && Inv(db.orders) && !HasSnapshot(request) && step != request
    ensures var rows := Next(db, request).orders;
            step in RequestSteps(b, db, request, feed) <==>
            && request.BracketStep? && request.limitPrice.None? && Transact(db, request).Commit?
            && request.id in rows && IsWholeFill(b, request.id, rows[request.id], feed, step)
  {
    hide QueuedSteps, IsWholeFill, Next, Transact;
    var rows := Next(db, request).orders;
    if request.BracketStep? && request.id in rows {
      QueuedStepsExact(b, request.id, rows[request.id], feed);
    }
  }

  // ----- whole sessions -----

  lemma AmoTriggersNothing(b: Broker, pending: seq<Row>, feed: Feed, step: Step)
    requires step in AllAmoSteps(b, pending, feed)
    ensures step.FillPendingStep?
  {
    hide AllAmoSteps, IsAmo;
    AmoStepsExact(b, pending, feed, step);
  }

  lemma AuctionTriggersNothing(b: Broker, references: map<Symbol, real>, r: AuctionRun, step: Step)
    requires IsAuctionRun(b, references, r) && step in r.steps
    ensures step.LimitFillStep?
  {
    hide Trail, Collected, Run, LimitSteps;
    var j :| 0 <= j < |r.steps| && r.steps[j] == step;
    SliceOnly(b, Run(r.before, r.steps[..j]).orders, r.m.fills[j], step);
  }

  lemma SliceOnly(b: Broker, orders: map<Id, Order>, f: Auction.Fill, step: Step)
    requires step in FillSteps(b, orders, f)
    ensures step.LimitFillStep?
  {
  }

  lemma {:induction false} RoundTriggersNothing(b: Broker, references: map<Symbol, real>, round: seq<AuctionRun>,
                                                step: Step)
    requires forall k :: 0 <= k < |round| ==> IsAuctionRun(b, references, round[k])
    requires step in RoundSteps(round)
    ensures step.LimitFillStep?
  {
    hide IsAuctionRun;
    var last := |round| - 1;
    if step in round[last].steps {
      AuctionTriggersNothing(b, references, round[last], step);
    } else {
      RoundTriggersNothing(b, references, round[..last], step);
    }
  }

  lemma HooksTriggerNothing(b: Broker, settings: Settings, hooks: Hooks, market: Conditions, before: Db, log: TickLog,
                            step: Step)
    requires Sound(before) && IsTick(b, settings, hooks, market, before, log) && step in log.hooks
    ensures !step.TriggerStep?
  {
    hide IsPass, Trail, IsAuctionRun, RoundSteps, AllAmoSteps, CurrentPhase, Linked, HasBook, InSubmissionOrder;
    if settings.enforce && settings.PhaseAt(market.now) == Regular {
      if step in RoundSteps(log.round) {
        NoAuctions();
        RoundTriggersNothing(b, market.references, log.round, step);
      } else {
        AmoTriggersNothing(b, log.amo, market.feed, step);
      }
    }
  }

  lemma RequestTriggersNothing(b: Broker, db: Db, request: Step, feed: Feed, step: Step)
    requires Sound(db) && !HasSnapshot(request) && step in RequestSteps(b, db, request, feed)
    ensures !step.TriggerStep?
  {
  }

  /** In a session, a stop pulled by a tick's pass is triggered by that tick if and only if the price the tick
      saw had come to its stop. */
  lemma StopsTriggerInSessions(b: Broker, settings: Settings, before: Db, events: seq<Event>, logs: seq<EventLog>,
                               k: nat, j: nat)
    requires Sound(before) && IsSession(b, settings, before, events, logs) && k < |events| && events[k].Ticks?
    requires !settings.Idle(events[k].market.now) && j < |logs[k].tick.stops|
    ensures var feed, row := events[k].market.feed, logs[k].tick.stops[j]; var o := row.order;
            TriggerStep(row.id, o) in logs[k].steps <==>
            && o.symbol in feed.quotes && !(feed.enforceFresh && feed.quotes[o.symbol].isStale) && o.stopPrice.Some?
            && var x, stop := feed.quotes[o.symbol].price, o.stopPrice.value;
               if o.side == Buy then x >= stop else x <= stop
  {
    hide IsPass, Opened, Trail, Run;
    var log, market := logs[k].tick, events[k].market;
    var found := Run(before, SessionSteps(logs[..k]));
    var hooks := HooksAfterAll(settings, events[..k]);
    assert Happened(b, settings, hooks, found, events[k], logs[k]);
    StopsTriggerIff(b, Run(found, log.hooks), market.feed, settings.partial, log.stops, log.first, log.limits,
                    log.pass, log.fills, j);
    var step := TriggerStep(log.stops[j].id, log.stops[j].order);
    if step in log.hooks {
      HooksTriggerNothing(b, settings, hooks, market, found, log, step);
    }
  }

  lemma TriggerIsOfAStop(b: Broker, before: Db, feed: Feed, partial: PartialFillConfig, stops: seq<Row>,
                         first: seq<Row>, limits: seq<Row>, steps: seq<Step>, fills: nat, step: Step)
    requires IsPass(b, before, feed, partial, stops, first, limits, steps, fills) && step in steps && step.TriggerStep?
    ensures exists j :: 0 <= j < |stops| && step == TriggerStep(stops[j].id, stops[j].order)
  {
    hide IsPass, AllStopSteps, AllLimitSteps, Fetched, Fires, StopSteps;
    var prices := Fetched(feed, first + stops);
    PassParts(b, before, feed, partial, stops, first, limits, steps, fills);
    SlicesAreNoTriggers(b, limits, prices, partial);
    StopStepsExact(b, stops, prices, step);
    var j :| 0 <= j < |stops| && Fires(stops[j].order, prices) && step in StopSteps(b, stops[j], prices);
    OneTrigger(b, stops[j], prices);
  }

  /** No stop ever fires on the wrong side of its price: over any session of ticks and requests, whatever is
      triggered, is triggered by a tick that saw the price at or above the stop of a buy, or at or below the
      stop of a sell. */
  lemma NoStopFiresEarly(b: Broker, settings: Settings, before: Db, events: seq<Event>, logs: seq<EventLog>, k: nat,
                         step: Step)
    requires Sound(before) && IsSession(b, settings, before, events, logs) && k < |events|
    requires step in logs[k].steps && step.TriggerStep?
    ensures events[k].Ticks?
    ensures var quotes, o := events[k].market.feed.quotes, step.snapshot;
            && o.symbol in quotes && o.stopPrice.Some?
            && if o.side == Buy then quotes[o.symbol].price >= o.stopPrice.value
               else quotes[o.symbol].price <= o.stopPrice.value
  {
    hide IsPass, Opened, Trail, Run, RequestSteps;
    var found := Run(before, SessionSteps(logs[..k]));
    var hooks := HooksAfterAll(settings, events[..k]);
    assert Happened(b, settings, hooks, found, events[k], logs[k]);
    match events[k] {
      case Ticks(market) =>
        var log := logs[k].tick;
        if step in log.hooks {
          HooksTriggerNothing(b, settings, hooks, market, found, log, step);
        }
        assert step in log.pass;
        TriggerIsOfAStop(b, Run(found, log.hooks), market.feed, settings.partial, log.stops, log.first, log.limits,
                         log.pass, log.fills, step);
        var j :| 0 <= j < |log.stops| && step == TriggerStep(log.stops[j].id, log.stops[j].order);
        StopsTriggerIff(b, Run(found, log.hooks), market.feed, settings.partial, log.stops, log.first, log.limits,
                        log.pass, log.fills, j);
      case Asks(request, feed) =>
        RequestTriggersNothing(b, found, request, feed, step);
    }
  }
}
