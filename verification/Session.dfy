/** The background watcher itself, tick by tick, and whole sessions of ticks between user requests. */
module Session {
  import opened Domain
  import opened Wrappers
  import opened Slippage
  import opened PartialFills
  import opened OrderBook
  import opened Calendar
  import Fees
  import opened Store
  import opened Books
  import opened Runs
  import opened Brackets
  import opened LimitProtection
  import opened Account
  import opened Watcher
  import opened OpeningAuction

  // ----- the tick -----

  /** How a watcher is set up; the holidays are its calendar's. */
  datatype Settings = Settings(enforce: bool, runAuction: bool, fireAmo: bool, expireAtClose: bool,
                               holidays: set<int>, partial: PartialFillConfig) {
    function PhaseAt(now: Moment): SessionPhase {
      CurrentPhase(holidays, now)
    }

    /** What is not owed: what was done, and what is switched off. */
    function Waived(done: Hooks): Hooks {
      done.(auctionDone := done.auctionDone || !runAuction, amoFired := done.amoFired || !fireAmo,
            dayExpired := done.dayExpired || !expireAtClose)
    }

    /** Phase-driven housekeeping is left alone when market hours are not enforced. */
    predicate Idle(now: Moment) {
      enforce && PhaseAt(now) != Regular
    }
  }

  /** What a tick sees of the outside world. */
  datatype Conditions = Conditions(now: Moment, feed: Feed, references: map<Symbol, real>)

  /** The once-a-day hooks already run, and the date they ran on. */
  datatype Hooks = Hooks(lastDate: Option<int>, auctionDone: bool, amoFired: bool, dayExpired: bool)

  const NO_HOOKS := Hooks(None, false, false, false)

  predicate AfterHours(phase: SessionPhase) {
    phase == PostClose || phase == Closed
  }

  function Rolled(hooks: Hooks, today: int): Hooks {
    if hooks.lastDate == Some(today) then hooks else Hooks(Some(today), false, false, false)
  }

  function HooksAfter(hooks: Hooks, settings: Settings, now: Moment): Hooks {
    var rolled, phase := Rolled(hooks, now.day), settings.PhaseAt(now);
    if !settings.enforce then rolled
    else if phase == Regular then
      rolled.(auctionDone := rolled.auctionDone || settings.runAuction, amoFired := rolled.amoFired || settings.fireAmo)
    else if AfterHours(phase) then rolled.(dayExpired := rolled.dayExpired || settings.expireAtClose)
    else rolled
  }

  /** What a tick did: the opening auctions, the after-market orders pulled, the hooks' steps together,
      the stops and limit orders pulled before and after the stops, the matching pass, and what it
      reports as filled. */
  datatype TickLog = TickLog(round: seq<AuctionRun>, aborted: bool, amo: seq<Row>, hooks: seq<Step>,
                             stops: seq<Row>, first: seq<Row>, limits: seq<Row>, pass: seq<Step>, fills: nat)

  const NO_LOG := TickLog([], false, [], [], [], [], [], [], 0)

  /** The opening hooks still owed: the auction round, then every after-market order from what it left. */
  ghost predicate Opened(b: Broker, before: Db, waived: Hooks, market: Conditions, log: TickLog) {
    var auction := RoundSteps(log.round);
    && Sound(before) && StepsOk(auction) && Trail(before, auction, Run(before, auction))
    && (if waived.auctionDone then log.round == []
        else IsRound(b, market.references, before, log.round, Run(before, auction), log.aborted))
    && log.hooks == auction + (if waived.amoFired then [] else AllAmoSteps(b, log.amo, market.feed))
    && (!waived.amoFired ==> ListsPending(log.amo, Run(before, auction).orders))
  }

  /** One tick: the hooks the date still owes, then, in the session or without market hours, one whole
      matching pass over what they left. */
  ghost predicate IsTick(b: Broker, settings: Settings, hooks: Hooks, market: Conditions, before: Db, log: TickLog)
    requires Sound(before)
  {
    var waived, phase := settings.Waived(Rolled(hooks, market.now.day)), settings.PhaseAt(market.now);
    && (if !settings.enforce then log.hooks == []
        else if phase == Regular then Opened(b, before, waived, market, log)
        else log.hooks == if AfterHours(phase) && !waived.dayExpired && IsTradingDay(settings.holidays, market.now.day)
                          then [ExpireStep] else [])
    && (if settings.Idle(market.now) then log.pass == [] && log.fills == 0
        else && StepsOk(log.hooks) && Trail(before, log.hooks, Run(before, log.hooks))
             && IsPass(b, Run(before, log.hooks), market.feed, settings.partial, log.stops, log.first, log.limits,
                       log.pass, log.fills))
  }

  lemma NoAuctions()
    ensures RoundSteps([]) == []
  {
  }

  lemma SameHooks(b: Broker, before: Db, waived: Hooks, market: Conditions, a: TickLog, c: TickLog)
    requires a.round == c.round && a.aborted == c.aborted && a.amo == c.amo && a.hooks == c.hooks
    ensures Opened(b, before, waived, market, a) <==> Opened(b, before, waived, market, c)
  {
  }

  class LimitOrderWatcher {
    const broker: Broker
    const settings: Settings

    var lastDate: Option<int>
    var auctionDoneToday: bool
    var amoFiredToday: bool
    var dayExpiredToday: bool

    function Done(): Hooks
      reads this
    {
      Hooks(lastDate, auctionDoneToday, amoFiredToday, dayExpiredToday)
    }

    constructor (broker: Broker, settings: Settings)
      ensures this.broker == broker && this.settings == settings && Done() == NO_HOOKS
    {
      this.broker, this.settings := broker, settings;
      lastDate, auctionDoneToday, amoFiredToday, dayExpiredToday := None, false, false, false;
    }

    /** On the first tick of a date every once-a-day hook is armed again. */
    method RollDate(today: int)
      modifies this
      ensures Done() == Rolled(old(Done()), today) && lastDate == Some(today)
      ensures old(lastDate) == Some(today) ==> Done() == old(Done())
      ensures old(lastDate) != Some(today) ==> !auctionDoneToday && !amoFiredToday && !dayExpiredToday
    {
      if lastDate != Some(today) {
        lastDate := Some(today);
        auctionDoneToday, amoFiredToday, dayExpiredToday := false, false, false;
      }
    }

    /** The opening hooks: auction first, then after-market orders, each at most once a date. */
    method OpeningHooks(market: Conditions) returns (ghost log: TickLog)
      requires Sound(broker.Tables()) && Inv(broker.orders)
      modifies this, broker
      ensures Trail(old(broker.Tables()), log.hooks, broker.Tables())
      ensures if settings.PhaseAt(market.now) == Regular
              then Opened(broker, old(broker.Tables()), settings.Waived(old(Done())), market, log)
              else log == NO_LOG
      ensures Done() == if settings.PhaseAt(market.now) == Regular
                        then old(Done()).(auctionDone := old(auctionDoneToday) || settings.runAuction,
                                          amoFired := old(amoFiredToday) || settings.fireAmo)
                        else old(Done())
    {
      hide Trail, Inv, RolledBack, IsRound, RoundSteps, AllAmoSteps, ListsPending;
      ghost var before := broker.Tables();
      EmptyTrail(before);
      log := NO_LOG;
      if settings.PhaseAt(market.now) != Regular {
        return;
      }
      NoAuctions();
      if settings.runAuction && !auctionDoneToday {
        var matched, aborted; ghost var round;
        matched, aborted, round := RunAllAuctions(broker, market.references);
        auctionDoneToday := true;
        log := log.(round := round, aborted := aborted);
      }
      ghost var auction, middle := RoundSteps(log.round), broker.Tables();
      TrailIsRun(before, auction, middle);
      TrailKeepsInv(before, auction, middle);
      log := log.(hooks := auction);
      assert auction + [] == auction;
      if settings.fireAmo && !amoFiredToday {
        var fired; ghost var pending, more;
        fired, pending, more := FireAmo(broker, market.feed);
        JoinTrails(before, auction, middle, more, broker.Tables());
        log := log.(amo := pending, hooks := auction + more);
        amoFiredToday := true;
      }
    }

    /** DAY expiry: once a date, outside the session, and only on a trading day. */
    method ExpiryHook(now: Moment) returns (ghost steps: seq<Step>)
      requires Sound(broker.Tables()) && Inv(broker.orders)
      modifies this, broker
      ensures Trail(old(broker.Tables()), steps, broker.Tables())
      ensures Done() == if AfterHours(settings.PhaseAt(now))
                        then old(Done()).(dayExpired := old(dayExpiredToday) || settings.expireAtClose)
                        else old(Done())
      ensures steps == if settings.expireAtClose && AfterHours(settings.PhaseAt(now)) && !old(dayExpiredToday)
                          && IsTradingDay(settings.holidays, now.day)
                       then [ExpireStep] else []
    {
      ghost var before := broker.Tables();
      EmptyTrail(before);
      steps := [];
      if settings.expireAtClose && !dayExpiredToday && AfterHours(settings.PhaseAt(now)) {
        if IsTradingDay(settings.holidays, now.day) {
          steps := ExpireToday(broker);
        }
        dayExpiredToday := true;
      }
    }

    method Tick(market: Conditions) returns (fills: nat, ghost log: TickLog)
      requires Sound(broker.Tables()) && Inv(broker.orders)
      modifies this, broker
      ensures Trail(old(broker.Tables()), log.hooks + log.pass, broker.Tables())
      ensures IsTick(broker, settings, old(Done()), market, old(broker.Tables()), log) && log.fills == fills
      ensures Done() == HooksAfter(old(Done()), settings, market.now)
    {
      hide Trail, Inv, RolledBack, IsPass, Opened, CurrentPhase, IsTradingDay;
      ghost var before := broker.Tables();
      EmptyTrail(before);
      fills, log := 0, NO_LOG;
      RollDate(market.now.day);
      if settings.enforce {
        log := OpeningHooks(market);
        ghost var afterOpen := broker.Tables();
        TrailKeepsInv(before, log.hooks, afterOpen);
        ghost var more := ExpiryHook(market.now);
        JoinTrails(before, log.hooks, afterOpen, more, broker.Tables());
        if settings.PhaseAt(market.now) != Regular {
          assert NO_LOG.hooks + more == more && more + [] == more;
          log := log.(hooks := more);
          return;
        }
        assert log.hooks + [] == log.hooks;
      }
      ghost var hooked := broker.Tables();
      TrailIsRun(before, log.hooks, hooked);
      TrailKeepsInv(before, log.hooks, hooked);
      ghost var stops, first, limits, pass;
      fills, stops, first, limits, pass := MatchPass(broker, market.feed, settings.partial);
      JoinTrails(before, log.hooks, hooked, pass, broker.Tables());
      ghost var hooksLog := log;
      log := log.(stops := stops, first := first, limits := limits, pass := pass, fills := fills);
      SameHooks(broker, before, settings.Waived(Rolled(old(Done()), market.now.day)), market, hooksLog, log);
    }
  }

  // ----- whole sessions -----

  /** What holds of an account whose every transaction was driven: orders and trades agree, cash is its
      ledger's and realized P&L its trades', each order's ledger rows are its trades' with their fees,
      brackets are within their parents, limits are honoured. */
  ghost predicate InOrder(db: Db) {
    && OrdersAgree(db) && CashAgrees(db) && PlAgrees(db) && OrdersBooked(db) && Inv(db.orders)
    && forall id :: id in db.orders ==> Honoured(id, db.orders[id], db.trades)
  }

  lemma TrailsStayInOrder(capital: real, steps: seq<Step>, db: Db)
    requires capital >= 0.0 && Trail(OpenAccount(capital), steps, db)
    ensures InOrder(db)
  {
    hide Stale, Driven, Crossed, Inv, Honoured, OrdersAgree, OrdersBooked;
    var start := OpenAccount(capital);
    TrailKeepsInv(start, steps, db);
    DrivenRuns(start, steps);
    FourStoresAgree(capital, steps);
    forall id | id in db.orders ensures Honoured(id, db.orders[id], db.trades) {
      LimitsAreHonoured(capital, steps, id);
    }
  }

  /** The watcher wakes, or the user makes a request at the prices of the moment. */
  datatype Event = Ticks(market: Conditions) | Asks(step: Step, feed: Feed)

  /** Fills and triggers are the watcher's; everything else a user may ask for. */
  predicate Allowed(event: Event) {
    event.Asks? ==> !HasSnapshot(event.step)
  }

  /** A bracket queued with a market entry tries at once to fill it. */
  predicate FillsEntry(step: Step, error: Option<TxError>) {
    step.BracketStep? && step.limitPrice.None? && error.None?
  }

  /** One transaction for the request, and for a bracket's market entry the fill of the row it queued. */
  ghost function RequestSteps(b: Broker, db: Db, step: Step, feed: Feed): seq<Step>
    requires Sound(db) && !HasSnapshot(step)
  {
    var rows := Next(db, step).orders;
    if FillsEntry(step, ErrorOf(db, step)) && step.id in rows
    then [step] + QueuedSteps(b, step.id, rows[step.id], feed)
    else [step]
  }

  method Perform(b: Broker, step: Step) returns (error: Option<TxError>)
    requires Sound(b.Tables()) && !HasSnapshot(step)
    modifies b
    ensures b.Tables() == Next(old(b.Tables()), step) && error == ErrorOf(old(b.Tables()), step)
  {
    match step
    case MarketStep(id, symbol, side, qty, price, fees, tif, product, at) =>
      error := b.ExecuteMarket(id, symbol, side, qty, price, fees, tif, product, at);
    case QueueStep(id, symbol, side, qty, orderType, limitPrice, stopPrice, tif, product, at) =>
      error := b.QueueOrder(id, symbol, side, qty, orderType, limitPrice, stopPrice, tif, product, at);
    case BracketStep(id, stopId, targetId, symbol, side, qty, limitPrice, stopLoss, targetPrice, tif, product, at) =>
      error := b.QueueBracket(id, stopId, targetId, symbol, side, qty, limitPrice, stopLoss, targetPrice, tif, product,
                              at);
    case CancelStep(id) =>
      var cancelled := b.CancelOrder(id);
      error := None;
    case ExpireStep =>
      b.ExpireDayOrders();
      error := None;
    case SplitStep(symbol, num, den) =>
      error := b.ApplySplit(symbol, num, den);
    case BonusStep(symbol, num, den) =>
      error := b.ApplyBonus(symbol, num, den);
    case RightsStep(symbol, num, den, price, subscribe) =>
      error := b.ApplyRights(symbol, num, den, price, subscribe);
    case DividendStep(symbol, perShare) =>
      error := b.ApplyDividend(symbol, perShare);
  }

  /** A user's request is a driven step whatever it asks. */
  lemma RequestTrail(db: Db, step: Step)
    requires Sound(db) && Inv(db.orders) && !HasSnapshot(step)
    ensures Trail(db, [step], Next(db, step))
  {
    EmptyTrail(db);
    ExtendTrail(db, [], db, step);
    assert [] + [step] == [step];
  }

  lemma EntryIsQueued(db: Db, step: Step)
    requires Sound(db) && Inv(db.orders) && step.BracketStep? && step.limitPrice.None? && ErrorOf(db, step).None?
    ensures var rows := Next(db, step).orders;
            step.id in rows && rows[step.id].orderType == Market && rows[step.id].parent.None?
  {
    QueuedBracketIsWhole(db, step);
  }

  method Request(b: Broker, step: Step, feed: Feed) returns (error: Option<TxError>, ghost steps: seq<Step>)
    requires Sound(b.Tables()) && Inv(b.orders) && !HasSnapshot(step)
    modifies b
    ensures Trail(old(b.Tables()), steps, b.Tables())
    ensures steps == RequestSteps(b, old(b.Tables()), step, feed) && error == ErrorOf(old(b.Tables()), step)
  {
    hide Trail, Inv, Run, RolledBack, QueuedSteps, Next;
    ghost var before := b.Tables();
    error := Perform(b, step);
    ghost var queued := b.Tables();
    RequestTrail(before, step);
    TrailKeepsInv(before, [step], queued);
    steps := [step];
    if FillsEntry(step, error) {
      EntryIsQueued(before, step);
      var fillError; ghost var more;
      fillError, more := FillQueued(b, step.id, feed);
      Continue(before, steps, queued, more, b.Tables());
      steps := steps + more;
    }
  }

  /** What an event did; the tick's log is empty for a request. */
  datatype EventLog = EventLog(steps: seq<Step>, tick: TickLog)

  ghost function SessionSteps(logs: seq<EventLog>): seq<Step> {
    if logs == [] then [] else SessionSteps(logs[..|logs| - 1]) + logs[|logs| - 1].steps
  }

  function HooksAfterAll(settings: Settings, events: seq<Event>): Hooks {
    if events == [] then NO_HOOKS
    else
      var last := |events| - 1;
      var hooks := HooksAfterAll(settings, events[..last]);
      if events[last].Ticks? then HooksAfter(hooks, settings, events[last].market.now) else hooks
  }

  /** The event did its work on the tables as it found them. */
  ghost predicate Happened(b: Broker, settings: Settings, hooks: Hooks, before: Db, event: Event, log: EventLog)
    requires Sound(before)
  {
    match event
    case Ticks(market) =>
      IsTick(b, settings, hooks, market, before, log.tick) && log.steps == log.tick.hooks + log.tick.pass
    case Asks(step, feed) => !HasSnapshot(step) && log.steps == RequestSteps(b, before, step, feed)
  }

  /** Every event of the session happened on the tables those before it left. */
  ghost predicate IsSession(b: Broker, settings: Settings, before: Db, events: seq<Event>, logs: seq<EventLog>)
    requires Sound(before)
  {
    && |logs| == |events|
    && forall k :: 0 <= k < |events| ==>
         && StepsOk(SessionSteps(logs[..k]))
         && Happened(b, settings, HooksAfterAll(settings, events[..k]), Run(before, SessionSteps(logs[..k])),
                     events[k], logs[k])
  }

  lemma SessionSnoc(settings: Settings, events: seq<Event>, k: nat, logs: seq<EventLog>, log: EventLog)
    requires k < |events|
    ensures SessionSteps(logs + [log]) == SessionSteps(logs) + log.steps
    ensures HooksAfterAll(settings, events[..k + 1]) ==
            if events[k].Ticks? then HooksAfter(HooksAfterAll(settings, events[..k]), settings, events[k].market.now)
            else HooksAfterAll(settings, events[..k])
  {
    assert events[..k + 1][..k] == events[..k];
    assert (logs + [log])[..|logs|] == logs;
  }

  lemma SessionGoesOn(b: Broker, settings: Settings, before: Db, events: seq<Event>, k: nat, logs: seq<EventLog>,
                      log: EventLog)
    requires Sound(before) && k < |events| && IsSession(b, settings, before, events[..k], logs)
    requires StepsOk(SessionSteps(logs))
    requires Happened(b, settings, HooksAfterAll(settings, events[..k]), Run(before, SessionSteps(logs)),
                      events[k], log)
    ensures IsSession(b, settings, before, events[..k + 1], logs + [log])
  {
    hide Happened, Run, SessionSteps, HooksAfterAll;
    var longer := logs + [log];
    assert longer[..k] == logs;
    forall j: nat | j <= k ensures events[..k + 1][..j] == events[..j] && (j < k ==> longer[..j] == logs[..j]) {
    }
    assert forall j: nat :: j < k ==> events[..k][..j] == events[..j];
  }

  lemma OpeningIsTrail(capital: real)
    requires capital >= 0.0
    ensures var db := OpenAccount(capital); Sound(db) && Inv(db.orders) && Trail(db, [], db)
    ensures SessionSteps([]) == [] && forall settings :: HooksAfterAll(settings, []) == NO_HOOKS
  {
  }

  lemma NothingHappened(b: Broker, settings: Settings, before: Db)
    requires Sound(before)
    ensures IsSession(b, settings, before, [], [])
  {
  }

  /** From opening an account, any sequence of watcher ticks and user requests at any prices: every tick
      does its whole work on what it finds, every request its transactions, and the account ends in order. */
  method RunSession(capital: real, slippage: SlippageConfig, book: OrderBookConfig, feeConfig: Fees.FeeConfig,
                    exchange: Exchange, settings: Settings, events: seq<Event>)
    returns (b: Broker, ghost logs: seq<EventLog>)
    requires capital >= 0.0 && forall k :: 0 <= k < |events| ==> Allowed(events[k])
    ensures b.slippage == slippage && b.book == book && b.feeConfig == feeConfig && b.exchange == exchange
    ensures IsSession(b, settings, OpenAccount(capital), events, logs)
    ensures Trail(OpenAccount(capital), SessionSteps(logs), b.Tables())
    ensures InOrder(b.Tables())
  {
    hide Trail, Inv, IsTick, InOrder, HooksAfter, SessionSteps, HooksAfterAll, RequestSteps, IsSession;
    b := new Broker(capital, slippage, book, feeConfig, exchange);
    var watcher := new LimitOrderWatcher(b, settings);
    ghost var before := OpenAccount(capital);
    OpeningIsTrail(capital);
    logs := [];
    assert events[..0] == [];
    NothingHappened(b, settings, before);
    for k := 0 to |events|
      invariant IsSession(b, settings, before, events[..k], logs)
      invariant Trail(before, SessionSteps(logs), b.Tables()) && Sound(b.Tables()) && Inv(b.orders)
      invariant watcher.Done() == HooksAfterAll(settings, events[..k])
    {
      ghost var middle, done := b.Tables(), SessionSteps(logs);
      TrailIsRun(before, done, middle);
      ghost var log;
      match events[k] {
        case Ticks(market) =>
          var fills; ghost var tick;
          fills, tick := watcher.Tick(market);
          log := EventLog(tick.hooks + tick.pass, tick);
        case Asks(step, feed) =>
          var error; ghost var steps;
          error, steps := Request(b, step, feed);
          log := EventLog(steps, NO_LOG);
      }
      Continue(before, done, middle, log.steps, b.Tables());
      SessionSnoc(settings, events, k, logs, log);
      SessionGoesOn(b, settings, before, events, k, logs, log);
      logs := logs + [log];
    }
    assert events[..|events|] == events;
    TrailsStayInOrder(capital, SessionSteps(logs), b.Tables());
  }
}
