/** When the watcher runs its once-a-day hooks. The opening hooks run on the first tick of a date that comes in
    the session. Day expiry is meant for the close, but runs on the first tick of a date that finds the
    exchange neither in session nor in pre-open. */
module DailyHooks {
  import opened Domain
  import opened Wrappers
  import opened PartialFills
  import opened Store
  import opened Runs
  import opened Calendar
  import opened Account
  import opened Watcher
  import opened OpeningAuction
  import opened Session

  // ----- ticks against the clock -----

  function DayOf(event: Event): int
    requires event.Ticks?
  {
    event.market.now.day
  }

  /** A tick that finds the exchange neither in session nor in pre-open. */
  predicate OutOfHours(settings: Settings, event: Event) {
    event.Ticks? && AfterHours(settings.PhaseAt(event.market.now))
  }

  ghost predicate DatesForward(events: seq<Event>) {
    forall j, k :: 0 <= j < k < |events| && events[j].Ticks? && events[k].Ticks? ==>
      DayOf(events[j]) <= DayOf(events[k])
  }

  /** The first tick of its date out of hours, on a trading day. */
  ghost predicate FirstOutOfHours(settings: Settings, events: seq<Event>, k: nat)
    requires k < |events|
  {
    && OutOfHours(settings, events[k]) && IsTradingDay(settings.holidays, DayOf(events[k]))
    && forall j :: 0 <= j < k && OutOfHours(settings, events[j]) ==> DayOf(events[j]) != DayOf(events[k])
  }

  /** The hooks record the last date ticked. */
  ghost predicate RecordsDate(events: seq<Event>, lastDate: Option<int>) {
    && (forall j :: 0 <= j < |events| && events[j].Ticks? ==> lastDate.Some? && DayOf(events[j]) <= lastDate.value)
    && (lastDate.Some? ==> exists j :: 0 <= j < |events| && events[j].Ticks? && DayOf(events[j]) == lastDate.value)
  }

  predicate InSession(settings: Settings, event: Event) {
    event.Ticks? && settings.PhaseAt(event.market.now) == Regular
  }

  /** A tick of the phase the opening hooks, or the expiry, wait for. */
  predicate Spends(settings: Settings, event: Event, opening: bool) {
    if opening then InSession(settings, event) else OutOfHours(settings, event)
  }

  /** Some tick of the date was of that phase. */
  ghost predicate SpentOn(settings: Settings, events: seq<Event>, date: Option<int>, opening: bool) {
    exists j :: 0 <= j < |events| && Spends(settings, events[j], opening) && date == Some(DayOf(events[j]))
  }

  lemma OneMoreDate(events: seq<Event>, event: Event, lastDate: Option<int>)
    requires DatesForward(events + [event]) && RecordsDate(events, lastDate)
    ensures RecordsDate(events + [event], if event.Ticks? then Some(DayOf(event)) else lastDate)
  {
    var all := events + [event];
    assert all[|events|] == event && forall j :: 0 <= j < |events| ==> all[j] == events[j];
    if lastDate.Some? {
      var j :| 0 <= j < |events| && events[j].Ticks? && DayOf(events[j]) == lastDate.value;
      assert all[j].Ticks?;
    }
  }

  lemma OneMoreSpent(settings: Settings, events: seq<Event>, event: Event, date: Option<int>, opening: bool)
    ensures SpentOn(settings, events + [event], date, opening) <==>
            || SpentOn(settings, events, date, opening)
            || (Spends(settings, event, opening) && date == Some(DayOf(event)))
  {
    hide CurrentPhase;
    var all := events + [event];
    assert all[|events|] == event && forall j :: 0 <= j < |events| ==> all[j] == events[j];
    if SpentOn(settings, events, date, opening) {
      var j :| 0 <= j < |events| && Spends(settings, events[j], opening) && date == Some(DayOf(events[j]));
      assert Spends(settings, all[j], opening);
    }
  }

  /** A date that was never ticked has no tick of any phase. */
  lemma NewDate(settings: Settings, events: seq<Event>, lastDate: Option<int>, day: int, opening: bool)
    requires RecordsDate(events, lastDate) && lastDate != Some(day)
    requires forall j :: 0 <= j < |events| && events[j].Ticks? ==> DayOf(events[j]) <= day
    ensures !SpentOn(settings, events, Some(day), opening)
  {
    hide CurrentPhase;
    if lastDate.Some? {
      var j :| 0 <= j < |events| && events[j].Ticks? && DayOf(events[j]) == lastDate.value;
    }
  }

  lemma DatesBefore(events: seq<Event>)
    requires DatesForward(events) && events != []
    ensures var init, last := events[..|events| - 1], events[|events| - 1];
            && DatesForward(init)
            && (last.Ticks? ==> forall j :: 0 <= j < |init| && init[j].Ticks? ==> DayOf(init[j]) <= DayOf(last))
  {
  }

  lemma HooksAfterOne(settings: Settings, hooks: Hooks, now: Moment)
    requires settings.enforce
    ensures var after, same := HooksAfter(hooks, settings, now), hooks.lastDate == Some(now.day);
            && after.lastDate == Some(now.day)
            && (after.dayExpired <==>
                (same && hooks.dayExpired) || (settings.expireAtClose && AfterHours(settings.PhaseAt(now))))
            && (after.auctionDone <==>
                (same && hooks.auctionDone) || (settings.runAuction && settings.PhaseAt(now) == Regular))
            && (after.amoFired <==>
                (same && hooks.amoFired) || (settings.fireAmo && settings.PhaseAt(now) == Regular))
  {
  }

  /** The flags say which hooks the date of the last tick has had. */
  ghost predicate Flagged(settings: Settings, events: seq<Event>, hooks: Hooks) {
    && (hooks.dayExpired <==> settings.expireAtClose && SpentOn(settings, events, hooks.lastDate, false))
    && (hooks.auctionDone <==> settings.runAuction && SpentOn(settings, events, hooks.lastDate, true))
    && (hooks.amoFired <==> settings.fireAmo && SpentOn(settings, events, hooks.lastDate, true))
  }

  lemma {:induction false} HooksRecord(settings: Settings, events: seq<Event>)
    requires settings.enforce && DatesForward(events)
    ensures var hooks := HooksAfterAll(settings, events);
            RecordsDate(events, hooks.lastDate) && Flagged(settings, events, hooks)
  {
    if events != [] {
      hide HooksAfter, AfterHours, RecordsDate, SpentOn, Spends, DatesForward, CurrentPhase;
      var init, last := events[..|events| - 1], events[|events| - 1];
      var before := HooksAfterAll(settings, init);
      var after := HooksAfterAll(settings, events);
      assert init + [last] == events;
      DatesBefore(events);
      HooksRecord(settings, init);
      OneMoreDate(init, last, before.lastDate);
      OneMoreSpent(settings, init, last, after.lastDate, false);
      OneMoreSpent(settings, init, last, after.lastDate, true);
      if last.Ticks? {
        HooksAfterOne(settings, before, last.market.now);
        if before.lastDate != Some(DayOf(last)) {
          NewDate(settings, init, before.lastDate, DayOf(last), false);
          NewDate(settings, init, before.lastDate, DayOf(last), true);
        }
      }
    }
  }

  // ----- no other step of a tick is an expiry -----

  ghost predicate AllFromReadings(steps: seq<Step>) {
    forall step :: step in steps ==> HasSnapshot(step)
  }

  lemma {:induction false} StopsFromReadings(b: Broker, stops: seq<Row>, feed: Feed)
    ensures AllFromReadings(AllStopSteps(b, stops, feed))
  {
    if stops != [] {
      StopsFromReadings(b, stops[..|stops| - 1], feed);
    }
  }

  lemma {:induction false} LimitsFromReadings(b: Broker, limits: seq<Row>, feed: Feed, partial: PartialFillConfig)
    ensures AllFromReadings(AllLimitSteps(b, limits, feed, partial))
  {
    if limits != [] {
      LimitsFromReadings(b, limits[..|limits| - 1], feed, partial);
    }
  }

  lemma {:induction false} AmoFromReadings(b: Broker, pending: seq<Row>, feed: Feed)
    ensures AllFromReadings(AllAmoSteps(b, pending, feed))
  {
    if pending != [] {
      AmoFromReadings(b, pending[..|pending| - 1], feed);
    }
  }

  lemma AuctionFromReadings(b: Broker, references: map<Symbol, real>, r: AuctionRun)
    requires IsAuctionRun(b, references, r)
    ensures AllFromReadings(r.steps)
  {
    hide Trail, Collected, Run;
    forall step | step in r.steps ensures HasSnapshot(step) {
      var j :| 0 <= j < |r.steps| && r.steps[j] == step;
      assert FillSteps(b, Run(r.before, r.steps[..j]).orders, r.m.fills[j]) == [step];
      assert [step][0] == step;
    }
  }

  lemma {:induction false} RoundFromReadings(b: Broker, references: map<Symbol, real>, round: seq<AuctionRun>)
    requires forall k :: 0 <= k < |round| ==> IsAuctionRun(b, references, round[k])
    ensures AllFromReadings(RoundSteps(round))
  {
    if round != [] {
      hide IsAuctionRun;
      RoundFromReadings(b, references, round[..|round| - 1]);
      AuctionFromReadings(b, references, round[|round| - 1]);
    }
  }

  lemma RegularTickFromReadings(b: Broker, settings: Settings, hooks: Hooks, market: Conditions, before: Db,
                                log: TickLog)
    requires Sound(before) && IsTick(b, settings, hooks, market, before, log)
    requires settings.enforce && settings.PhaseAt(market.now) == Regular
    ensures AllFromReadings(log.hooks + log.pass)
  {
    hide Trail, Run, CurrentPhase, IsAuctionRun, Selected, ListsPending;
    var prices := Fetched(market.feed, log.first + log.stops);
    StopsFromReadings(b, log.stops, prices);
    LimitsFromReadings(b, log.limits, prices, settings.partial);
    AmoFromReadings(b, log.amo, market.feed);
    if log.round != [] {
      RoundFromReadings(b, market.references, log.round);
    }
  }

  // ----- when a tick expires the day's orders -----

  /** A hook of the date is spent exactly when it is switched on and an earlier tick of the date was of the phase
      it waits for. */
  lemma SpentIff(settings: Settings, events: seq<Event>, k: nat)
    requires k < |events| && events[k].Ticks? && settings.enforce && DatesForward(events)
    ensures var day := Some(DayOf(events[k]));
            var rolled := Rolled(HooksAfterAll(settings, events[..k]), DayOf(events[k]));
            && (rolled.dayExpired <==> settings.expireAtClose && SpentOn(settings, events[..k], day, false))
            && (rolled.auctionDone <==> settings.runAuction && SpentOn(settings, events[..k], day, true))
            && (rolled.amoFired <==> settings.fireAmo && SpentOn(settings, events[..k], day, true))
  {
    hide CurrentPhase, HooksAfterAll, SpentOn, RecordsDate;
    var init, day := events[..k], DayOf(events[k]);
    var hooks := HooksAfterAll(settings, init);
    assert forall j :: 0 <= j < k ==> init[j] == events[j];
    HooksRecord(settings, init);
    if hooks.lastDate != Some(day) {
      NewDate(settings, init, hooks.lastDate, day, false);
      NewDate(settings, init, hooks.lastDate, day, true);
    }
  }

  lemma IdleTick(b: Broker, settings: Settings, hooks: Hooks, market: Conditions, before: Db, log: TickLog)
    requires Sound(before) && IsTick(b, settings, hooks, market, before, log)
    requires settings.expireAtClose && settings.Idle(market.now)
    ensures log.hooks + log.pass ==
            if AfterHours(settings.PhaseAt(market.now)) && !Rolled(hooks, market.now.day).dayExpired
               && IsTradingDay(settings.holidays, market.now.day)
            then [ExpireStep] else []
  {
    hide CurrentPhase, IsTradingDay;
    assert log.hooks + [] == log.hooks;
  }

  lemma TickOfSession(b: Broker, settings: Settings, before: Db, events: seq<Event>, logs: seq<EventLog>, k: nat)
    requires Sound(before) && IsSession(b, settings, before, events, logs) && k < |events| && events[k].Ticks?
    ensures |logs| == |events| && StepsOk(SessionSteps(logs[..k]))
    ensures IsTick(b, settings, HooksAfterAll(settings, events[..k]), events[k].market,
                   Run(before, SessionSteps(logs[..k])), logs[k].tick)
    ensures logs[k].steps == logs[k].tick.hooks + logs[k].tick.pass
  {
    hide IsTick, Run, SessionSteps, HooksAfterAll;
  }

  lemma InSessionIsInHours(settings: Settings, now: Moment)
    requires settings.enforce && !settings.Idle(now)
    ensures settings.PhaseAt(now) == Regular && !AfterHours(settings.PhaseAt(now))
  {
  }

  lemma FirstIffNotSpent(settings: Settings, events: seq<Event>, k: nat)
    requires k < |events|
    ensures FirstOutOfHours(settings, events, k) <==>
            && OutOfHours(settings, events[k]) && IsTradingDay(settings.holidays, DayOf(events[k]))
            && !SpentOn(settings, events[..k], Some(DayOf(events[k])), false)
  {
    hide CurrentPhase, IsTradingDay;
    if events[k].Ticks? {
      EarlierOfPhase(settings, events, k, false);
    }
  }

  lemma EarlierOfPhase(settings: Settings, events: seq<Event>, k: nat, opening: bool)
    requires k < |events| && events[k].Ticks?
    ensures SpentOn(settings, events[..k], Some(DayOf(events[k])), opening) <==>
            exists j :: 0 <= j < k && Spends(settings, events[j], opening) && DayOf(events[j]) == DayOf(events[k])
  {
    hide CurrentPhase;
    var init := events[..k];
    if j :| 0 <= j < k && Spends(settings, events[j], opening) && DayOf(events[j]) == DayOf(events[k]) {
      assert init[j] == events[j];
    }
  }

  /** Over any session whose dates never go back: a tick expires the day's orders exactly when it is the
      first of a trading day's ticks to come out of hours. Outside the session a tick does nothing else. */
  lemma TickExpiresIff(b: Broker, settings: Settings, before: Db, events: seq<Event>, logs: seq<EventLog>, k: nat)
    requires Sound(before) && IsSession(b, settings, before, events, logs) && k < |events| && events[k].Ticks?
    requires settings.enforce && settings.expireAtClose && DatesForward(events)
    ensures ExpireStep in logs[k].steps <==> FirstOutOfHours(settings, events, k)
    ensures settings.Idle(events[k].market.now) ==>
              logs[k].steps == if FirstOutOfHours(settings, events, k) then [ExpireStep] else []
  {
    hide CurrentPhase, IsTick, IsTradingDay, Run, HooksAfterAll, SessionSteps, Rolled, IsSession, SpentOn;
    hide FirstOutOfHours;
    TickOfSession(b, settings, before, events, logs, k);
    SpentIff(settings, events, k);
    FirstIffNotSpent(settings, events, k);
    var hooks, market, at := HooksAfterAll(settings, events[..k]), events[k].market,
      Run(before, SessionSteps(logs[..k]));
    if settings.Idle(market.now) {
      IdleTick(b, settings, hooks, market, at, logs[k].tick);
    } else {
      InSessionIsInHours(settings, market.now);
      RegularTickFromReadings(b, settings, hooks, market, at, logs[k].tick);
    }
  }

  // ----- when a tick runs the opening hooks -----

  /** The first tick of its date to come in the session. */
  ghost predicate FirstInSession(settings: Settings, events: seq<Event>, k: nat)
    requires k < |events|
  {
    && InSession(settings, events[k])
    && forall j :: 0 <= j < k && InSession(settings, events[j]) ==> DayOf(events[j]) != DayOf(events[k])
  }

  lemma FirstInSessionIff(settings: Settings, events: seq<Event>, k: nat)
    requires k < |events| && InSession(settings, events[k])
    ensures FirstInSession(settings, events, k) <==> !SpentOn(settings, events[..k], Some(DayOf(events[k])), true)
  {
    hide CurrentPhase;
    EarlierOfPhase(settings, events, k, true);
  }

  lemma RegularTickOpens(b: Broker, settings: Settings, hooks: Hooks, market: Conditions, before: Db, log: TickLog)
    requires Sound(before) && IsTick(b, settings, hooks, market, before, log)
    requires settings.enforce && settings.PhaseAt(market.now) == Regular
    ensures Opened(b, before, settings.Waived(Rolled(hooks, market.now.day)), market, log)
  {
    hide CurrentPhase, Opened, IsPass, Trail;
  }

  lemma OpenedExactly(b: Broker, before: Db, waived: Hooks, market: Conditions, log: TickLog)
    requires Opened(b, before, waived, market, log)
    ensures Sound(before) && StepsOk(RoundSteps(log.round))
    ensures var after := Run(before, RoundSteps(log.round));
            && (if waived.auctionDone then log.round == []
                else IsRound(b, market.references, before, log.round, after, log.aborted))
            && log.hooks == RoundSteps(log.round) + (if waived.amoFired then []
                                                     else AllAmoSteps(b, log.amo, market.feed))
            && (!waived.amoFired ==> ListsPending(log.amo, after.orders))
  {
    hide Trail, IsRound, RoundSteps, AllAmoSteps, ListsPending, Run;
  }

  /** Over any session whose dates never go back: the auction round and the after-market orders each have
      their turn, when switched on, on the first tick of a date to come in the session, in that order, and on
      no other tick of the date in the session. */
  lemma OpeningRunsIff(b: Broker, settings: Settings, before: Db, events: seq<Event>, logs: seq<EventLog>, k: nat)
    requires Sound(before) && IsSession(b, settings, before, events, logs) && k < |events|
    requires settings.enforce && DatesForward(events) && InSession(settings, events[k])
    ensures |logs| == |events| && StepsOk(SessionSteps(logs[..k])) && StepsOk(RoundSteps(logs[k].tick.round))
    ensures var log, market, first := logs[k].tick, events[k].market, FirstInSession(settings, events, k);
            var found := Run(before, SessionSteps(logs[..k]));
            var auctioned := Run(found, RoundSteps(log.round));
            && (if settings.runAuction && first
                then IsRound(b, market.references, found, log.round, auctioned, log.aborted)
                else log.round == [])
            && log.hooks == RoundSteps(log.round) +
                 (if settings.fireAmo && first then AllAmoSteps(b, log.amo, market.feed) else [])
            && (settings.fireAmo && first ==> ListsPending(log.amo, auctioned.orders))
  {
    hide CurrentPhase, IsTick, Run, HooksAfterAll, SessionSteps, Rolled, IsSession, SpentOn, Opened;
    hide FirstInSession, IsRound, RoundSteps, AllAmoSteps, ListsPending;
    TickOfSession(b, settings, before, events, logs, k);
    SpentIff(settings, events, k);
    FirstInSessionIff(settings, events, k);
    var hooks, market, found := HooksAfterAll(settings, events[..k]), events[k].market,
      Run(before, SessionSteps(logs[..k]));
    RegularTickOpens(b, settings, hooks, market, found, logs[k].tick);
    OpenedExactly(b, found, settings.Waived(Rolled(hooks, market.now.day)), market, logs[k].tick);
  }

  // ----- on the clock -----

  /** Before the opening and not in pre-open: up to 09:00, or between 09:08 and 09:15. */
  predicate BeforeTheOpening(now: Moment) {
    now.time < OPENING && !(PRE_OPEN_START <= now.time <= PRE_OPEN_END)
  }

  predicate AfterTheClose(now: Moment) {
    now.time > CLOSING
  }

  lemma HoursByClock(settings: Settings, now: Moment)
    requires IsTradingDay(settings.holidays, now.day)
    ensures AfterHours(settings.PhaseAt(now)) <==> BeforeTheOpening(now) || AfterTheClose(now)
    ensures settings.enforce && AfterHours(settings.PhaseAt(now)) ==> settings.Idle(now)
  {
  }

  /** The clock the ticks read never goes back. */
  ghost predicate ClockForward(events: seq<Event>) {
    forall j, k :: 0 <= j < k < |events| && events[j].Ticks? && events[k].Ticks? ==>
      !Earlier(events[k].market.now, events[j].market.now)
  }

  predicate EarlyTick(event: Event, day: int) {
    event.Ticks? && DayOf(event) == day && BeforeTheOpening(event.market.now)
  }

  predicate LateTick(event: Event, day: int) {
    event.Ticks? && DayOf(event) == day && AfterTheClose(event.market.now)
  }

  /** The first tick after the close of a trading day. */
  ghost predicate FirstAfterTheClose(settings: Settings, events: seq<Event>, k: nat)
    requires k < |events|
  {
    && events[k].Ticks? && IsTradingDay(settings.holidays, DayOf(events[k])) && LateTick(events[k], DayOf(events[k]))
    && forall j :: 0 <= j < k ==> !LateTick(events[j], DayOf(events[k]))
  }

  ghost predicate NoDayOrderPending(db: Db) {
    forall i :: i in db.orders && db.orders[i].tif == Day ==> db.orders[i].status != Pending
  }

  lemma ExpiryLeavesNonePending(db: Db)
    requires Sound(db)
    ensures NoDayOrderPending(Next(db, ExpireStep))
  {
  }

  lemma OneStepRun(db: Db, step: Step)
    requires Sound(db) && StepOk(step)
    ensures StepsOk([]) && StepsOk([step]) && Run(db, []) == db && Run(db, [step]) == Next(db, step)
  {
    assert [step][..0] == [];
    assert Run(db, [step][..0]) == db;
  }

  /** The first tick after the close of a trading day expires its orders if and only if no tick of the date
      came before the opening, outside pre-open. If one did, the close does nothing, and a DAY order is
      still pending after it exactly when one was pending at it. */
  lemma TheCloseExpiresIff(b: Broker, settings: Settings, before: Db, events: seq<Event>, logs: seq<EventLog>, k: nat)
    requires Sound(before) && IsSession(b, settings, before, events, logs) && k < |events|
    requires settings.enforce && settings.expireAtClose && ClockForward(events)
    requires FirstAfterTheClose(settings, events, k)
    ensures |logs| == |events| && StepsOk(SessionSteps(logs[..k])) && StepsOk(logs[k].steps)
    ensures var early := exists j :: 0 <= j < k && EarlyTick(events[j], DayOf(events[k]));
            var at := Run(before, SessionSteps(logs[..k]));
            && logs[k].steps == (if early then [] else [ExpireStep])
            && (NoDayOrderPending(Run(at, logs[k].steps)) <==> !early || NoDayOrderPending(at))
  {
    hide IsSession, NoDayOrderPending, CurrentPhase, IsTradingDay, SessionSteps, Run, Next, HooksAfterAll, IsTick;
    var day := DayOf(events[k]);
    TickOfSession(b, settings, before, events, logs, k);
    TickExpiresIff(b, settings, before, events, logs, k);
    HoursByClock(settings, events[k].market.now);
    forall j | 0 <= j < k && events[j].Ticks? && DayOf(events[j]) == day
      ensures OutOfHours(settings, events[j]) <==> EarlyTick(events[j], day)
    {
      HoursByClock(settings, events[j].market.now);
      assert !LateTick(events[j], day);
    }
    var at := Run(before, SessionSteps(logs[..k]));
    ExpiryLeavesNonePending(at);
    OneStepRun(at, ExpireStep);
  }

  lemma {:induction false} FirstLate(settings: Settings, events: seq<Event>, day: int, n: nat) returns (k: nat)
    requires n < |events| && LateTick(events[n], day) && IsTradingDay(settings.holidays, day)
    ensures k <= n && FirstAfterTheClose(settings, events, k) && DayOf(events[k]) == day
  {
    if j :| 0 <= j < n && LateTick(events[j], day) {
      k := FirstLate(settings, events, day, j);
    } else {
      k := n;
    }
  }

  /** A tick after the close that expires the day's orders has no tick before the opening to thank. */
  lemma NoEarlyTick(b: Broker, settings: Settings, before: Db, events: seq<Event>, logs: seq<EventLog>, k: nat, j: nat)
    requires Sound(before) && IsSession(b, settings, before, events, logs) && k < |events| && j < |events|
    requires settings.enforce && settings.expireAtClose && ClockForward(events)
    requires events[k].Ticks? && LateTick(events[k], DayOf(events[k])) && ExpireStep in logs[k].steps
    requires IsTradingDay(settings.holidays, DayOf(events[k]))
    ensures !EarlyTick(events[j], DayOf(events[k]))
  {
    hide IsSession, IsTradingDay, CurrentPhase;
    TickExpiresIff(b, settings, before, events, logs, k);
    if events[j].Ticks? && DayOf(events[j]) == DayOf(events[k]) {
      HoursByClock(settings, events[j].market.now);
    }
  }

  /** Read off a whole session: some tick after the close of a trading day expires its orders if and only
      if the watcher ticks after that close at all and never before that day's opening. */
  lemma DayIsClosedIff(b: Broker, settings: Settings, before: Db, events: seq<Event>, logs: seq<EventLog>, day: int)
    requires Sound(before) && IsSession(b, settings, before, events, logs)
    requires settings.enforce && settings.expireAtClose && ClockForward(events) && IsTradingDay(settings.holidays, day)
    ensures |logs| == |events|
    ensures (exists k :: 0 <= k < |events| && LateTick(events[k], day) && ExpireStep in logs[k].steps) <==>
            && (exists k :: 0 <= k < |events| && LateTick(events[k], day))
            && (forall j :: 0 <= j < |events| ==> !EarlyTick(events[j], day))
  {
    assert |logs| == |events|;
    hide IsTradingDay, CurrentPhase, SessionSteps, Run, IsSession, ClockForward;
    if k: nat :| k < |events| && LateTick(events[k], day) && ExpireStep in logs[k].steps {
      forall j: nat | j < |events| ensures !EarlyTick(events[j], day) {
        NoEarlyTick(b, settings, before, events, logs, k, j);
      }
    }
    if n: nat :| n < |events| && LateTick(events[n], day) {
      var k := FirstLate(settings, events, day, n);
      TheCloseExpiresIff(b, settings, before, events, logs, k);
    }
  }

  // ----- a DAY order that outlives its day -----

  const NO_PRICES := Feed(map[], map[], (s: Symbol) => None, (s: Symbol) => 0.05, false)

  /** Eight in the morning and a quarter to four in the afternoon of one Monday. */
  const AT_EIGHT := Ticks(Conditions(Moment(1, Clock(8, 0)), NO_PRICES, map[]))

  const AT_QUARTER_TO_FOUR := Ticks(Conditions(Moment(1, Clock(15, 45)), NO_PRICES, map[]))

  const BUY_FOR_THE_DAY := Asks(QueueStep(1, "X", Buy, 10.0, Limit, Some(100.0), None, Day, Delivery, 0), NO_PRICES)

  lemma OneMonday(settings: Settings)
    requires settings.holidays == {} && settings.enforce && settings.expireAtClose
    ensures IsTradingDay(settings.holidays, 1)
    ensures settings.PhaseAt(AT_EIGHT.market.now) == Closed
    ensures settings.PhaseAt(AT_QUARTER_TO_FOUR.market.now) == PostClose
  {
  }

  const ONE_MONDAY := [AT_EIGHT, BUY_FOR_THE_DAY, AT_QUARTER_TO_FOUR]

  lemma RequestOfSession(b: Broker, settings: Settings, before: Db, events: seq<Event>, logs: seq<EventLog>, k: nat)
    requires Sound(before) && IsSession(b, settings, before, events, logs) && k < |events| && events[k].Asks?
    ensures |logs| == |events| && StepsOk(SessionSteps(logs[..k])) && !HasSnapshot(events[k].step)
    ensures logs[k].steps == RequestSteps(b, Run(before, SessionSteps(logs[..k])), events[k].step, events[k].feed)
  {
    hide IsTick, Run, SessionSteps, HooksAfterAll, RequestSteps;
  }

  lemma OrderRequest(b: Broker, db: Db, step: Step, feed: Feed)
    requires Sound(db) && step.QueueStep?
    ensures RequestSteps(b, db, step, feed) == [step]
  {
  }

  lemma ThreeLogs(logs: seq<EventLog>)
    requires |logs| == 3
    ensures SessionSteps(logs) == logs[0].steps + logs[1].steps + logs[2].steps
  {
    assert logs[..2][..1] == logs[..1] && logs[..1][..0] == [];
    assert SessionSteps(logs[..1]) == [] + logs[0].steps;
    assert SessionSteps(logs[..2]) == SessionSteps(logs[..1]) + logs[1].steps;
  }

  lemma ExpireAndQueue(db: Db)
    requires Sound(db) && db.orders == map[]
    ensures var expired := Next(db, ExpireStep);
            Sound(expired) && var d := Next(expired, BUY_FOR_THE_DAY.step);
            1 in d.orders && d.orders[1].tif == Day && d.orders[1].status == Pending
  {
  }

  lemma ExpireThenQueue(db: Db)
    requires Sound(db) && db.orders == map[]
    ensures var steps := [ExpireStep] + [BUY_FOR_THE_DAY.step];
            StepsOk(steps) && var d := Run(db, steps);
            1 in d.orders && d.orders[1].tif == Day && d.orders[1].status == Pending
  {
    hide Next, Run;
    OneStepRun(db, ExpireStep);
    RunSnoc(db, [ExpireStep], BUY_FOR_THE_DAY.step);
    ExpireAndQueue(db);
  }

  lemma OneMondaysLogs(b: Broker, settings: Settings, before: Db, logs: seq<EventLog>)
    requires settings.holidays == {} && settings.enforce && settings.expireAtClose
    requires Sound(before) && IsSession(b, settings, before, ONE_MONDAY, logs)
    ensures |logs| == 3 && logs[0].steps == [ExpireStep] && logs[1].steps == [BUY_FOR_THE_DAY.step]
            && logs[2].steps == []
  {
    hide CurrentPhase, IsTradingDay, IsSession, Run, SessionSteps, RequestSteps, Next;
    OneMonday(settings);
    TickExpiresIff(b, settings, before, ONE_MONDAY, logs, 0);
    RequestOfSession(b, settings, before, ONE_MONDAY, logs, 1);
    OrderRequest(b, Run(before, SessionSteps(logs[..1])), BUY_FOR_THE_DAY.step, NO_PRICES);
    TickExpiresIff(b, settings, before, ONE_MONDAY, logs, 2);
    assert OutOfHours(settings, ONE_MONDAY[0]);
  }

  /** A watcher that first ticks at eight spends the date's expiry before the session. A DAY order queued
      afterwards is still pending at a quarter to four, when the exchange is past its close and the tick
      that should end the day does nothing. */
  lemma DayOrderOutlivesItsDay(b: Broker, settings: Settings, capital: real, logs: seq<EventLog>)
    requires settings.holidays == {} && settings.enforce && settings.expireAtClose
    requires capital >= 0.0 && Sound(OpenAccount(capital))
    requires IsSession(b, settings, OpenAccount(capital), ONE_MONDAY, logs)
    ensures settings.PhaseAt(AT_QUARTER_TO_FOUR.market.now) == PostClose
    ensures |logs| == 3 && logs[0].steps == [ExpireStep] && logs[2].steps == [] && StepsOk(SessionSteps(logs))
    ensures var orders := Run(OpenAccount(capital), SessionSteps(logs)).orders;
            1 in orders && orders[1].tif == Day && orders[1].status == Pending
  {
    hide IsSession, Run, SessionSteps, Next;
    OneMonday(settings);
    OneMondaysLogs(b, settings, OpenAccount(capital), logs);
    ThreeLogs(logs);
    assert logs[0].steps + logs[1].steps + logs[2].steps == [ExpireStep] + [BUY_FOR_THE_DAY.step];
    ExpireThenQueue(OpenAccount(capital));
  }
}
