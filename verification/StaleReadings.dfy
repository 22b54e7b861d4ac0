/** What stale readings do to a bracket: runs from opening that differ from a watcher's only in that their
    last fill works from a row read two steps earlier. */
module StaleReadings {
  import opened Domain
  import opened Wrappers
  import opened Store
  import opened Books
  import opened Runs
  import opened Brackets

  const START := OpenAccount(10000.0)

  const ENTRY := PendingRow("X", Buy, 10.0, Market, None, Some(5.0), Day, None, Delivery, 0)

  const STOP := PendingRow("X", Sell, 10.0, StopMarket, None, Some(5.0), Day, Some(1), Delivery, 0)

  const TARGET := PendingRow("X", Sell, 10.0, Limit, Some(12.0), None, Day, Some(1), Delivery, 0)

  const FILLED_ENTRY := ENTRY.(status := Filled, filledQty := 10.0, filledAvgPrice := Some(10.0))

  const OTHER := Order("X", Buy, 10.0, Market, Filled, 10.0, Some(10.0), None, None, 0.0, 0.0, Day, None, Delivery,
                       false, 0)

  /** Ten shares held besides, a bracket for ten more, its entry filled, four shares sold at its target. */
  const PRELUDE := [
    MarketStep(9, "X", Buy, 10.0, 10.0, 0.0, Day, Delivery, 0),
    BracketStep(1, 2, 3, "X", Buy, 10.0, None, 5.0, 12.0, Day, Delivery, 0),
    FillPendingStep(1, ENTRY, 10.0, 0.0),
    LimitFillStep(3, TARGET, 12.0, 0.0, Some(4.0))]

  const QUEUED := map[9 := OTHER, 1 := ENTRY, 2 := STOP, 3 := TARGET]

  const ENTERED := map[9 := OTHER, 1 := FILLED_ENTRY, 2 := STOP, 3 := TARGET]

  const SLICED := map[9 := OTHER, 1 := FILLED_ENTRY, 2 := STOP.(qty := 6.0),
    3 := TARGET.(status := PartiallyFilled, filledQty := 4.0, filledAvgPrice := Some(12.0), realizedPl := 8.0)]

  // ----- the prelude, step by step -----

  predicate Stands(db: Db, cash: real, held: real, rows: map<Id, Order>) {
    db.cash == cash && db.orders == rows && db.positions == map["X" := Position(held, 10.0)]
  }

  lemma BuyFirst()
    ensures Sound(START) && Stands(Next(START, PRELUDE[0]), 9900.0, 10.0, map[9 := OTHER])
  {
  }

  lemma QueueBracketOn(db: Db)
    requires Stands(db, 9900.0, 10.0, map[9 := OTHER])
    ensures Stands(Next(db, PRELUDE[1]), 9900.0, 10.0, QUEUED)
  {
  }

  lemma FillEntryOn(db: Db)
    requires Stands(db, 9900.0, 10.0, QUEUED)
    ensures Stands(Next(db, PRELUDE[2]), 9800.0, 20.0, ENTERED)
  {
  }

  lemma SliceTargetOn(db: Db)
    requires Stands(db, 9800.0, 20.0, ENTERED)
    ensures Stands(Next(db, PRELUDE[3]), 9848.0, 16.0, SLICED)
  {
  }

  lemma StartIsSound()
    ensures Sound(START) && StepsOk(PRELUDE) && Inv(START.orders)
    ensures Run(START, PRELUDE[..0]) == START && Run(START, PRELUDE[..4]) == Run(START, PRELUDE)
  {
    assert PRELUDE[..0] == [] && PRELUDE[..4] == PRELUDE;
  }

  lemma Prelude()
    ensures Sound(START) && StepsOk(PRELUDE)
    ensures Stands(Run(START, PRELUDE[..2]), 9900.0, 10.0, QUEUED)
    ensures Stands(Run(START, PRELUDE[..3]), 9800.0, 20.0, ENTERED)
    ensures Stands(Run(START, PRELUDE), 9848.0, 16.0, SLICED)
  {
    hide Next, Stands, Run;
    StartIsSound();
    RunNext(START, PRELUDE, 0);
    BuyFirst();
    RunNext(START, PRELUDE, 1);
    QueueBracketOn(Run(START, PRELUDE[..1]));
    RunNext(START, PRELUDE, 2);
    FillEntryOn(Run(START, PRELUDE[..2]));
    RunNext(START, PRELUDE, 3);
    SliceTargetOn(Run(START, PRELUDE[..3]));
  }

  lemma PreludeIsDriven()
    ensures Sound(START) && StepsOk(PRELUDE) && DrivenAlong(START, PRELUDE)
  {
    hide Run;
    Prelude();
    forall k | 0 <= k < |PRELUDE| ensures Driven(Run(START, PRELUDE[..k]), PRELUDE[k]) {
    }
  }

  /** A driven run and one step more, from a reading taken along the way. */
  lemma OneStaleStepMore(db: Db, steps: seq<Step>, step: Step, j: nat)
    requires Sound(db) && StepsOk(steps) && DrivenAlong(db, steps) && StepOk(step)
    requires HasSnapshot(step) && j <= |steps| && ReadAfter(db, steps, j, step)
    requires Typed(step) && Gated(Run(db, steps), step)
    ensures StepsOk(steps + [step]) && StaleAlong(db, steps + [step])
  {
    hide Run, Typed, Gated, Current;
    var all := steps + [step];
    DrivenIsStale(db, steps);
    forall k | 0 <= k < |all| ensures OnceRead(db, all, k) && Typed(all[k]) && Gated(Run(db, all[..k]), all[k]) {
      assert all[..k] == steps[..k];
      if k < |steps| {
        assert OnceRead(db, steps, k);
        if HasSnapshot(steps[k]) && steps[k].id in Run(db, steps[..k]).orders {
          var i: nat :| i <= k && ReadAfter(db, steps, i, steps[k]);
          assert all[..i] == steps[..i];
          assert ReadAfter(db, all, i, all[k]);
        }
      } else {
        assert steps[..k] == steps && all[..j] == steps[..j];
        assert ReadAfter(db, all, j, step);
      }
    }
  }

  lemma PreludeAgrees()
    ensures Sound(START) && StepsOk(PRELUDE)
    ensures Inv(Run(START, PRELUDE).orders) && OrdersAgree(Run(START, PRELUDE))
  {
    hide Run, Next;
    StartIsSound();
    PreludeIsDriven();
    DrivenRuns(START, PRELUDE);
    InvAlways(START, PRELUDE);
    FourStoresAgree(10000.0, PRELUDE);
  }

  /** One more step, on a row as it was when the bracket was queued. */
  lemma OneStaleStep(step: Step)
    requires StepOk(step) && Typed(step) && IsFill(step) && step.snapshot.parent == Some(1)
    requires step.id in QUEUED && step.snapshot == QUEUED[step.id]
    ensures Sound(START) && StepsOk(PRELUDE + [step]) && StaleAlong(START, PRELUDE + [step])
    ensures StepsOk(PRELUDE) && Run(START, PRELUDE + [step]) == Next(Run(START, PRELUDE), step)
    ensures Stale(Run(START, PRELUDE), step)
  {
    hide Run, Next;
    StartIsSound();
    Prelude();
    PreludeIsDriven();
    RunSnoc(START, PRELUDE, step);
    OneStaleStepMore(START, PRELUDE, step, 2);
    BaseAlways(START, PRELUDE + [step], 5);
    assert (PRELUDE + [step])[..4] == PRELUDE;
  }

  /** A fifth step that breaks or keeps a condition along the run. */
  lemma Fifth(step: Step)
    requires Sound(START) && StepsOk(PRELUDE) && StepOk(step) && StepsOk(PRELUDE + [step])
    ensures var steps := PRELUDE + [step];
            && (UpToDateAlong(START, steps) <==> UpToDate(Run(START, PRELUDE), step))
            && (StopsFitAlong(START, steps) <==> StopFits(Run(START, PRELUDE), step))
  {
    hide Run, Next, UpToDate, StopFits;
    var steps := PRELUDE + [step];
    StartIsSound();
    PreludeIsDriven();
    DrivenRuns(START, PRELUDE);
    assert steps[..4] == PRELUDE && steps[4] == step;
    forall k | 0 <= k < 4
      ensures UpToDate(Run(START, steps[..k]), steps[k]) && StopFits(Run(START, steps[..k]), steps[k])
    {
      assert steps[..k] == PRELUDE[..k] && steps[k] == PRELUDE[k];
    }
  }

  // ----- a stop read before the target's slice -----

  /** The stop is filled for the ten shares it was read with, though only six are left uncovered. */
  const STALE_STOP := FillPendingStep(2, STOP, 5.0, 0.0)

  lemma StopTrades(db: Db)
    requires Stands(db, 9848.0, 16.0, SLICED)
    ensures Trades(db, STALE_STOP) && IsBracket(Next(db, STALE_STOP).orders, 1, 2, 3)
    ensures var rows := Next(db, STALE_STOP).orders;
            rows[3].filledQty == 4.0 && rows[2].filledQty == 10.0 && rows[1].filledQty == 10.0
  {
  }

  /** Every slice up to date, every reading once the row's, every claim on a row still pending: and
      fourteen shares are sold to close ten. */
  lemma StaleStopOvertrades()
    ensures Sound(START) && StepsOk(PRELUDE + [STALE_STOP])
    ensures StaleAlong(START, PRELUDE + [STALE_STOP]) && UpToDateAlong(START, PRELUDE + [STALE_STOP])
    ensures !StopsFitAlong(START, PRELUDE + [STALE_STOP])
    ensures var db := Run(START, PRELUDE + [STALE_STOP]);
            && IsBracket(db.orders, 1, 2, 3) && !TradesCovered(db, 1, 2, 3)
            && db.orders[3].filledQty + db.orders[2].filledQty == 14.0 && db.orders[1].filledQty == 10.0
  {
    hide Run, Next;
    var db := Run(START, PRELUDE);
    Prelude();
    OneStaleStep(STALE_STOP);
    PreludeAgrees();
    Fifth(STALE_STOP);
    StopTrades(db);
    assert IsBracket(db.orders, 1, 2, 3);
    ChildFillCoveredIff(db, STALE_STOP, 1, 2, 3);
    assert !Uncovers(db.orders, 1, 2, 10.0);
  }

  // ----- a target read before its own slice -----

  /** Seven more shares, computed as if four had not been sold. */
  const STALE_SLICE := LimitFillStep(3, TARGET, 12.0, 0.0, Some(7.0))

  lemma SliceTrades(db: Db)
    requires Stands(db, 9848.0, 16.0, SLICED)
    ensures Trades(db, STALE_SLICE) && IsBracket(Next(db, STALE_SLICE).orders, 1, 2, 3)
    ensures Next(db, STALE_SLICE).orders[3].filledQty == 7.0
  {
  }

  /** The rows stay safe, and the target's says seven: but eleven shares were sold to close ten. */
  lemma StaleSliceOvertrades()
    ensures Sound(START) && StepsOk(PRELUDE + [STALE_SLICE])
    ensures StaleAlong(START, PRELUDE + [STALE_SLICE]) && StopsFitAlong(START, PRELUDE + [STALE_SLICE])
    ensures !UpToDateAlong(START, PRELUDE + [STALE_SLICE])
    ensures var db := Run(START, PRELUDE + [STALE_SLICE]);
            && IsBracket(db.orders, 1, 2, 3) && BracketsSafe(db.orders) && !TradesCovered(db, 1, 2, 3)
            && db.orders[3].filledQty == 7.0
  {
    hide Run, Next;
    var db := Run(START, PRELUDE);
    Prelude();
    OneStaleStep(STALE_SLICE);
    PreludeAgrees();
    Fifth(STALE_SLICE);
    SliceTrades(db);
    assert IsBracket(db.orders, 1, 2, 3);
    ChildFillCoveredIff(db, STALE_SLICE, 1, 2, 3);
    SafeNextIff(db, STALE_SLICE);
  }

  // ----- a small slice of a target read before its own -----

  /** Two more shares, computed as if four had not been sold. */
  const SMALL_SLICE := LimitFillStep(3, TARGET, 12.0, 0.0, Some(2.0))

  lemma SmallSliceRows(db: Db)
    requires Stands(db, 9848.0, 16.0, SLICED)
    ensures Next(db, SMALL_SLICE).orders == RowsAfterLimitFill(SLICED, 3, TARGET, Some(2.0), 12.0, 0.0, 4.0)
  {
    hide RowsAfterLimitFill;
  }

  lemma SmallSliceTrades(db: Db)
    requires Stands(db, 9848.0, 16.0, SLICED)
    ensures var rows := Next(db, SMALL_SLICE).orders;
            && 1 in rows && 2 in rows && 3 in rows && rows[1] == SLICED[1]
            && rows[2] == SLICED[2] && rows[3].filledQty == 2.0 && SameIdentity(rows[3], SLICED[3])
  {
    hide Next, RowsAfterLimitFill;
    SmallSliceRows(db);
    LimitFillRowByRow(SLICED, 3, TARGET, Some(2.0), 12.0, 0.0, 4.0);
    SiblingAfterSlice(SLICED, 3, TARGET, Some(2.0), 12.0, 0.0, 4.0, 1, 2);
  }

  /** The target's row goes back from four to two, and its stop stays at six: two shares have no cover. */
  lemma StaleSliceLeavesStopShort()
    ensures Sound(START) && StepsOk(PRELUDE + [SMALL_SLICE]) && StaleAlong(START, PRELUDE + [SMALL_SLICE])
    ensures var rows := Run(START, PRELUDE + [SMALL_SLICE]).orders;
            && IsBracket(rows, 1, 2, 3) && Open(rows[2]) && rows[2].qty + rows[3].filledQty == 8.0 < rows[1].qty
  {
    hide Run, Next;
    Prelude();
    OneStaleStep(SMALL_SLICE);
    SmallSliceTrades(Run(START, PRELUDE));
  }
}
