/** T+1 settlement: shares bought are deliverable from the next business day. Whole shares. */
module Settlement {
  import opened Domain

  type Symbol = string

  // ----- business days; dates are proleptic ordinals, day 1 a Monday -----

  /** Monday is 0, Sunday is 6. */
  function Weekday(d: int): int {
    (d + 6) % 7
  }

  function NextBusinessDay(d: int): int {
    if Weekday(d) == 4 then d + 3 else if Weekday(d) == 5 then d + 2 else d + 1
  }

  method FindNextBusinessDay(d: int) returns (next: int)
    ensures next == NextBusinessDay(d)
  {
    next := d + 1;
    while Weekday(next) >= 5
      invariant d < next <= NextBusinessDay(d)
      invariant forall e :: d < e < next ==> Weekday(e) >= 5
      decreases NextBusinessDay(d) - next
    {
      next := next + 1;
    }
  }

  /** It is the first weekday after `d`. */
  lemma NextBusinessDayIsFirst(d: int, e: int)
    ensures d < NextBusinessDay(d) <= d + 3 && Weekday(NextBusinessDay(d)) < 5
    ensures d < e < NextBusinessDay(d) ==> Weekday(e) >= 5
  {
  }

  // ----- the pending table -----

  datatype Mode = TPlus0 | TPlus1

  datatype RowStatus = Awaiting | Settled

  datatype PendingRow = PendingRow(symbol: Symbol, side: Side, qty: nat, cashDelta: real, tradeDate: int, settleOn: int,
                                   status: RowStatus)

  /** Share positions and the pending table. */
  datatype Demat = Demat(positions: map<Symbol, nat>, pending: seq<PendingRow>)

  function Held(b: Demat, s: Symbol): nat {
    if s in b.positions then b.positions[s] else 0
  }

  predicate Counts(row: PendingRow, s: Symbol, asOf: int) {
    row.symbol == s && row.side == Buy && row.status == Awaiting && row.settleOn > asOf
  }

  /** Bought shares of `s` not yet deliverable on `asOf`. */
  function InFlight(rows: seq<PendingRow>, s: Symbol, asOf: int): nat {
    if rows == [] then 0
    else
      var last := rows[|rows| - 1];
      InFlight(rows[..|rows| - 1], s, asOf) + if Counts(last, s, asOf) then last.qty else 0
  }

  function Deliverable(mode: Mode, rows: seq<PendingRow>, s: Symbol, positionQty: int, asOf: int): int {
    if mode == TPlus0 then positionQty
    else if positionQty >= InFlight(rows, s, asOf) then positionQty - InFlight(rows, s, asOf) else 0
  }

  predicate IsDue(row: PendingRow, asOf: int) {
    row.status == Awaiting && row.settleOn <= asOf
  }

  function Rolled(rows: seq<PendingRow>, asOf: int): seq<PendingRow> {
    if rows == [] then []
    else
      var last := rows[|rows| - 1];
      Rolled(rows[..|rows| - 1], asOf) + [if IsDue(last, asOf) then last.(status := Settled) else last]
  }

  function DueCount(rows: seq<PendingRow>, asOf: int): nat {
    if rows == [] then 0 else DueCount(rows[..|rows| - 1], asOf) + if IsDue(rows[|rows| - 1], asOf) then 1 else 0
  }

  // ----- what the broker does -----

  /** A sale either passed the deliverability check when it was submitted, as every delivery market
      order does on the spot, or fills later from a resting order that is not checked again. */
  datatype Action =
    | BuyShares(symbol: Symbol, qty: int, day: int)
    | SellShares(symbol: Symbol, qty: int, cashCredit: real, day: int, resting: bool)
    | Roll(day: int)

  predicate Accepts(mode: Mode, b: Demat, a: Action) {
    match a
    case BuyShares(_, qty, _) => qty > 0
    case SellShares(s, qty, _, day, resting) =>
      qty > 0 && qty <= Held(b, s)
        && (resting || mode == TPlus0 || qty <= Deliverable(mode, b.pending, s, Held(b, s), day))
    case Roll(_) => true
  }

  function Enqueued(mode: Mode, rows: seq<PendingRow>, s: Symbol, side: Side, qty: nat, cashDelta: real,
                    day: int): seq<PendingRow>
  {
    if mode == TPlus0 then rows else rows + [PendingRow(s, side, qty, cashDelta, day, NextBusinessDay(day), Awaiting)]
  }

  function Act(mode: Mode, b: Demat, a: Action): Demat {
    if !Accepts(mode, b, a) then b
    else match a
      case BuyShares(s, qty, day) =>
        Demat(b.positions[s := Held(b, s) + qty], Enqueued(mode, b.pending, s, Buy, qty, 0.0, day))
      case SellShares(s, qty, cashCredit, day, _) =>
        Demat(if Held(b, s) == qty then b.positions - {s} else b.positions[s := Held(b, s) - qty],
              Enqueued(mode, b.pending, s, Sell, qty, cashCredit, day))
      case Roll(day) => b.(pending := Rolled(b.pending, day))
  }

  /** The settlement engine over its table, with the share positions it is asked about. */
  class DeliveryDesk {
    const mode: Mode
    var positions: map<Symbol, nat>
    var pending: seq<PendingRow>

    function State(): Demat
      reads this
    {
      Demat(positions, pending)
    }

    constructor (mode: Mode)
      ensures State() == Demat(map[], []) && this.mode == mode
    {
      this.mode := mode;
      positions, pending := map[], [];
    }

    method EnqueueBuy(symbol: Symbol, qty: nat, tradeDate: int)
      modifies this`pending
      ensures pending == Enqueued(mode, old(pending), symbol, Buy, qty, 0.0, tradeDate)
    {
      if mode == TPlus1 {
        var settleOn := FindNextBusinessDay(tradeDate);
        pending := pending + [PendingRow(symbol, Buy, qty, 0.0, tradeDate, settleOn, Awaiting)];
      }
    }

    method EnqueueSell(symbol: Symbol, qty: nat, cashCredit: real, tradeDate: int)
      modifies this`pending
      ensures pending == Enqueued(mode, old(pending), symbol, Sell, qty, cashCredit, tradeDate)
    {
      if mode == TPlus1 {
        var settleOn := FindNextBusinessDay(tradeDate);
        pending := pending + [PendingRow(symbol, Sell, qty, cashCredit, tradeDate, settleOn, Awaiting)];
      }
    }

    /** Retires every due row and says how many there were. */
    method SettleDue(asOf: int) returns (count: nat)
      modifies this`pending
      ensures pending == Rolled(old(pending), asOf)
      ensures count == DueCount(old(pending), asOf)
    {
      var rows := pending;
      var rolled: seq<PendingRow> := [];
      count := 0;
      assert rows[..|rows|] == rows;
      for k := 0 to |rows|
        invariant rolled == Rolled(rows[..k], asOf) && count == DueCount(rows[..k], asOf)
        invariant pending == rows
      {
        assert rows[..k + 1][..k] == rows[..k];
        if IsDue(rows[k], asOf) {
          rolled := rolled + [rows[k].(status := Settled)];
          count := count + 1;
        } else {
          rolled := rolled + [rows[k]];
        }
      }
      pending := rolled;
    }

    method DeliverableQty(symbol: Symbol, positionQty: int, asOf: int) returns (qty: int)
      ensures qty == Deliverable(mode, pending, symbol, positionQty, asOf)
    {
      if mode == TPlus0 {
        return positionQty;
      }
      var inFlight := 0;
      assert pending[..|pending|] == pending;
      for k := 0 to |pending|
        invariant inFlight == InFlight(pending[..k], symbol, asOf)
      {
        assert pending[..k + 1][..k] == pending[..k];
        if Counts(pending[k], symbol, asOf) {
          inFlight := inFlight + pending[k].qty;
        }
      }
      qty := if positionQty - inFlight >= 0 then positionQty - inFlight else 0;
    }

    /** A delivery buy that was paid for, however it was ordered. */
    method FillBuy(symbol: Symbol, qty: int, day: int) returns (accepted: bool)
      modifies this
      ensures State() == Act(mode, old(State()), BuyShares(symbol, qty, day))
      ensures accepted == Accepts(mode, old(State()), BuyShares(symbol, qty, day))
    {
      if qty <= 0 {
        return false;
      }
      positions := positions[symbol := Held(State(), symbol) + qty];
      EnqueueBuy(symbol, qty, day);
      accepted := true;
    }

    method FillSell(symbol: Symbol, qty: nat, cashCredit: real, day: int)
      requires 0 < qty <= Held(State(), symbol)
      modifies this
      ensures State() == Act(mode, old(State()), SellShares(symbol, qty, cashCredit, day, true))
    {
      var left := Held(State(), symbol) - qty;
      positions := if left == 0 then positions - {symbol} else positions[symbol := left];
      EnqueueSell(symbol, qty, cashCredit, day);
    }

    /** A delivery market sale: the deliverability check at submission, the position check at the
        fill, then the fill and its settlement row. */
    method SubmitMarketSell(symbol: Symbol, qty: int, cashCredit: real, day: int) returns (accepted: bool)
      modifies this
      ensures State() == Act(mode, old(State()), SellShares(symbol, qty, cashCredit, day, false))
      ensures accepted == Accepts(mode, old(State()), SellShares(symbol, qty, cashCredit, day, false))
    {
      if qty <= 0 {
        return false;
      }
      var held := Held(State(), symbol);
      if mode == TPlus1 {
        var sellable := DeliverableQty(symbol, held, day);
        if qty > sellable {
          return false;
        }
      }
      if held < qty {
        return false;
      }
      FillSell(symbol, qty, cashCredit, day);
      accepted := true;
    }
  }

  // ----- what rolling does to the table, and what the other mode does -----

  lemma {:induction false} RolledRow(rows: seq<PendingRow>, asOf: int, k: nat)
    requires k < |rows|
    ensures |Rolled(rows, asOf)| == |rows|
    ensures Rolled(rows, asOf)[k] ==
            if rows[k].status == Awaiting && rows[k].settleOn <= asOf then rows[k].(status := Settled) else rows[k]
  {
    var n := |rows| - 1;
    if n > 0 {
      RolledRow(rows[..n], asOf, if k < n then k else 0);
    }
  }

  lemma {:induction false} NothingDue(rows: seq<PendingRow>, asOf: int)
    requires forall k :: 0 <= k < |rows| ==> rows[k].status == Settled || rows[k].settleOn > asOf
    ensures DueCount(rows, asOf) == 0
  {
    if rows != [] {
      NothingDue(rows[..|rows| - 1], asOf);
    }
  }

  /** Settlement retires each awaiting row whose day has come, leaves every other row as it is, and so has
      nothing left to do that day, or for any day before. */
  lemma RolledOnceIsEnough(rows: seq<PendingRow>, asOf: int, d: int)
    requires d <= asOf
    ensures |Rolled(rows, asOf)| == |rows| && DueCount(Rolled(rows, asOf), d) == 0
    ensures forall k :: 0 <= k < |rows| ==>
              Rolled(rows, asOf)[k] ==
              if rows[k].status == Awaiting && rows[k].settleOn <= asOf then rows[k].(status := Settled) else rows[k]
  {
    var rolled := Rolled(rows, asOf);
    forall k: nat | k < |rows|
      ensures |rolled| == |rows|
      ensures rolled[k] ==
              if rows[k].status == Awaiting && rows[k].settleOn <= asOf then rows[k].(status := Settled) else rows[k]
    {
      RolledRow(rows, asOf, k);
    }
    if rows == [] {
      assert rolled == [];
    } else {
      RolledRow(rows, asOf, 0);
    }
    NothingDue(rolled, d);
  }

  /** Without T+1 nothing ever waits: no purchase or sale leaves a pending row, and every sale of shares held
      goes through. */
  lemma SameDayMode(b: Demat, a: Action)
    requires !a.Roll?
    ensures Act(TPlus0, b, a).pending == b.pending
    ensures Accepts(TPlus0, b, a) <==> a.qty > 0 && (a.SellShares? ==> a.qty <= Held(b, a.symbol))
  {
  }

  /** Under T+1 every accepted purchase and sale leaves one pending row behind the others: the shares, the side,
      the cash of a sale, the trade date, and the next business day to settle on. */
  lemma TradeAwaitsSettlement(b: Demat, a: Action)
    requires Accepts(TPlus1, b, a) && !a.Roll?
    ensures var d, n := Act(TPlus1, b, a), |b.pending|;
            && |d.pending| == n + 1 && d.pending[..n] == b.pending
            && var row := d.pending[n];
               && row.symbol == a.symbol && row.qty == a.qty && row.tradeDate == a.day && row.status == Awaiting
               && row.side == (if a.BuyShares? then Buy else Sell)
               && row.cashDelta == (if a.BuyShares? then 0.0 else a.cashCredit)
               && a.day < row.settleOn && Weekday(row.settleOn) < 5
               && forall e :: a.day < e < row.settleOn ==> Weekday(e) >= 5
  {
    forall e | a.day < e < NextBusinessDay(a.day) ensures Weekday(e) >= 5 {
      NextBusinessDayIsFirst(a.day, e);
    }
  }

  /** Weekdays follow one another, and 1 January 1970, day 719163, was a Thursday. */
  lemma WeekdaysInTurn(d: int)
    ensures 0 <= Weekday(d) <= 6 && Weekday(d + 1) == (if Weekday(d) == 6 then 0 else Weekday(d) + 1)
    ensures Weekday(719163) == 3
  {
  }

  // ----- rolling never changes what is deliverable from that day on -----

  lemma {:induction false} RollKeepsInFlight(rows: seq<PendingRow>, s: Symbol, asOf: int, d: int)
    requires asOf <= d
    ensures InFlight(Rolled(rows, asOf), s, d) == InFlight(rows, s, d)
  {
    if rows != [] {
      var n := |rows| - 1;
      RollKeepsInFlight(rows[..n], s, asOf, d);
      var rolled := Rolled(rows, asOf);
      assert rolled[..|rolled| - 1] == Rolled(rows[..n], asOf);
    }
  }

  /** Rolling the table over as of a day changes no deliverable quantity on that day or later,
      whatever the table holds. */
  lemma SettleDueKeepsDeliverable(mode: Mode, rows: seq<PendingRow>, s: Symbol, positionQty: int, asOf: int, d: int)
    requires asOf <= d
    ensures Deliverable(mode, Rolled(rows, asOf), s, positionQty, d) == Deliverable(mode, rows, s, positionQty, d)
  {
    RollKeepsInFlight(rows, s, asOf, d);
  }

  // ----- the reference: an account kept lot by lot -----

  /** What is left of one purchase, and the day it may be delivered from. */
  datatype Lot = Lot(symbol: Symbol, due: int, remaining: nat)

  function Total(lots: seq<Lot>, s: Symbol): nat {
    if lots == [] then 0 else (if lots[0].symbol == s then lots[0].remaining else 0) + Total(lots[1..], s)
  }

  function DueBalance(lots: seq<Lot>, s: Symbol, d: int): nat {
    if lots == [] then 0
    else (if lots[0].symbol == s && lots[0].due <= d then lots[0].remaining else 0) + DueBalance(lots[1..], s, d)
  }

  function Undue(lots: seq<Lot>, s: Symbol, d: int): nat {
    if lots == [] then 0
    else (if lots[0].symbol == s && lots[0].due > d then lots[0].remaining else 0) + Undue(lots[1..], s, d)
  }

  /** Takes `qty` shares of `s` from lots due by `day`, oldest first. */
  function Consume(lots: seq<Lot>, s: Symbol, qty: int, day: int): seq<Lot> {
    if lots == [] || qty <= 0 then lots
    else
      var lot := lots[0];
      if lot.symbol == s && lot.due <= day then
        var take := if qty <= lot.remaining then qty else lot.remaining;
        [lot.(remaining := lot.remaining - take)] + Consume(lots[1..], s, qty - take, day)
      else [lot] + Consume(lots[1..], s, qty, day)
  }

  /** A sale is covered when lots already due hold that many shares. */
  predicate Covered(lots: seq<Lot>, a: Action) {
    match a
    case BuyShares(_, qty, _) => qty > 0
    case SellShares(s, qty, _, day, _) => 0 < qty <= DueBalance(lots, s, day)
    case Roll(_) => true
  }

  function LotAct(lots: seq<Lot>, a: Action): seq<Lot> {
    if !Covered(lots, a) then lots
    else match a
      case BuyShares(s, qty, day) => lots + [Lot(s, NextBusinessDay(day), qty)]
      case SellShares(s, qty, _, day, _) => Consume(lots, s, qty, day)
      case Roll(_) => lots
  }

  lemma {:induction false} BalancesSplit(lots: seq<Lot>, s: Symbol, d: int)
    ensures Total(lots, s) == DueBalance(lots, s, d) + Undue(lots, s, d)
  {
    if lots != [] {
      BalancesSplit(lots[1..], s, d);
    }
  }

  lemma {:induction false} NewLot(lots: seq<Lot>, lot: Lot, s: Symbol, d: int)
    ensures Total(lots + [lot], s) == Total(lots, s) + if lot.symbol == s then lot.remaining else 0
    ensures Undue(lots + [lot], s, d) == Undue(lots, s, d) + if lot.symbol == s && lot.due > d then lot.remaining else 0
  {
    if lots == [] {
      assert [] + [lot] == [lot] && [lot][1..] == [];
    } else {
      assert (lots + [lot])[1..] == lots[1..] + [lot];
      NewLot(lots[1..], lot, s, d);
    }
  }

  /** A sale takes its shares from due lots of its own symbol and nowhere else. */
  lemma {:induction false} ConsumeTakesDueShares(lots: seq<Lot>, s: Symbol, qty: int, day: int, s': Symbol, d: int)
    requires 0 <= qty <= DueBalance(lots, s, day) && day <= d
    ensures Total(Consume(lots, s, qty, day), s') == Total(lots, s') - if s' == s then qty else 0
    ensures Undue(Consume(lots, s, qty, day), s', d) == Undue(lots, s', d)
  {
    if lots != [] && qty > 0 {
      var lot := lots[0];
      var take := if lot.symbol != s || lot.due > day then 0
                  else if qty <= lot.remaining then qty
                  else lot.remaining;
      ConsumeTakesDueShares(lots[1..], s, qty - take, day, s', d);
      assert Consume(lots, s, qty, day)[1..] == Consume(lots[1..], s, qty - take, day);
    }
  }

  // ----- refinement -----

  /** Each position is its lots' shares, and from `now` on the pending table shows as in flight
      exactly the shares of lots not yet due. */
  ghost predicate Refines(b: Demat, lots: seq<Lot>, now: int) {
    && (forall s :: Held(b, s) == Total(lots, s))
    && (forall s, d :: d >= now ==> InFlight(b.pending, s, d) == Undue(lots, s, d))
  }

  lemma InFlightSnoc(rows: seq<PendingRow>, row: PendingRow, s: Symbol, d: int)
    ensures InFlight(rows + [row], s, d) == InFlight(rows, s, d) + if Counts(row, s, d) then row.qty else 0
  {
    assert (rows + [row])[..|rows|] == rows;
  }

  /** Under the refinement, what the broker calls deliverable is the balance of the lots due. */
  lemma DeliverableIsDueBalance(b: Demat, lots: seq<Lot>, now: int, s: Symbol, d: int)
    requires Refines(b, lots, now) && d >= now
    ensures Held(b, s) >= InFlight(b.pending, s, d)
    ensures Deliverable(TPlus1, b.pending, s, Held(b, s), d) == Held(b, s) - InFlight(b.pending, s, d) ==
            DueBalance(lots, s, d)
  {
    BalancesSplit(lots, s, d);
  }

  /** A resting sale may fill only what was deliverable: a caller could check this before the fill. */
  predicate Prudent(b: Demat, a: Action) {
    a.SellShares? && a.resting && 0 < a.qty <= Held(b, a.symbol) ==>
      a.qty <= Deliverable(TPlus1, b.pending, a.symbol, Held(b, a.symbol), a.day)
  }

  /** The broker accepts exactly the sales that due lots cover; for a resting fill, exactly when it
      stays within the deliverable quantity. */
  lemma AcceptedIffCovered(b: Demat, lots: seq<Lot>, now: int, a: Action)
    requires Refines(b, lots, now) && a.day >= now
    ensures (Accepts(TPlus1, b, a) <==> Covered(lots, a)) <==> Prudent(b, a)
  {
    if a.SellShares? {
      DeliverableIsDueBalance(b, lots, now, a.symbol, a.day);
    }
  }

  lemma BuyRefines(b: Demat, lots: seq<Lot>, now: int, a: Action)
    requires Refines(b, lots, now) && a.BuyShares? && a.day >= now && a.qty > 0
    ensures Refines(Act(TPlus1, b, a), LotAct(lots, a), a.day)
  {
    hide NextBusinessDay;
    var b', lots' := Act(TPlus1, b, a), LotAct(lots, a);
    var lot := Lot(a.symbol, NextBusinessDay(a.day), a.qty);
    forall s ensures Held(b', s) == Total(lots', s) {
      NewLot(lots, lot, s, 0);
    }
    forall s, d | d >= a.day ensures InFlight(b'.pending, s, d) == Undue(lots', s, d) {
      NewLot(lots, lot, s, d);
      InFlightSnoc(b.pending, b'.pending[|b.pending|], s, d);
    }
  }

  lemma SellRefines(b: Demat, lots: seq<Lot>, now: int, a: Action)
    requires Refines(b, lots, now) && a.SellShares? && a.day >= now
    requires Accepts(TPlus1, b, a) && Covered(lots, a)
    ensures Refines(Act(TPlus1, b, a), LotAct(lots, a), a.day)
  {
    hide NextBusinessDay;
    var b', lots' := Act(TPlus1, b, a), LotAct(lots, a);
    forall s ensures Held(b', s) == Total(lots', s) {
      ConsumeTakesDueShares(lots, a.symbol, a.qty, a.day, s, a.day);
    }
    forall s, d | d >= a.day ensures InFlight(b'.pending, s, d) == Undue(lots', s, d) {
      ConsumeTakesDueShares(lots, a.symbol, a.qty, a.day, s, d);
      InFlightSnoc(b.pending, b'.pending[|b.pending|], s, d);
    }
  }

  lemma ActRefines(b: Demat, lots: seq<Lot>, now: int, a: Action)
    requires Refines(b, lots, now) && a.day >= now && Prudent(b, a)
    ensures Refines(Act(TPlus1, b, a), LotAct(lots, a), a.day)
    ensures Accepts(TPlus1, b, a) <==> Covered(lots, a)
  {
    AcceptedIffCovered(b, lots, now, a);
    if Accepts(TPlus1, b, a) {
      match a {
        case BuyShares(_, _, _) => BuyRefines(b, lots, now, a);
        case SellShares(_, _, _, _, _) => SellRefines(b, lots, now, a);
        case Roll(day) =>
          forall s, d | d >= day ensures InFlight(Rolled(b.pending, day), s, d) == Undue(lots, s, d) {
            RollKeepsInFlight(b.pending, s, day, d);
          }
      }
    }
  }

  // ----- whole runs -----

  const EMPTY := Demat(map[], [])

  function After(actions: seq<Action>): Demat {
    if actions == [] then EMPTY else Act(TPlus1, After(actions[..|actions| - 1]), actions[|actions| - 1])
  }

  function LotsAfter(actions: seq<Action>): seq<Lot> {
    if actions == [] then [] else LotAct(LotsAfter(actions[..|actions| - 1]), actions[|actions| - 1])
  }

  /** A clock that never goes back, no date before `start`. */
  ghost predicate Monotone(actions: seq<Action>, start: int) {
    && (forall k :: 0 <= k < |actions| ==> start <= actions[k].day)
    && (forall j, k :: 0 <= j < k < |actions| ==> actions[j].day <= actions[k].day)
  }

  ghost predicate PrudentRun(actions: seq<Action>) {
    forall k :: 0 <= k < |actions| ==> Prudent(After(actions[..k]), actions[k])
  }

  function LastDay(actions: seq<Action>, start: int): int {
    if actions == [] then start else actions[|actions| - 1].day
  }

  lemma {:induction false} RunRefines(actions: seq<Action>, start: int)
    requires Monotone(actions, start) && PrudentRun(actions)
    ensures Refines(After(actions), LotsAfter(actions), LastDay(actions, start))
    decreases |actions|
  {
    if actions != [] {
      var n := |actions| - 1;
      var init := actions[..n];
      forall k | 0 <= k < n ensures Prudent(After(init[..k]), init[k]) {
        assert init[..k] == actions[..k];
      }
      RunRefines(init, start);
      ActRefines(After(init), LotsAfter(init), LastDay(init, start), actions[n]);
    }
  }

  /** T+1, over every run of delivery buys, market sales, rolls, and resting sales that stayed within
      the deliverable quantity: on the last day and after, position less in-flight shares is the
      balance of the lots due, hence never negative; and every sale the broker took, at any point
      of the run, was covered by lots already due on its day. */
  lemma {:induction false} SalesCoveredBySettledLots(actions: seq<Action>, start: int, s: Symbol, d: int, k: nat)
    requires Monotone(actions, start) && PrudentRun(actions) && d >= LastDay(actions, start)
    ensures Held(After(actions), s) - InFlight(After(actions).pending, s, d) ==
            DueBalance(LotsAfter(actions), s, d) >= 0
    ensures k < |actions| ==>
            (Accepts(TPlus1, After(actions[..k]), actions[k]) <==> Covered(LotsAfter(actions[..k]), actions[k]))
  {
    RunRefines(actions, start);
    DeliverableIsDueBalance(After(actions), LotsAfter(actions), LastDay(actions, start), s, d);
    if k < |actions| {
      var init := actions[..k];
      forall j | 0 <= j < k ensures Prudent(After(init[..j]), init[j]) {
        assert init[..j] == actions[..j];
      }
      RunRefines(init, start);
      ActRefines(After(init), LotsAfter(init), LastDay(init, start), actions[k]);
    }
  }

  /** Market orders alone need no such care. */
  lemma MarketRunsArePrudent(actions: seq<Action>)
    requires forall k :: 0 <= k < |actions| && actions[k].SellShares? ==> !actions[k].resting
    ensures PrudentRun(actions)
  {
  }

  lemma RunSnoc(actions: seq<Action>, a: Action)
    ensures After(actions + [a]) == Act(TPlus1, After(actions), a)
    ensures LotsAfter(actions + [a]) == LotAct(LotsAfter(actions), a)
  {
    assert (actions + [a])[..|actions|] == actions;
  }

  lemma TwoLots(first: Lot, second: Lot, s: Symbol, d: int)
    ensures DueBalance([first, second], s, d) ==
            (if first.symbol == s && first.due <= d then first.remaining else 0) +
            (if second.symbol == s && second.due <= d then second.remaining else 0)
  {
    assert [first, second][1..] == [second] && [second][1..] == [];
    assert DueBalance([second], s, d) == if second.symbol == s && second.due <= d then second.remaining else 0;
  }

  lemma ConsumeFirstLot(first: Lot, second: Lot)
    ensures Consume([first, second], first.symbol, first.remaining, first.due) == [first.(remaining := 0), second]
  {
    assert [first, second][1..] == [second];
    assert Consume([second], first.symbol, 0, first.due) == [second];
  }

  /** The two buys of the example below: the shares of the first are due on the day of the second. */
  lemma TwoBuys(a: Action, b: Action)
    requires a == BuyShares("X", 10, 1) && b == BuyShares("X", 10, 2)
    ensures LotsAfter([a] + [b]) == [Lot("X", 2, 10), Lot("X", 3, 10)]
    ensures PrudentRun([a] + [b]) && Refines(After([a] + [b]), LotsAfter([a] + [b]), 2)
    ensures Held(After([a] + [b]), "X") == 20
  {
    hide After, LotsAfter, InFlight, Refines;
    NoActions();
    RunSnoc([], a);
    assert [] + [a] == [a] && [] + [Lot("X", 2, 10)] == [Lot("X", 2, 10)];
    RunSnoc([a], b);
    MarketRunsArePrudent([a] + [b]);
    RunRefines([a] + [b], 1);
  }

  /** What the check at submission alone lets through. Ten shares bought on Monday are sold twice on
      Tuesday: once by a resting order, deliverable when it was submitted, and once at market before it
      fills; the resting order then fills against ten shares bought that same day. */
  lemma RestingSaleCanOutrunSettlement()
    ensures var actions := [BuyShares("X", 10, 1)] + [BuyShares("X", 10, 2)] + [SellShares("X", 10, 0.0, 2, false)];
            var fill := SellShares("X", 10, 0.0, 2, true);
            var atSubmission := After([BuyShares("X", 10, 1)] + [BuyShares("X", 10, 2)]);
            && Monotone(actions + [fill], 1) && PrudentRun(actions)
            && 10 <= Deliverable(TPlus1, atSubmission.pending, "X", Held(atSubmission, "X"), 2)
            && Accepts(TPlus1, After(actions), fill) && !Covered(LotsAfter(actions), fill)
  {
    hide After, LotsAfter, DueBalance, Consume, InFlight, Refines, Deliverable, PrudentRun, Monotone;
    var a, b, c := BuyShares("X", 10, 1), BuyShares("X", 10, 2), SellShares("X", 10, 0.0, 2, false);
    var first, second := Lot("X", 2, 10), Lot("X", 3, 10);
    TwoBuys(a, b);
    TwoLots(first, second, "X", 2);
    RunSnoc([a] + [b], c);
    ActRefines(After([a] + [b]), LotsAfter([a] + [b]), 2, c);
    ConsumeFirstLot(first, second);
    TwoLots(first.(remaining := 0), second, "X", 2);
    MarketRunsArePrudent([a] + [b] + [c]);
    MondayThenTuesday(a, [b, c, SellShares("X", 10, 0.0, 2, true)]);
    assert [a] + [b, c, SellShares("X", 10, 0.0, 2, true)] == [a] + [b] + [c] + [SellShares("X", 10, 0.0, 2, true)];
    assert Held(After([a] + [b] + [c]), "X") == 10;
  }

  lemma MondayThenTuesday(first: Action, rest: seq<Action>)
    requires first.day == 1 && forall k :: 0 <= k < |rest| ==> rest[k].day == 2
    ensures Monotone([first] + rest, 1)
  {
  }

  lemma NoActions()
    ensures After([]) == EMPTY && LotsAfter([]) == []
  {
  }
}
