/** The opening auction applied to the account: each symbol's book collected, matched and filled. */
module OpeningAuction {
  import opened Domain
  import opened Wrappers
  import opened Slippage
  import Auction
  import opened Store
  import opened Runs
  import opened Brackets
  import opened Account
  import opened Watcher

  // ----- collecting the books -----

  /** Pending limit orders that are no bracket's child and last at least the day. */
  predicate InBook(o: Order) {
    && o.status == Pending && o.orderType == Limit && o.parent.None? && (o.tif == Day || o.tif == Gtt)
    && o.limitPrice.Some?
  }

  predicate InAuction(o: Order, symbol: Symbol, side: Side) {
    InBook(o) && o.symbol == symbol && o.side == side
  }

  function BookRowOf(row: Row): Auction.BookRow {
    Auction.BookRow(row.order.limitPrice.GetOr(0.0), Remaining(row.order), row.id, row.order.createdAt)
  }

  /** The book rows are the orders in the auction of that symbol on that side, each once, all of them. */
  ghost predicate Collected(book: seq<Auction.BookRow>, orders: map<Id, Order>, symbol: Symbol, side: Side) {
    && (forall k :: 0 <= k < |book| ==>
          && book[k].orderId in orders && InAuction(orders[book[k].orderId], symbol, side)
          && book[k] == BookRowOf(Row(book[k].orderId, orders[book[k].orderId])))
    && (forall i :: i in orders && InAuction(orders[i], symbol, side) ==>
        exists k :: 0 <= k < |book| && book[k].orderId == i)
    && (forall j, k :: 0 <= j < k < |book| ==> book[j].orderId != book[k].orderId)
  }

  /** The listed rows of the symbol are as the table has them, and none of its auction orders is missing. */
  ghost predicate ListsSymbol(rows: seq<Row>, orders: map<Id, Order>, symbol: Symbol) {
    && (forall k :: 0 <= k < |rows| && rows[k].order.symbol == symbol ==>
          rows[k].id in orders && orders[rows[k].id] == rows[k].order)
    && (forall j, k :: 0 <= j < k < |rows| ==> rows[j].id != rows[k].id)
    && (forall i :: i in orders && InBook(orders[i]) && orders[i].symbol == symbol ==> Row(i, orders[i]) in rows)
  }

  method CollectBook(b: Broker, pending: seq<Row>, symbol: Symbol, side: Side) returns (book: seq<Auction.BookRow>)
    requires ListsSymbol(pending, b.orders, symbol)
    ensures Collected(book, b.orders, symbol, side)
  {
    hide InBook;
    book := [];
    for j := 0 to |pending|
      invariant forall k :: 0 <= k < |book| ==>
                  && book[k].orderId in b.orders && InAuction(b.orders[book[k].orderId], symbol, side)
                  && book[k] == BookRowOf(Row(book[k].orderId, b.orders[book[k].orderId]))
      invariant forall l :: 0 <= l < j && InAuction(pending[l].order, symbol, side) ==>
                  exists k :: 0 <= k < |book| && book[k].orderId == pending[l].id
      invariant forall k, l :: 0 <= k < |book| && j <= l < |pending| ==> book[k].orderId != pending[l].id
      invariant forall k, l :: 0 <= k < l < |book| ==> book[k].orderId != book[l].orderId
    {
      if InAuction(pending[j].order, symbol, side) {
        ghost var before := book;
        book := book + [BookRowOf(pending[j])];
        assert book[|before|].orderId == pending[j].id;
        assert forall k :: 0 <= k < |before| ==> book[k] == before[k];
      }
    }
    forall i | i in b.orders && InAuction(b.orders[i], symbol, side)
      ensures exists k :: 0 <= k < |book| && book[k].orderId == i
    {
      assert Row(i, b.orders[i]) in pending;
      var l :| 0 <= l < |pending| && pending[l] == Row(i, b.orders[i]);
    }
  }

  // ----- the fills can be applied -----

  /** An auction fill still to be applied: a parentless limit order whose limit admits the price. */
  ghost predicate Fillable(f: Auction.Fill, orders: map<Id, Order>, symbol: Symbol) {
    && f.orderId in orders
    && var o := orders[f.orderId];
       && o.symbol == symbol && o.orderType == Limit && o.parent.None?
       && o.limitPrice.Some? && NoWorse(o.side, f.price, o.limitPrice.value)
  }

  lemma FillableKept(f: Auction.Fill, rows: map<Id, Order>, rows': map<Id, Order>, symbol: Symbol)
    requires Fillable(f, rows, symbol) && Evolves(rows, rows')
    ensures Fillable(f, rows', symbol)
  {
    assert Earlier(rows[f.orderId], rows'[f.orderId]);
  }

  lemma BookNonNegative(book: seq<Auction.BookRow>, orders: map<Id, Order>, symbol: Symbol, side: Side)
    requires RowsOk(orders) && Collected(book, orders, symbol, side)
    ensures Auction.NonNegative(book)
  {
    forall k | 0 <= k < |book| ensures book[k].qty >= 0.0 {
      assert RowOk(orders[book[k].orderId]);
    }
  }

  lemma SideFillable(book: seq<Auction.BookRow>, orders: map<Id, Order>, symbol: Symbol, side: Side, volume: real,
                     p: real)
    requires RowsOk(orders) && Collected(book, orders, symbol, side)
    requires 0.0 <= volume <= Auction.Volume(side, book, p)
    ensures forall f :: f in Auction.SideFills(side, book, volume, p) ==> Fillable(f, orders, symbol) && f.qty >= 0.0
  {
    BookNonNegative(book, orders, symbol, side);
    Auction.SideFillsExact(side, book, volume, p);
    var queue := Auction.SortBySeq(Auction.Eligible(side, book, p));
    var fills := Auction.SideFills(side, book, volume, p);
    forall f | f in fills ensures Fillable(f, orders, symbol) && f.qty >= 0.0 {
      var i :| 0 <= i < |fills| && fills[i] == f;
      assert queue[i] in queue;
      var k :| 0 <= k < |book| && book[k] == queue[i];
    }
  }

  lemma MatchFillable(buys: seq<Auction.BookRow>, sells: seq<Auction.BookRow>, reference: Option<real>,
                      m: Auction.AuctionMatch, orders: map<Id, Order>, symbol: Symbol)
    requires RowsOk(orders) && Collected(buys, orders, symbol, Buy) && Collected(sells, orders, symbol, Sell)
    requires Auction.IsEquilibrium(buys, sells, reference, m)
    ensures forall k :: 0 <= k < |m.fills| ==> Fillable(m.fills[k], orders, symbol) && m.fills[k].qty >= 0.0
  {
    if m.equilibriumPrice.Some? {
      var p := m.equilibriumPrice.value;
      SideFillable(buys, orders, symbol, Buy, m.matchedVolume, p);
      SideFillable(sells, orders, symbol, Sell, m.matchedVolume, p);
    }
  }

  // ----- applying them -----

  /** What one auction fill amounts to on a table: a limit slice of its order as read there, or nothing
      when slippage refuses the price. */
  function FillSteps(b: Broker, orders: map<Id, Order>, f: Auction.Fill): seq<Step> {
    if f.orderId in orders then LimitSteps(b, Row(f.orderId, orders[f.orderId]), f.price, Some(f.qty)) else []
  }

  /** Rolled back for another reason than that the order is no longer open. */
  ghost predicate Fails(db: Db, step: Step)
    requires Sound(db) && StepOk(step)
  {
    ErrorOf(db, step).Some? && ErrorOf(db, step) != Some(OrderNoLongerPending)
  }

  /** The fills whose transaction committed. */
  ghost function Landed(db: Db, fills: seq<Auction.Fill>, steps: seq<Step>): seq<Auction.Fill>
    requires Sound(db) && StepsOk(steps) && |steps| <= |fills|
  {
    if steps == [] then []
    else
      var last := |steps| - 1;
      Landed(db, fills, steps[..last]) + if ErrorOf(Run(db, steps[..last]), steps[last]).None? then [fills[last]]
                                         else []
  }

  ghost predicate FailsLast(db: Db, steps: seq<Step>)
    requires Sound(db) && StepsOk(steps)
  {
    steps != [] && Fails(Run(db, steps[..|steps| - 1]), steps[|steps| - 1])
  }

  /** The fills were taken in turn, each as one transaction on its order as it then stood. One whose
      order had closed was skipped. The run was cut short by the first that failed otherwise, or whose
      price slippage refused, and by nothing else; no later fill was tried. */
  ghost predicate TakenInTurn(b: Broker, before: Db, fills: seq<Auction.Fill>, steps: seq<Step>, aborted: bool) {
    && Sound(before) && StepsOk(steps) && |steps| <= |fills|
    && (forall j :: 0 <= j < |steps| ==> FillSteps(b, Run(before, steps[..j]).orders, fills[j]) == [steps[j]])
    && (forall j :: 0 <= j < |steps| ==> !FailsLast(before, steps[..j]))
    && (aborted <==> FailsLast(before, steps)
                     || (|steps| < |fills| && FillSteps(b, Run(before, steps).orders, fills[|steps|]) == []))
    && (!aborted ==> |steps| == |fills|)
  }

  lemma TakenAtMostOnce(b: Broker, before: Db, fills: seq<Auction.Fill>, steps: seq<Step>, aborted: bool)
    requires TakenInTurn(b, before, fills, steps, aborted)
    ensures Sound(before) && StepsOk(steps) && |steps| <= |fills|
  {
  }

  lemma NothingTaken(b: Broker, before: Db, fills: seq<Auction.Fill>)
    requires Sound(before)
    ensures StepsOk([]) && Run(before, []) == before && Landed(before, fills, []) == [] && !FailsLast(before, [])
  {
  }

  lemma LandedSnoc(db: Db, fills: seq<Auction.Fill>, steps: seq<Step>, step: Step)
    requires Sound(db) && StepsOk(steps) && StepOk(step) && |steps| < |fills|
    ensures StepsOk(steps + [step])
    ensures Landed(db, fills, steps + [step]) ==
            Landed(db, fills, steps) + if ErrorOf(Run(db, steps), step).None? then [fills[|steps|]] else []
    ensures FailsLast(db, steps + [step]) <==> Fails(Run(db, steps), step)
  {
    assert (steps + [step])[..|steps|] == steps;
  }

  /** The rows of other symbols are untouched. */
  ghost predicate OnlySymbols(rows: map<Id, Order>, rows': map<Id, Order>, symbols: set<Symbol>) {
    && rows.Keys == rows'.Keys
    && forall i :: i in rows ==>
       rows'[i].symbol == rows[i].symbol && (rows[i].symbol !in symbols ==> rows'[i] == rows[i])
  }

  lemma NothingTouched(rows: map<Id, Order>, symbols: set<Symbol>)
    ensures OnlySymbols(rows, rows, symbols)
  {
  }

  lemma FillTouchesItsSymbol(rows: map<Id, Order>, rows': map<Id, Order>, rows'': map<Id, Order>, id: Id,
                             symbols: set<Symbol>)
    requires OnlySymbols(rows, rows', symbols) && OnlyRow(rows', rows'', id) && Evolves(rows', rows'')
    requires id in rows' && rows'[id].symbol in symbols
    ensures OnlySymbols(rows, rows'', symbols)
  {
    assert Earlier(rows'[id], rows''[id]);
  }

  /** Applies fills in turn. Each order is read afresh before its fill; an order that is no longer
      open is skipped, any other error ends the run with the earlier fills kept. */
  method ApplyFills(b: Broker, fills: seq<Auction.Fill>, ghost symbol: Symbol)
    returns (applied: seq<Auction.Fill>, aborted: bool, ghost steps: seq<Step>)
    requires Sound(b.Tables()) && Inv(b.orders)
    requires forall j :: 0 <= j < |fills| ==> Fillable(fills[j], b.orders, symbol)
    modifies b
    ensures Trail(old(b.Tables()), steps, b.Tables())
    ensures TakenInTurn(b, old(b.Tables()), fills, steps, aborted)
    ensures applied == Landed(old(b.Tables()), fills, steps)
    ensures OnlySymbols(old(b.orders), b.orders, {symbol})
  {
    hide Trail, Inv, RolledBack, Run, LimitSteps, FailsLast, Landed, Evolves, OnlyRow, OnlySymbols, ErrorOf;
    ghost var before := b.Tables();
    EmptyTrail(before);
    NothingTaken(b, before, fills);
    NothingTouched(before.orders, {symbol});
    applied, aborted, steps := [], false, [];
    var k := 0;
    while k < |fills| && !aborted
      invariant 0 <= k <= |fills| && |steps| <= k
      invariant Trail(before, steps, b.Tables()) && Sound(before) && StepsOk(steps)
      invariant Sound(b.Tables()) && Inv(b.orders) && b.Tables() == Run(before, steps)
      invariant forall j :: 0 <= j < |fills| ==> Fillable(fills[j], b.orders, symbol)
      invariant forall j :: 0 <= j < |steps| ==> FillSteps(b, Run(before, steps[..j]).orders, fills[j]) == [steps[j]]
      invariant forall j :: 0 <= j < |steps| ==> !FailsLast(before, steps[..j])
      invariant !aborted ==> |steps| == k && !FailsLast(before, steps)
      invariant aborted ==>
                  (FailsLast(before, steps) ||
                   (|steps| < |fills| && FillSteps(b, Run(before, steps).orders, fills[|steps|]) == []))
      invariant applied == Landed(before, fills, steps)
      invariant OnlySymbols(before.orders, b.orders, {symbol})
    {
      var f := fills[k];
      ghost var middle := b.Tables();
      var error; ghost var more;
      error, more := FillAt(b, Row(f.orderId, b.orders[f.orderId]), f.price, Some(f.qty));
      assert more == FillSteps(b, middle.orders, f);
      forall j | 0 <= j < |fills| ensures Fillable(fills[j], b.orders, symbol) {
        FillableKept(fills[j], middle.orders, b.orders, symbol);
      }
      FillTouchesItsSymbol(before.orders, middle.orders, b.orders, f.orderId, {symbol});
      Continue(before, steps, middle, more, b.Tables());
      TrailIsRun(before, steps + more, b.Tables());
      if more == [] {
        assert steps + more == steps;
      } else {
        assert more == [more[0]];
        LandedSnoc(before, fills, steps, more[0]);
        ghost var longer := steps + more;
        assert longer[..k] == steps;
        assert forall j :: 0 <= j < k ==> longer[..j] == steps[..j];
        steps := longer;
        assert error == ErrorOf(middle, more[0]);
      }
      if error.None? {
        applied := applied + [f];
      } else if error != Some(OrderNoLongerPending) {
        aborted := true;
      }
      k := k + 1;
      assert FailsLast(before, steps) <==> more != [] && error.Some? && error != Some(OrderNoLongerPending);
    }
  }

  // ----- one symbol's auction -----

  /** What one auction was given, decided and did. */
  datatype AuctionRun = AuctionRun(symbol: Symbol, before: Db, buys: seq<Auction.BookRow>, sells: seq<Auction.BookRow>,
                                   m: Auction.AuctionMatch, steps: seq<Step>, applied: seq<Auction.Fill>, aborted: bool,
                                   after: Db)

  function ReferenceFor(references: map<Symbol, real>, symbol: Symbol): Option<real> {
    if symbol in references then Some(references[symbol]) else None
  }

  /** The books are the symbol's auction orders as the table stood, the match an equilibrium of them, and
      its fills were taken in turn. */
  ghost predicate IsAuctionRun(b: Broker, references: map<Symbol, real>, r: AuctionRun) {
    && Trail(r.before, r.steps, r.after)
    && Collected(r.buys, r.before.orders, r.symbol, Buy) && Collected(r.sells, r.before.orders, r.symbol, Sell)
    && Auction.IsEquilibrium(r.buys, r.sells, ReferenceFor(references, r.symbol), r.m)
    && TakenInTurn(b, r.before, r.m.fills, r.steps, r.aborted)
    && r.applied == Landed(r.before, r.m.fills, r.steps)
  }

  method RunAuction(b: Broker, pending: seq<Row>, symbol: Symbol, references: map<Symbol, real>)
    returns (applied: seq<Auction.Fill>, aborted: bool, ghost run: AuctionRun)
    requires Sound(b.Tables()) && Inv(b.orders)
    requires ListsSymbol(pending, b.orders, symbol)
    modifies b
    ensures IsAuctionRun(b, references, run)
    ensures run.symbol == symbol && run.before == old(b.Tables()) && run.after == b.Tables()
    ensures run.applied == applied && run.aborted == aborted
    ensures OnlySymbols(old(b.orders), b.orders, {symbol})
  {
    hide Trail, RolledBack, Run, Collected, Auction.IsEquilibrium, TakenInTurn, Landed, OnlySymbols;
    ghost var before := b.Tables();
    var buys := CollectBook(b, pending, symbol, Buy);
    var sells := CollectBook(b, pending, symbol, Sell);
    var m := Auction.ComputeEquilibrium(buys, sells, ReferenceFor(references, symbol));
    MatchFillable(buys, sells, ReferenceFor(references, symbol), m, b.orders, symbol);
    ghost var steps;
    applied, aborted, steps := ApplyFills(b, m.fills, symbol);
    run := AuctionRun(symbol, before, buys, sells, m, steps, applied, aborted, b.Tables());
    TakenAtMostOnce(b, before, m.fills, steps, aborted);
  }

  // ----- the round -----

  ghost function RoundSteps(round: seq<AuctionRun>): seq<Step> {
    if round == [] then [] else RoundSteps(round[..|round| - 1]) + round[|round| - 1].steps
  }

  /** Every fill the round reports. */
  ghost function RoundFills(round: seq<AuctionRun>): seq<Auction.Fill> {
    if round == [] then [] else RoundFills(round[..|round| - 1]) + round[|round| - 1].applied
  }

  ghost function RoundVolume(round: seq<AuctionRun>): real {
    if round == [] then 0.0 else RoundVolume(round[..|round| - 1]) + round[|round| - 1].m.matchedVolume
  }

  /** Each auction starts from the tables the one before it left. */
  ghost predicate Linked(before: Db, round: seq<AuctionRun>, after: Db) {
    && (if round == [] then after == before else round[0].before == before && round[|round| - 1].after == after)
    && forall k :: 0 < k < |round| ==> round[k].before == round[k - 1].after
  }

  /** Some order is in the symbol's auction. */
  ghost predicate HasBook(orders: map<Id, Order>, symbol: Symbol) {
    exists i :: i in orders && InBook(orders[i]) && orders[i].symbol == symbol
  }

  /** Each auction order of `t` was submitted no earlier than some auction order of `s`. */
  ghost predicate Precedes(orders: map<Id, Order>, s: Symbol, t: Symbol) {
    forall j :: j in orders && InBook(orders[j]) && orders[j].symbol == t ==>
      exists i :: i in orders && InBook(orders[i]) && orders[i].symbol == s
        && orders[i].createdAt <= orders[j].createdAt
  }

  ghost predicate InSubmissionOrder(orders: map<Id, Order>, round: seq<AuctionRun>) {
    forall j, k :: 0 <= j < k < |round| ==> Precedes(orders, round[j].symbol, round[k].symbol)
  }

  /** A round: one auction for each symbol with an order for it, none for any other and none twice, one
      after the other as their oldest orders were submitted. An aborted auction ends it, and nothing
      else cuts it short. */
  ghost predicate IsRound(b: Broker, references: map<Symbol, real>, before: Db, round: seq<AuctionRun>, after: Db,
                          aborted: bool)
  {
    && Linked(before, round, after)
    && (forall k :: 0 <= k < |round| ==> IsAuctionRun(b, references, round[k]))
    && (forall k :: 0 <= k < |round| ==> HasBook(before.orders, round[k].symbol))
    && (forall j, k :: 0 <= j < k < |round| ==> round[j].symbol != round[k].symbol)
    && InSubmissionOrder(before.orders, round)
    && (forall k :: 0 <= k < |round| - 1 ==> !round[k].aborted)
    && (aborted <==> round != [] && round[|round| - 1].aborted)
    && (!aborted ==> forall s :: HasBook(before.orders, s) ==> exists k :: 0 <= k < |round| && round[k].symbol == s)
  }

  lemma RoundSnoc(round: seq<AuctionRun>, run: AuctionRun)
    ensures RoundSteps(round + [run]) == RoundSteps(round) + run.steps
    ensures RoundFills(round + [run]) == RoundFills(round) + run.applied
    ensures RoundVolume(round + [run]) == RoundVolume(round) + run.m.matchedVolume
  {
    assert (round + [run])[..|round|] == round;
  }

  lemma LinkedSnoc(before: Db, round: seq<AuctionRun>, run: AuctionRun)
    requires Linked(before, round, run.before)
    ensures Linked(before, round + [run], run.after)
  {
  }

  /** A symbol whose auction is still to come is listed as it stands. */
  lemma StillListed(pending: seq<Row>, rows: map<Id, Order>, rows': map<Id, Order>, symbols: set<Symbol>,
                    symbol: Symbol)
    requires ListsPending(pending, rows) && OnlySymbols(rows, rows', symbols) && symbol !in symbols
    ensures ListsSymbol(pending, rows', symbol)
  {
    forall i | i in rows' && InBook(rows'[i]) && rows'[i].symbol == symbol ensures Row(i, rows'[i]) in pending {
      assert i in rows && rows'[i] == rows[i];
      var k :| 0 <= k < |pending| && pending[k].id == i;
      assert pending[k] == Row(i, rows'[i]);
    }
  }

  lemma TouchedTogether(rows: map<Id, Order>, rows': map<Id, Order>, rows'': map<Id, Order>, symbols: set<Symbol>,
                        symbol: Symbol)
    requires OnlySymbols(rows, rows', symbols) && OnlySymbols(rows', rows'', {symbol})
    ensures OnlySymbols(rows, rows'', symbols + {symbol})
  {
  }

  ghost predicate RanFor(round: seq<AuctionRun>, symbols: set<Symbol>) {
    && (forall k :: 0 <= k < |round| ==> round[k].symbol in symbols)
    && (forall s :: s in symbols ==> exists k :: 0 <= k < |round| && round[k].symbol == s)
    && (forall j, k :: 0 <= j < k < |round| ==> round[j].symbol != round[k].symbol)
  }

  lemma RanForSnoc(round: seq<AuctionRun>, symbols: set<Symbol>, run: AuctionRun)
    requires RanFor(round, symbols) && run.symbol !in symbols
    ensures RanFor(round + [run], symbols + {run.symbol})
  {
    var longer := round + [run];
    forall s | s in symbols + {run.symbol} ensures exists k :: 0 <= k < |longer| && longer[k].symbol == s {
      if s == run.symbol {
        assert longer[|round|].symbol == s;
      } else {
        var k :| 0 <= k < |round| && round[k].symbol == s;
        assert longer[k].symbol == s;
      }
    }
  }

  /** A round so far, with the symbols it has been through. */
  ghost predicate PartRound(b: Broker, references: map<Symbol, real>, before: Db, round: seq<AuctionRun>, after: Db,
                            aborted: bool, symbols: set<Symbol>)
  {
    && Linked(before, round, after)
    && (forall k :: 0 <= k < |round| ==> IsAuctionRun(b, references, round[k]))
    && RanFor(round, symbols) && (forall s :: s in symbols ==> HasBook(before.orders, s))
    && OnlySymbols(before.orders, after.orders, symbols)
    && InSubmissionOrder(before.orders, round)
    && (forall k :: 0 <= k < |round| - 1 ==> !round[k].aborted)
    && (aborted <==> round != [] && round[|round| - 1].aborted)
  }

  lemma EmptyRound(b: Broker, references: map<Symbol, real>, before: Db)
    ensures PartRound(b, references, before, [], before, false, {})
    ensures RoundSteps([]) == [] && Auction.SumFills(RoundFills([])) == 0.0
  {
  }

  lemma PartRoundSnoc(b: Broker, references: map<Symbol, real>, before: Db, round: seq<AuctionRun>,
                      symbols: set<Symbol>, run: AuctionRun)
    requires PartRound(b, references, before, round, run.before, false, symbols)
    requires IsAuctionRun(b, references, run) && run.symbol !in symbols && HasBook(before.orders, run.symbol)
    requires OnlySymbols(run.before.orders, run.after.orders, {run.symbol})
    requires forall s :: s in symbols ==> Precedes(before.orders, s, run.symbol)
    ensures PartRound(b, references, before, round + [run], run.after, run.aborted, symbols + {run.symbol})
    ensures Trail(run.before, run.steps, run.after)
  {
    hide OnlySymbols, HasBook, Linked, Trail, Collected, Auction.IsEquilibrium, TakenInTurn, Landed, Precedes;
    LinkedSnoc(before, round, run);
    RanForSnoc(round, symbols, run);
    TouchedTogether(before.orders, run.before.orders, run.after.orders, symbols, run.symbol);
  }

  /** A symbol first met at `k` comes after those met before, when the oldest orders are listed first. */
  lemma MetLater(pending: seq<Row>, k: nat, orders: map<Id, Order>, symbols: set<Symbol>)
    requires ListsPending(pending, orders) && OldestFirst(pending) && k < |pending|
    requires forall j :: 0 <= j < k && InBook(pending[j].order) ==> pending[j].order.symbol in symbols
    requires forall s :: s in symbols ==> MetBefore(pending, k, s)
    requires pending[k].order.symbol !in symbols
    ensures forall s :: s in symbols ==> Precedes(orders, s, pending[k].order.symbol)
  {
    forall s, j | s in symbols && j in orders && InBook(orders[j]) && orders[j].symbol == pending[k].order.symbol
      ensures exists i :: i in orders && InBook(orders[i]) && orders[i].symbol == s
                          && orders[i].createdAt <= orders[j].createdAt
    {
      var l :| 0 <= l < |pending| && pending[l].id == j;
      var m :| 0 <= m < k && InBook(pending[m].order) && pending[m].order.symbol == s;
      assert m < l && orders[pending[m].id] == pending[m].order;
    }
  }

  ghost predicate MetBefore(pending: seq<Row>, k: nat, symbol: Symbol)
    requires k <= |pending|
  {
    exists j :: 0 <= j < k && InBook(pending[j].order) && pending[j].order.symbol == symbol
  }

  lemma ListedBook(pending: seq<Row>, k: nat, orders: map<Id, Order>)
    requires ListsPending(pending, orders) && k < |pending| && InBook(pending[k].order)
    ensures HasBook(orders, pending[k].order.symbol)
  {
    assert orders[pending[k].id] == pending[k].order;
  }

  lemma WholeRound(b: Broker, references: map<Symbol, real>, before: Db, round: seq<AuctionRun>, after: Db,
                   aborted: bool, symbols: set<Symbol>, pending: seq<Row>)
    requires PartRound(b, references, before, round, after, aborted, symbols)
    requires ListsPending(pending, before.orders)
    requires !aborted ==> forall j :: 0 <= j < |pending| && InBook(pending[j].order) ==>
             pending[j].order.symbol in symbols
    ensures IsRound(b, references, before, round, after, aborted)
  {
    hide IsAuctionRun, OnlySymbols, Linked, InBook;
    if !aborted {
      forall s | HasBook(before.orders, s) ensures s in symbols {
        var i :| i in before.orders && InBook(before.orders[i]) && before.orders[i].symbol == s;
        assert before.orders[i].status == Pending by {
          BookIsPending(before.orders[i]);
        }
        var k :| 0 <= k < |pending| && pending[k].id == i;
      }
    }
  }

  lemma BookIsPending(o: Order)
    requires InBook(o)
    ensures o.status == Pending
  {
  }

  /** Every symbol with an auction order has its auction, in turn; an aborted one ends the round. What is
      reported as matched is what the applied fills of both sides add up to. */
  method RunAllAuctions(b: Broker, references: map<Symbol, real>)
    returns (matched: real, aborted: bool, ghost round: seq<AuctionRun>)
    requires Sound(b.Tables()) && Inv(b.orders)
    modifies b
    ensures Trail(old(b.Tables()), RoundSteps(round), b.Tables())
    ensures IsRound(b, references, old(b.Tables()), round, b.Tables(), aborted)
    ensures matched == Auction.SumFills(RoundFills(round))
  {
    hide Trail, Inv, Sound, RolledBack, Run, ListsPending, ListsSymbol, InBook, IsAuctionRun, IsRound, PartRound,
      OnlySymbols, OldestFirst, Precedes;
    hide Auction.SumFills, RoundSteps, RoundFills, HasBook;
    ghost var before := b.Tables();
    EmptyTrail(before);
    NothingTouched(before.orders, {});
    EmptyRound(b, references, before);
    matched, aborted, round := 0.0, false, [];
    var pending := AllPending(b);
    var done: set<Symbol> := {};
    var k := 0;
    while k < |pending| && !aborted
      invariant 0 <= k <= |pending|
      invariant Trail(before, RoundSteps(round), b.Tables()) && Sound(b.Tables()) && Inv(b.orders)
      invariant PartRound(b, references, before, round, b.Tables(), aborted, done)
      invariant OnlySymbols(before.orders, b.orders, done)
      invariant forall s :: s in done ==> MetBefore(pending, k, s)
      invariant forall j :: 0 <= j < k && InBook(pending[j].order) ==> pending[j].order.symbol in done
      invariant matched == Auction.SumFills(RoundFills(round))
    {
      var symbol := pending[k].order.symbol;
      if InBook(pending[k].order) && symbol !in done {
        ghost var middle := b.Tables();
        ListedBook(pending, k, before.orders);
        MetLater(pending, k, before.orders, done);
        StillListed(pending, before.orders, b.orders, done, symbol);
        var applied; ghost var run;
        applied, aborted, run := RunAuction(b, pending, symbol, references);
        PartRoundSnoc(b, references, before, round, done, run);
        RoundSnoc(round, run);
        Auction.SumFillsJoins(RoundFills(round), applied);
        Continue(before, RoundSteps(round), middle, run.steps, b.Tables());
        TouchedTogether(before.orders, middle.orders, b.orders, done, symbol);
        matched := matched + Auction.SumFills(applied);
        round := round + [run];
        done := done + {symbol};
      }
      k := k + 1;
    }
    WholeRound(b, references, before, round, b.Tables(), aborted, done, pending);
  }

  // ----- what the round reports as matched -----

  lemma {:induction false} FillsNonNegative(fills: seq<Auction.Fill>)
    requires forall f :: f in fills ==> f.qty >= 0.0
    ensures Auction.SumFills(fills) >= 0.0
  {
    if fills != [] {
      FillsNonNegative(fills[1..]);
    }
  }

  lemma SumFillsNone()
    ensures Auction.SumFills([]) == 0.0
  {
  }

  lemma SumFillsOne(f: Auction.Fill)
    ensures Auction.SumFills([f]) == f.qty && Auction.SumFills([]) == 0.0
  {
    assert Auction.SumFills([f]) == f.qty + Auction.SumFills([]);
  }

  lemma {:induction false} LandedWithin(db: Db, fills: seq<Auction.Fill>, steps: seq<Step>)
    requires Sound(db) && StepsOk(steps) && |steps| <= |fills| && forall f :: f in fills ==> f.qty >= 0.0
    ensures Auction.SumFills(Landed(db, fills, steps)) <= Auction.SumFills(fills[..|steps|])
    ensures RolledBack(db, steps) == 0 ==> Landed(db, fills, steps) == fills[..|steps|]
  {
    if steps != [] {
      var last := |steps| - 1;
      LandedWithin(db, fills, steps[..last]);
      assert fills[..|steps|] == fills[..last] + [fills[last]];
      Auction.SumFillsJoins(fills[..last], [fills[last]]);
      Auction.SumFillsJoins(Landed(db, fills, steps[..last]), [fills[last]]);
      SumFillsOne(fills[last]);
      assert fills[last] in fills;
      var landed := Landed(db, fills, steps[..last]);
      assert Landed(db, fills, steps) ==
             if ErrorOf(Run(db, steps[..last]), steps[last]).None? then landed + [fills[last]] else landed;
    }
  }

  /** Every fill of the auction was tried and none was rolled back. */
  ghost predicate AllLanded(r: AuctionRun)
    requires Sound(r.before) && StepsOk(r.steps)
  {
    !r.aborted && RolledBack(r.before, r.steps) == 0
  }

  lemma {:induction false} PartOfTheFills(fills: seq<Auction.Fill>, n: nat)
    requires n <= |fills| && forall f :: f in fills ==> f.qty >= 0.0
    ensures Auction.SumFills(fills[..n]) <= Auction.SumFills(fills)
  {
    assert fills == fills[..n] + fills[n..];
    Auction.SumFillsJoins(fills[..n], fills[n..]);
    FillsNonNegative(fills[n..]);
  }

  lemma MatchedFills(b: Broker, references: map<Symbol, real>, r: AuctionRun)
    requires IsAuctionRun(b, references, r)
    ensures Auction.SumFills(r.m.fills) == 2.0 * r.m.matchedVolume
    ensures forall f :: f in r.m.fills ==> f.qty >= 0.0
    ensures Sound(r.before) && StepsOk(r.steps) && |r.steps| <= |r.m.fills|
    ensures !r.aborted ==> |r.steps| == |r.m.fills|
    ensures r.applied == Landed(r.before, r.m.fills, r.steps)
  {
    hide Collected, Auction.IsEquilibrium, Fillable, Landed, RowsOk, Auction.NonNegative;
    var reference := ReferenceFor(references, r.symbol);
    assert RowsOk(r.before.orders) by {
      TrailRows(r.before, r.steps, r.after);
    }
    MatchFillable(r.buys, r.sells, reference, r.m, r.before.orders, r.symbol);
    BookNonNegative(r.buys, r.before.orders, r.symbol, Buy);
    BookNonNegative(r.sells, r.before.orders, r.symbol, Sell);
    Auction.BothSidesCounted(r.buys, r.sells, reference, r.m);
  }

  lemma TrailRows(before: Db, steps: seq<Step>, after: Db)
    requires Trail(before, steps, after)
    ensures RowsOk(before.orders)
  {
  }

  lemma AppliedWithin(b: Broker, references: map<Symbol, real>, r: AuctionRun)
    requires IsAuctionRun(b, references, r)
    ensures Sound(r.before) && StepsOk(r.steps)
    ensures Auction.SumFills(r.applied) <= 2.0 * r.m.matchedVolume
    ensures AllLanded(r) ==> Auction.SumFills(r.applied) == 2.0 * r.m.matchedVolume
  {
    hide IsAuctionRun, Landed, RolledBack, Auction.SumFills;
    MatchedFills(b, references, r);
    LandedWithin(r.before, r.m.fills, r.steps);
    PartOfTheFills(r.m.fills, |r.steps|);
    assert r.m.fills[..|r.m.fills|] == r.m.fills;
  }

  /** The matched total of a round is at most twice the volume its auctions cleared, since it counts both
      sides of each share, and exactly that when every fill landed. */
  lemma {:induction false} MatchedCountsBothSides(b: Broker, references: map<Symbol, real>, round: seq<AuctionRun>)
    requires forall k :: 0 <= k < |round| ==> IsAuctionRun(b, references, round[k])
    ensures forall k :: 0 <= k < |round| ==> Sound(round[k].before) && StepsOk(round[k].steps)
    ensures Auction.SumFills(RoundFills(round)) <= 2.0 * RoundVolume(round)
    ensures (forall k :: 0 <= k < |round| ==> AllLanded(round[k])) ==>
              Auction.SumFills(RoundFills(round)) == 2.0 * RoundVolume(round)
  {
    hide IsAuctionRun, AllLanded, Auction.SumFills, Sound, StepsOk;
    if round == [] {
      SumFillsNone();
    } else {
      var init, last := round[..|round| - 1], round[|round| - 1];
      MatchedCountsBothSides(b, references, init);
      AppliedWithin(b, references, last);
      Auction.SumFillsJoins(RoundFills(init), last.applied);
    }
  }
}
