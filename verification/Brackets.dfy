/** Bracket orders: over every run, on readings of any age, exactly when the two children close no more
    than the parent opened. */
module Brackets {
  import opened Domain
  import opened Wrappers
  import opened Store
  import opened Books
  import opened Runs

  // ----- which steps the broker and its watcher take -----

  /** Limit slices go to limit orders, whole market fills to queued market orders and touched stops. */
  predicate Typed(step: Step) {
    && (step.LimitFillStep? ==> step.snapshot.orderType == Limit)
    && (step.FillPendingStep? ==> step.snapshot.orderType == Market || step.snapshot.orderType == StopMarket)
    && (step.TriggerStep? ==> step.snapshot.orderType == StopMarket || step.snapshot.orderType == StopLimit)
  }

  /** A bracket child is filled only once its parent is filled. */
  predicate Gated(db: Db, step: Step) {
    IsFill(step) && step.snapshot.parent.Some? ==>
      step.snapshot.parent.value in db.orders && db.orders[step.snapshot.parent.value].status == Filled
  }

  /** Typed, gated, and on an up-to-date snapshot. */
  predicate Driven(db: Db, step: Step) {
    StepOk(step) && Current(db, step) && Typed(step) && Gated(db, step)
  }

  ghost predicate DrivenAlong(db: Db, steps: seq<Step>)
    requires Sound(db) && StepsOk(steps)
  {
    forall k :: 0 <= k < |steps| ==> Driven(Run(db, steps[..k]), steps[k])
  }

  /** The snapshot is what the row was after the first `j` steps. */
  ghost predicate ReadAfter(db: Db, steps: seq<Step>, j: nat, step: Step)
    requires Sound(db) && StepsOk(steps) && j <= |steps| && HasSnapshot(step)
  {
    step.id in Run(db, steps[..j]).orders && step.snapshot == Run(db, steps[..j]).orders[step.id]
  }

  /** Step `k` works from a reading of its row that may have gone stale: it was taken then or earlier. */
  ghost predicate OnceRead(db: Db, steps: seq<Step>, k: nat)
    requires Sound(db) && StepsOk(steps) && k < |steps|
  {
    HasSnapshot(steps[k]) && steps[k].id in Run(db, steps[..k]).orders ==>
      exists j: nat :: j <= k && ReadAfter(db, steps, j, steps[k])
  }

  /** What the broker guarantees with any number of threads: steps are typed and gated, and each works
      from a reading of its row, fresh or stale. */
  ghost predicate StaleAlong(db: Db, steps: seq<Step>)
    requires Sound(db) && StepsOk(steps)
  {
    forall k :: 0 <= k < |steps| ==> OnceRead(db, steps, k) && Typed(steps[k]) && Gated(Run(db, steps[..k]), steps[k])
  }

  lemma DrivenIsStale(db: Db, steps: seq<Step>)
    requires Sound(db) && StepsOk(steps) && DrivenAlong(db, steps)
    ensures StaleAlong(db, steps)
  {
    forall k | 0 <= k < |steps|
      ensures OnceRead(db, steps, k) && Typed(steps[k]) && Gated(Run(db, steps[..k]), steps[k])
    {
      assert Driven(Run(db, steps[..k]), steps[k]);
      assert HasSnapshot(steps[k]) ==> ReadAfter(db, steps, k, steps[k]);
    }
  }

  /** `o` may be an earlier reading of `row`: same order and terms, a stop-limit possibly converted
      since, a bracket's stop possibly cut since. Fill figures and status may be anything. */
  predicate Earlier(o: Order, row: Order) {
    && o.symbol == row.symbol && o.side == row.side && o.parent == row.parent
    && o.limitPrice == row.limitPrice && o.stopPrice == row.stopPrice
    && o.tif == row.tif && o.product == row.product && o.createdAt == row.createdAt
    && (o.orderType == row.orderType || (o.orderType == StopLimit && row.orderType == Limit))
    && (o.qty == row.qty || (row.parent.Some? && row.orderType == StopMarket && row.qty <= o.qty))
  }

  ghost predicate Evolves(rows: map<Id, Order>, rows': map<Id, Order>) {
    forall i :: i in rows ==> i in rows' && Earlier(rows[i], rows'[i])
  }

  /** Typed and gated, on a snapshot that may be an earlier reading of the row. */
  predicate Stale(db: Db, step: Step) {
    && StepOk(step) && Typed(step) && Gated(db, step)
    && (HasSnapshot(step) && step.id in db.orders ==> Earlier(step.snapshot, db.orders[step.id]))
  }

  // ----- the shape of the order table -----

  predicate IsChild(rows: map<Id, Order>, c: Id) {
    c in rows && rows[c].parent.Some?
  }

  /** The identity of a row: what no fill, rebalance or closing ever changes. */
  predicate SameIdentity(a: Order, b: Order) {
    a.parent == b.parent && a.orderType == b.orderType && a.side == b.side
  }

  /** Children are one stop-market and one limit row per parent, on the other side of it. */
  ghost predicate Shape(rows: map<Id, Order>) {
    && (forall c :: IsChild(rows, c) ==>
          && rows[c].parent.value in rows
          && rows[rows[c].parent.value].parent.None?
          && rows[c].side == Opposite(rows[rows[c].parent.value].side)
          && (rows[c].orderType == StopMarket || rows[c].orderType == Limit))
    && (forall c, c' :: IsChild(rows, c) && IsChild(rows, c') && SameIdentity(rows[c], rows[c']) ==> c == c')
  }

  /** The exposure invariant of one bracket. */
  predicate Safe(parent: Order, stop: Order, target: Order) {
    && target.qty == parent.qty && stop.qty <= parent.qty
    && (parent.status != Filled ==> stop.filledQty == 0.0 && target.filledQty == 0.0)
    && (stop.status != Filled ==> stop.filledQty == 0.0)
    && (Open(stop) ==> stop.qty + target.filledQty <= parent.qty)
    && (stop.status == Filled ==> !Open(target) && target.status != Filled)
    && (target.status == Filled ==> !Open(stop))
    && target.filledQty + stop.filledQty <= parent.filledQty
  }

  predicate IsBracket(rows: map<Id, Order>, p: Id, s: Id, t: Id) {
    && p in rows && s in rows && t in rows
    && rows[s].parent == Some(p) && rows[t].parent == Some(p)
    && rows[s].orderType == StopMarket && rows[t].orderType == Limit
  }

  ghost predicate BracketsSafe(rows: map<Id, Order>) {
    forall p, s, t :: IsBracket(rows, p, s, t) ==> Safe(rows[p], rows[s], rows[t])
  }

  ghost predicate RowsOk(rows: map<Id, Order>) {
    forall i :: i in rows ==> RowOk(rows[i])
  }

  /** What holds of the table however stale the snapshots. */
  ghost predicate Base(rows: map<Id, Order>) {
    RowsOk(rows) && Shape(rows)
  }

  ghost predicate Inv(rows: map<Id, Order>) {
    Base(rows) && BracketsSafe(rows)
  }

  // ----- table changes that cannot hurt a bracket -----

  ghost predicate SameTable(rows: map<Id, Order>, rows': map<Id, Order>) {
    rows.Keys == rows'.Keys && forall i :: i in rows ==> SameIdentity(rows[i], rows'[i])
  }

  lemma ShapeKept(rows: map<Id, Order>, rows': map<Id, Order>)
    requires Shape(rows) && SameTable(rows, rows')
    ensures Shape(rows')
    ensures forall p, s, t :: IsBracket(rows', p, s, t) <==> IsBracket(rows, p, s, t)
  {
    assert forall c :: IsChild(rows', c) <==> IsChild(rows, c);
  }

  /** The table may have moved on, but no row lost its terms and no bracket its safety. */
  ghost predicate Kept(rows: map<Id, Order>, rows': map<Id, Order>) {
    Base(rows') && Evolves(rows, rows') && (BracketsSafe(rows) ==> BracketsSafe(rows'))
  }

  /** Open rows may have been closed without a fill; nothing else moved. */
  predicate ClosedOrSame(a: Order, b: Order) {
    a == b || (Open(a) && (b == a.(status := Cancelled) || b == a.(status := Expired)))
  }

  lemma ClosingOneBracket(p: Order, s: Order, t: Order, p': Order, s': Order, t': Order)
    requires Safe(p, s, t)
    requires ClosedOrSame(p, p') && ClosedOrSame(s, s') && ClosedOrSame(t, t')
    ensures Safe(p', s', t')
  {
  }

  lemma ClosingIsSafe(rows: map<Id, Order>, rows': map<Id, Order>)
    requires Base(rows)
    requires rows.Keys == rows'.Keys && forall i :: i in rows ==> ClosedOrSame(rows[i], rows'[i])
    ensures Kept(rows, rows')
  {
    assert SameTable(rows, rows') by {
      forall i | i in rows ensures SameIdentity(rows[i], rows'[i]) {
        assert ClosedOrSame(rows[i], rows'[i]);
      }
    }
    ShapeKept(rows, rows');
    forall i | i in rows' ensures RowOk(rows'[i]) && Earlier(rows[i], rows'[i]) {
      assert ClosedOrSame(rows[i], rows'[i]) && RowOk(rows[i]);
    }
    if BracketsSafe(rows) {
      forall p, s, t | IsBracket(rows', p, s, t) ensures Safe(rows'[p], rows'[s], rows'[t]) {
        assert IsBracket(rows, p, s, t);
        ClosingOneBracket(rows[p], rows[s], rows[t], rows'[p], rows'[s], rows'[t]);
      }
    }
  }

  // ----- queueing -----

  lemma AddingParentlessRow(rows: map<Id, Order>, id: Id, o: Order)
    requires Base(rows) && id !in rows && RowOk(o) && o.parent.None?
    ensures Kept(rows, rows[id := o])
  {
    var rows' := rows[id := o];
    assert forall c :: IsChild(rows', c) <==> IsChild(rows, c);
    if BracketsSafe(rows) {
      forall p, s, t | IsBracket(rows', p, s, t) ensures Safe(rows'[p], rows'[s], rows'[t]) {
        assert IsChild(rows', s) && IsChild(rows', t);
        assert IsBracket(rows, p, s, t);
      }
    }
  }

  lemma AddingBracketShape(rows: map<Id, Order>, p: Id, s: Id, t: Id, parent: Order, stop: Order, target: Order)
    requires Shape(rows) && p !in rows && s !in rows && t !in rows && p != s && s != t && p != t
    requires parent.parent.None? && stop.parent == Some(p) && target.parent == Some(p)
    requires stop.orderType == StopMarket && target.orderType == Limit
    requires stop.side == target.side == Opposite(parent.side)
    ensures Shape(rows[p := parent][s := stop][t := target])
    ensures forall c :: IsChild(rows, c) ==> rows[c].parent != Some(p)
  {
    var rows' := rows[p := parent][s := stop][t := target];
    assert forall c :: IsChild(rows, c) ==> rows[c].parent.value in rows;
    forall c: Id, c': Id | IsChild(rows', c) && IsChild(rows', c') && SameIdentity(rows'[c], rows'[c'])
      ensures c == c'
    {
      assert c != s && c != t ==> IsChild(rows, c);
      assert c' != s && c' != t ==> IsChild(rows, c');
    }
    forall c: Id | IsChild(rows', c)
      ensures rows'[c].parent.value in rows' && rows'[rows'[c].parent.value].parent.None?
      ensures rows'[c].side == Opposite(rows'[rows'[c].parent.value].side)
      ensures rows'[c].orderType == StopMarket || rows'[c].orderType == Limit
    {
      assert c != s && c != t ==> IsChild(rows, c);
    }
  }

  /** Three new rows, one whole bracket, none of it filled; old rows are untouched. */
  lemma AddingBracket(rows: map<Id, Order>, p: Id, s: Id, t: Id, parent: Order, stop: Order, target: Order)
    requires Base(rows) && p !in rows && s !in rows && t !in rows && p != s && s != t && p != t
    requires RowOk(parent) && RowOk(stop) && RowOk(target)
    requires parent.parent.None? && stop.parent == Some(p) && target.parent == Some(p)
    requires stop.orderType == StopMarket && target.orderType == Limit
    requires stop.side == target.side == Opposite(parent.side)
    requires parent.status == stop.status == target.status == Pending && parent.qty == stop.qty == target.qty
    ensures Kept(rows, rows[p := parent][s := stop][t := target])
  {
    AddingBracketShape(rows, p, s, t, parent, stop, target);
    if BracketsSafe(rows) {
      AddingBracketSafe(rows, p, s, t, parent, stop, target);
    }
  }

  lemma AddingBracketSafe(rows: map<Id, Order>, p: Id, s: Id, t: Id, parent: Order, stop: Order, target: Order)
    requires Inv(rows) && p !in rows && s !in rows && t !in rows && p != s && s != t && p != t
    requires RowOk(parent) && RowOk(stop) && RowOk(target)
    requires parent.parent.None? && stop.parent == Some(p) && target.parent == Some(p)
    requires stop.orderType == StopMarket && target.orderType == Limit
    requires parent.status == stop.status == target.status == Pending && parent.qty == stop.qty == target.qty
    ensures BracketsSafe(rows[p := parent][s := stop][t := target])
  {
    var rows' := rows[p := parent][s := stop][t := target];
    forall p': Id, s': Id, t': Id | IsBracket(rows', p', s', t') ensures Safe(rows'[p'], rows'[s'], rows'[t']) {
      if p' == p {
        assert s' != s && s' != t ==> IsChild(rows, s');
        assert t' != s && t' != t ==> IsChild(rows, t');
        assert s' == s && t' == t;
      } else {
        assert IsChild(rows, s') && IsChild(rows, t');
        assert IsBracket(rows, p', s', t');
      }
    }
  }

  lemma QueueKeeps(db: Db, step: Step)
    requires HoldingsOk(db.positions) && Base(db.orders) && (step.QueueStep? || step.MarketStep?)
    ensures Kept(db.orders, Next(db, step).orders)
  {
    var rows, rows' := db.orders, Next(db, step).orders;
    if rows' != rows {
      AddingParentlessRow(rows, step.id, rows'[step.id]);
    }
  }

  lemma BracketKeeps(db: Db, step: Step)
    requires HoldingsOk(db.positions) && Base(db.orders) && step.BracketStep?
    ensures Kept(db.orders, Next(db, step).orders)
  {
    var rows, rows' := db.orders, Next(db, step).orders;
    if rows' != rows {
      AddingBracket(rows, step.id, step.stopId, step.targetId,
                    rows'[step.id], rows'[step.stopId], rows'[step.targetId]);
    }
  }

  /** A queued bracket is whole and as ordered: entry, stop and target of one quantity, the children on
      the other side at their own prices, none of them filled, and no other row touched. */
  lemma QueuedBracketIsWhole(db: Db, step: Step)
    requires HoldingsOk(db.positions) && step.BracketStep? && Transact(db, step).Commit?
    ensures var rows := Next(db, step).orders; var p, s, t := step.id, step.stopId, step.targetId;
            && IsBracket(rows, p, s, t) && Safe(rows[p], rows[s], rows[t])
            && rows[p].qty == rows[s].qty == rows[t].qty == step.qty > 0.0
            && rows[p].side == step.side && rows[s].side == rows[t].side == Opposite(step.side)
            && rows[p].limitPrice == step.limitPrice && (rows[p].orderType == Market <==> step.limitPrice.None?)
            && rows[s].stopPrice == Some(step.stopLoss) && rows[t].limitPrice == Some(step.targetPrice)
            && rows[p].status == rows[s].status == rows[t].status == Pending
            && (forall i :: i in rows && i !in {p, s, t} ==> i in db.orders && rows[i] == db.orders[i])
            && Next(db, step) == db.(orders := rows)
  {
  }

  // ----- triggers -----

  predicate SameExposure(a: Order, b: Order) {
    a.qty == b.qty && a.status == b.status && a.filledQty == b.filledQty
  }

  lemma SameExposureIsSafe(p: Order, s: Order, t: Order, p': Order, s': Order, t': Order)
    requires Safe(p, s, t) && SameExposure(p, p') && SameExposure(s, s') && SameExposure(t, t')
    ensures Safe(p', s', t')
  {
  }

  lemma MarkingKeepsShape(rows: map<Id, Order>, id: Id, o: Order)
    requires Shape(rows) && id in rows
    requires o.parent == rows[id].parent && o.side == rows[id].side
    requires o.parent.Some? ==> o.orderType == rows[id].orderType
    ensures Shape(rows[id := o])
  {
    var rows' := rows[id := o];
    forall c: Id | IsChild(rows', c)
      ensures rows'[c].parent.value in rows' && rows'[rows'[c].parent.value].parent.None?
      ensures rows'[c].side == Opposite(rows'[rows'[c].parent.value].side)
      ensures rows'[c].orderType == StopMarket || rows'[c].orderType == Limit
    {
      assert IsChild(rows, c);
    }
    forall c, c' | IsChild(rows', c) && IsChild(rows', c') && SameIdentity(rows'[c], rows'[c']) ensures c == c' {
      assert IsChild(rows, c) && IsChild(rows, c') && SameIdentity(rows[c], rows[c']);
    }
  }

  /** Marking a row, or turning a parentless stop-limit into a limit, touches no bracket figure. */
  lemma MarkingKeeps(rows: map<Id, Order>, id: Id, o: Order)
    requires Base(rows) && id in rows && RowOk(o)
    requires SameExposure(rows[id], o) && Earlier(rows[id], o)
    requires o.parent.Some? ==> o.orderType == rows[id].orderType
    ensures Kept(rows, rows[id := o])
  {
    var rows' := rows[id := o];
    MarkingKeepsShape(rows, id, o);
    forall i | i in rows' ensures RowOk(rows'[i]) {
      assert i in rows;
    }
    if BracketsSafe(rows) {
      forall p, s, t | IsBracket(rows', p, s, t) ensures Safe(rows'[p], rows'[s], rows'[t]) {
        assert IsBracket(rows, p, s, t);
        SameExposureIsSafe(rows[p], rows[s], rows[t], rows'[p], rows'[s], rows'[t]);
      }
    }
  }

  lemma TriggerKeeps(db: Db, step: Step)
    requires HoldingsOk(db.positions) && Base(db.orders) && step.TriggerStep? && Stale(db, step)
    ensures Kept(db.orders, Next(db, step).orders)
  {
    var rows, rows' := db.orders, Next(db, step).orders;
    if rows' != rows {
      assert IsChild(rows, step.id) ==> rows[step.id].orderType != StopLimit;
      assert RowOk(rows[step.id]);
      MarkingKeeps(rows, step.id, rows'[step.id]);
    }
  }

  // ----- limit slices -----

  /** A limit slice, row by row: the order itself, its open siblings, everyone else. */
  lemma LimitFillRowByRow(rows: map<Id, Order>, id: Id, o: Order, fillQty: Option<real>,
                          price: real, fees: real, pl: real)
    requires id in rows && Earlier(o, rows[id]) && RowOk(o) && SliceQty(o, fillQty) > 0.0
    ensures var rows' := RowsAfterLimitFill(rows, id, o, fillQty, price, fees, pl);
            && SameTable(rows, rows')
            && rows'[id] == FilledRow(rows[id], o, fillQty, price, fees, pl)
            && (forall i :: i in rows && i != id && (o.parent.None? || rows[i].parent != o.parent || !Open(rows[i])) ==>
                  rows'[i] == rows[i])
  {
    hide RowsAfterLimitFill;
    LimitFillRows(rows, id, o, fillQty, price, fees, pl);
  }

  lemma FilledRowOk(row: Order, o: Order, fillQty: Option<real>, price: real, fees: real, pl: real)
    requires RowOk(row) && RowOk(o) && SliceQty(o, fillQty) > 0.0 && Earlier(o, row) && o.orderType == Limit
    ensures var filled := FilledRow(row, o, fillQty, price, fees, pl);
            && RowOk(filled) && Earlier(row, filled) && filled.qty == row.qty == o.qty
            && filled.filledQty <= o.qty && (filled.filledQty == o.qty <==> Completes(o, fillQty))
  {
  }

  /** What a slice of a child does to its open sibling. */
  lemma SiblingAfterSlice(rows: map<Id, Order>, id: Id, o: Order, fillQty: Option<real>,
                          price: real, fees: real, pl: real, p: Id, s: Id)
    requires id in rows && rows[id].parent == o.parent == Some(p) && RowOk(o) && SliceQty(o, fillQty) > 0.0
    requires p in rows && p != id && rows[p].parent.None?
    requires s in rows && s != id && s != p && rows[s].parent == Some(p) && Open(rows[s]) && RowOk(rows[s])
    ensures var rows' := RowsAfterLimitFill(rows, id, o, fillQty, price, fees, pl);
            var newQty := rows[p].filledQty - (o.filledQty + SliceQty(o, fillQty));
            && s in rows'
            && (Completes(o, fillQty) ==> rows'[s].status == Cancelled)
            && (!Completes(o, fillQty) && newQty > 0.0 ==>
                  rows'[s] == if rows[s].qty > newQty then rows[s].(qty := newQty) else rows[s])
            && rows'[s] == rows[s].(qty := rows'[s].qty, status := rows'[s].status)
            && 0.0 < rows'[s].qty <= rows[s].qty && RowOk(rows'[s])
  {
  }

  lemma OtherChildIsStop(rows: map<Id, Order>, t: Id, i: Id)
    requires Shape(rows) && t in rows && i in rows && i != t
    requires rows[t].orderType == Limit && rows[t].parent.Some? && rows[i].parent == rows[t].parent
    ensures rows[i].orderType == StopMarket
    ensures var p := rows[t].parent.value; p in rows && rows[p].parent.None? && p != t && p != i
  {
    assert IsChild(rows, t) && IsChild(rows, i);
  }

  lemma LimitFillKeepsBase(rows: map<Id, Order>, id: Id, o: Order, fillQty: Option<real>,
                           price: real, fees: real, pl: real)
    requires Base(rows) && id in rows && Earlier(o, rows[id]) && RowOk(o)
    requires o.orderType == Limit && SliceQty(o, fillQty) > 0.0
    ensures var rows' := RowsAfterLimitFill(rows, id, o, fillQty, price, fees, pl); Base(rows') && Evolves(rows, rows')
  {
    hide RowsAfterLimitFill;
    var rows' := RowsAfterLimitFill(rows, id, o, fillQty, price, fees, pl);
    FilledRowOk(rows[id], o, fillQty, price, fees, pl);
    LimitFillRowByRow(rows, id, o, fillQty, price, fees, pl);
    ShapeKept(rows, rows');
    forall i | i in rows' ensures RowOk(rows'[i]) && Earlier(rows[i], rows'[i]) {
      if i != id && rows'[i] != rows[i] {
        OtherChildIsStop(rows, id, i);
        SiblingAfterSlice(rows, id, o, fillQty, price, fees, pl, o.parent.value, i);
      }
    }
  }

  /** A slice of a target, from whatever reading: the rows stay safe. */
  lemma TargetSliceIsSafe(p: Order, s: Order, t: Order, s': Order, t': Order)
    requires Safe(p, s, t) && RowOk(p) && p.parent.None? && p.status == Filled && Open(t)
    requires t'.qty == t.qty && 0.0 <= t'.filledQty <= t.qty
    requires t'.status == if t'.filledQty == t.qty then Filled else PartiallyFilled
    requires s' == s.(qty := s'.qty, status := s'.status) && s'.qty <= s.qty
    requires !Open(s) ==> s' == s
    requires Open(s) && t'.status == Filled ==> s'.status == Cancelled
    requires Open(s) && t'.status != Filled ==> s'.status == s.status && s'.qty <= p.filledQty - t'.filledQty
    ensures Safe(p, s', t')
  {
  }

  lemma LimitFillKeepsSafe(rows: map<Id, Order>, id: Id, o: Order, fillQty: Option<real>,
                           price: real, fees: real, pl: real)
    requires Inv(rows) && id in rows && Earlier(o, rows[id]) && RowOk(o) && Open(rows[id])
    requires o.orderType == Limit && SliceQty(o, fillQty) > 0.0
    requires o.parent.Some? ==> o.parent.value in rows && rows[o.parent.value].status == Filled
    ensures BracketsSafe(RowsAfterLimitFill(rows, id, o, fillQty, price, fees, pl))
  {
    hide RowsAfterLimitFill;
    var rows' := RowsAfterLimitFill(rows, id, o, fillQty, price, fees, pl);
    LimitFillRowByRow(rows, id, o, fillQty, price, fees, pl);
    FilledRowOk(rows[id], o, fillQty, price, fees, pl);
    ShapeKept(rows, rows');
    forall p, s, t | IsBracket(rows', p, s, t) ensures Safe(rows'[p], rows'[s], rows'[t]) {
      assert IsBracket(rows, p, s, t) && IsChild(rows, s) && IsChild(rows, t);
      if o.parent == Some(p) {
        assert IsChild(rows, id);
        assert id == t;
        if Open(rows[s]) {
          SiblingAfterSlice(rows, id, o, fillQty, price, fees, pl, p, s);
        }
        TargetSliceIsSafe(rows[p], rows[s], rows[t], rows'[s], rows'[t]);
      } else {
        assert rows'[s] == rows[s] && rows'[t] == rows[t];
      }
    }
  }

  // ----- market fills -----

  lemma MarketFillRowByRow(rows: map<Id, Order>, id: Id, o: Order, price: real, fees: real, pl: real)
    requires id in rows && o.parent == rows[id].parent
    ensures var rows' := RowsAfterMarketFill(rows, id, o, price, fees, pl);
            && SameTable(rows, rows')
            && rows'[id].status == Filled && rows'[id].filledQty == o.qty && rows'[id].filledAvgPrice.Some?
            && rows'[id].qty == rows[id].qty && rows'[id].limitPrice == rows[id].limitPrice
            && rows'[id].symbol == rows[id].symbol && rows'[id].stopPrice == rows[id].stopPrice
            && rows'[id].tif == rows[id].tif && rows'[id].product == rows[id].product
            && rows'[id].createdAt == rows[id].createdAt
            && (forall i :: i in rows && i != id ==> ClosedOrSame(rows[i], rows'[i]))
            && (forall i :: i in rows && i != id && o.parent.Some? && rows[i].parent == o.parent ==> !Open(rows'[i]))
            && (forall i :: i in rows && i != id && (o.parent.None? || rows[i].parent != o.parent) ==>
                rows'[i] == rows[i])
  {
  }

  lemma MarketFillKeepsBase(rows: map<Id, Order>, id: Id, o: Order, price: real, fees: real, pl: real)
    requires Base(rows) && id in rows && Earlier(o, rows[id]) && RowOk(o)
    ensures var rows' := RowsAfterMarketFill(rows, id, o, price, fees, pl); Base(rows') && Evolves(rows, rows')
  {
    hide RowsAfterMarketFill, Shape;
    var rows' := RowsAfterMarketFill(rows, id, o, price, fees, pl);
    MarketFillRowByRow(rows, id, o, price, fees, pl);
    ShapeKept(rows, rows');
    forall i | i in rows' ensures RowOk(rows'[i]) && Earlier(rows[i], rows'[i]) {
      hide RowOk, Earlier, ClosedOrSame;
      if i == id {
        FilledRowKept(rows[i], rows'[i], o);
      } else {
        ClosedRowKept(rows[i], rows'[i]);
      }
    }
  }

  lemma FilledRowKept(a: Order, b: Order, o: Order)
    requires RowOk(a) && RowOk(o) && Earlier(o, a) && SameIdentity(a, b)
    requires b.status == Filled && b.filledQty == o.qty && b.filledAvgPrice.Some? && b.qty == a.qty
    requires b.symbol == a.symbol && b.limitPrice == a.limitPrice && b.stopPrice == a.stopPrice
    requires b.tif == a.tif && b.product == a.product && b.createdAt == a.createdAt
    ensures RowOk(b) && Earlier(a, b)
  {
  }

  lemma ClosedRowKept(a: Order, b: Order)
    requires RowOk(a) && ClosedOrSame(a, b)
    ensures RowOk(b) && Earlier(a, b)
  {
  }

  /** A stop filled whole, at the quantity it was read with: safe exactly when that many shares are
      still uncovered. The claim's guard, which tests only that the stop is pending, does not ensure it. */
  lemma StopFillSafeIff(p: Order, s: Order, t: Order, s': Order, t': Order, qty: real)
    requires Safe(p, s, t) && p.status == Filled && s.status == Pending
    requires s'.status == Filled && s'.filledQty == qty && s'.qty == s.qty
    requires ClosedOrSame(t, t') && !Open(t')
    ensures Safe(p, s', t') <==> t.filledQty + qty <= p.filledQty
  {
  }

  lemma ParentFillIsSafe(p: Order, s: Order, t: Order, p': Order)
    requires Safe(p, s, t) && p.status == Pending
    requires p'.status == Filled && p'.filledQty == p.qty && p'.qty == p.qty && p.qty > 0.0
    ensures Safe(p', s, t)
  {
  }

  /** The stop's quantity, as read, is no more than what the parent's fill leaves uncovered. */
  ghost predicate Uncovers(rows: map<Id, Order>, p: Id, s: Id, qty: real) {
    forall t :: IsBracket(rows, p, s, t) ==> rows[t].filledQty + qty <= rows[p].filledQty
  }

  lemma MarketFillSafeIff(rows: map<Id, Order>, id: Id, o: Order, price: real, fees: real, pl: real)
    requires Inv(rows) && id in rows && Earlier(o, rows[id]) && RowOk(o) && rows[id].status == Pending
    requires o.orderType == Market || o.orderType == StopMarket
    requires o.parent.Some? ==> o.parent.value in rows && rows[o.parent.value].status == Filled
    ensures BracketsSafe(RowsAfterMarketFill(rows, id, o, price, fees, pl)) <==>
            (o.parent.Some? ==> Uncovers(rows, o.parent.value, id, o.qty))
  {
    hide RowsAfterMarketFill;
    var rows' := RowsAfterMarketFill(rows, id, o, price, fees, pl);
    MarketFillRowByRow(rows, id, o, price, fees, pl);
    ShapeKept(rows, rows');
    forall p, s, t | IsBracket(rows, p, s, t)
      ensures Safe(rows'[p], rows'[s], rows'[t]) <==>
              (o.parent == Some(p) ==> rows[t].filledQty + o.qty <= rows[p].filledQty)
      ensures o.parent == Some(p) ==> s == id
    {
      assert IsChild(rows, s) && IsChild(rows, t);
      if o.parent == Some(p) {
        assert IsChild(rows, id);
        assert id == s;
        StopFillSafeIff(rows[p], rows[s], rows[t], rows'[s], rows'[t], o.qty);
      } else {
        assert rows'[s] == rows[s] && rows'[t] == rows[t];
        if id == p {
          ParentFillIsSafe(rows[p], rows[s], rows[t], rows'[p]);
        }
      }
    }
  }

  // ----- every step -----

  lemma FillPendingTrades(db: Db, step: Step)
    requires HoldingsOk(db.positions) && StepOk(step) && step.FillPendingStep?
    ensures Trades(db, step) <==> Next(db, step) != db
    ensures Trades(db, step) ==> step.id in db.orders && db.orders[step.id].status == Pending
  {
    var o := step.snapshot;
    if Next(db, step) != db {
      LegEffect(db, step.id, o.symbol, o.side, o.qty, step.price, step.fees,
                ExecuteLeg(db, step.id, o.symbol, o.side, o.qty, step.price, step.fees).db);
    }
  }

  /** If the step fills a bracket's stop, the quantity it was read with is still uncovered. */
  ghost predicate StopFits(db: Db, step: Step)
    requires HoldingsOk(db.positions) && StepOk(step)
  {
    step.FillPendingStep? && step.snapshot.parent.Some? && Trades(db, step) ==>
      Uncovers(db.orders, step.snapshot.parent.value, step.id, step.snapshot.qty)
  }

  lemma OtherStepsKeep(db: Db, step: Step)
    requires Sound(db) && Stale(db, step) && Base(db.orders) && !IsFill(step)
    ensures Kept(db.orders, Next(db, step).orders)
  {
    if step.MarketStep? || step.QueueStep? {
      QueueKeeps(db, step);
    } else if step.BracketStep? {
      BracketKeeps(db, step);
    } else if step.TriggerStep? {
      TriggerKeeps(db, step);
    } else if IsCorporateAction(step) {
      CorporateActionsLeaveOrders(db, step);
    } else {
      ClosingIsSafe(db.orders, Next(db, step).orders);
    }
  }

  /** A stale step keeps the table's shape, and no order loses its terms. */
  lemma BaseNext(db: Db, step: Step)
    requires Sound(db) && Stale(db, step) && Base(db.orders)
    ensures Base(Next(db, step).orders) && Evolves(db.orders, Next(db, step).orders)
  {
    var rows := db.orders;
    if step.LimitFillStep? {
      var o := step.snapshot;
      LimitFillTrades(db, step);
      if Trades(db, step) {
        LimitFillKeepsBase(rows, step.id, o, step.fillQty, step.price, step.fees,
                           LegPl(db, o.side, o.symbol, SliceQty(o, step.fillQty), step.price, step.fees));
      }
    } else if step.FillPendingStep? {
      var o := step.snapshot;
      FillPendingTrades(db, step);
      if Trades(db, step) {
        MarketFillKeepsBase(rows, step.id, o, step.price, step.fees,
                            LegPl(db, o.side, o.symbol, o.qty, step.price, step.fees));
      }
    } else {
      OtherStepsKeep(db, step);
    }
  }

  /** One transaction on a reading of any age keeps every bracket safe exactly when, if it fills a stop,
      the quantity it read is still uncovered. Slices of targets need no such condition. */
  lemma SafeNextIff(db: Db, step: Step)
    requires Sound(db) && Stale(db, step) && Inv(db.orders)
    ensures BracketsSafe(Next(db, step).orders) <==> StopFits(db, step)
  {
    var rows := db.orders;
    if step.LimitFillStep? {
      var o := step.snapshot;
      LimitFillTrades(db, step);
      if Trades(db, step) {
        LimitFillKeepsSafe(rows, step.id, o, step.fillQty, step.price, step.fees,
                           LegPl(db, o.side, o.symbol, SliceQty(o, step.fillQty), step.price, step.fees));
      }
    } else if step.FillPendingStep? {
      var o := step.snapshot;
      FillPendingTrades(db, step);
      if Trades(db, step) {
        MarketFillSafeIff(rows, step.id, o, step.price, step.fees,
                          LegPl(db, o.side, o.symbol, o.qty, step.price, step.fees));
      }
    } else {
      OtherStepsKeep(db, step);
    }
  }

  lemma EarlierItself(db: Db, step: Step)
    requires Driven(db, step)
    ensures Stale(db, step)
  {
  }

  /** On an up-to-date reading a stop always fits. */
  lemma CurrentStopFits(db: Db, step: Step)
    requires Sound(db) && Driven(db, step) && Inv(db.orders)
    ensures StopFits(db, step)
  {
    if step.FillPendingStep? && step.snapshot.parent.Some? && Trades(db, step) {
      FillPendingTrades(db, step);
      var p, s := step.snapshot.parent.value, step.id;
      forall t | IsBracket(db.orders, p, s, t)
        ensures db.orders[t].filledQty + step.snapshot.qty <= db.orders[p].filledQty
      {
        assert IsChild(db.orders, s) && Safe(db.orders[p], db.orders[s], db.orders[t]) && RowOk(db.orders[p]);
      }
    }
  }

  lemma InvNext(db: Db, step: Step)
    requires Sound(db) && Driven(db, step) && Inv(db.orders)
    ensures Inv(Next(db, step).orders)
  {
    EarlierItself(db, step);
    BaseNext(db, step);
    CurrentStopFits(db, step);
    SafeNextIff(db, step);
  }

  lemma {:induction false} InvAlways(db: Db, steps: seq<Step>)
    requires Sound(db) && StepsOk(steps) && DrivenAlong(db, steps) && Inv(db.orders)
    ensures Inv(Run(db, steps).orders)
  {
    if steps != [] {
      var last := |steps| - 1;
      forall k | 0 <= k < last ensures Driven(Run(db, steps[..last][..k]), steps[..last][k]) {
        PrefixOfPrefix(steps, k);
      }
      InvAlways(db, steps[..last]);
      InvNext(Run(db, steps[..last]), steps[last]);
    }
  }

  // ----- every run, on readings of any age -----

  ghost function TableAt(db: Db, steps: seq<Step>, n: nat): map<Id, Order>
    requires Sound(db) && StepsOk(steps) && n <= |steps|
  {
    Run(db, steps[..n]).orders
  }

  lemma EvolvesOn(rows: map<Id, Order>, rows': map<Id, Order>, rows'': map<Id, Order>)
    requires Evolves(rows, rows') && Evolves(rows', rows'')
    ensures Evolves(rows, rows'')
  {
    forall i | i in rows ensures i in rows'' && Earlier(rows[i], rows''[i]) {
      assert Earlier(rows[i], rows'[i]) && Earlier(rows'[i], rows''[i]);
    }
  }

  lemma ReadIsEarlier(db: Db, steps: seq<Step>, k: nat)
    requires Sound(db) && StepsOk(steps) && k < |steps|
    requires OnceRead(db, steps, k) && Typed(steps[k]) && Gated(Run(db, steps[..k]), steps[k])
    requires forall j: nat :: j <= k ==> Evolves(TableAt(db, steps, j), TableAt(db, steps, k))
    ensures Stale(Run(db, steps[..k]), steps[k])
  {
    if HasSnapshot(steps[k]) && steps[k].id in TableAt(db, steps, k) {
      var j: nat :| j <= k && ReadAfter(db, steps, j, steps[k]);
      assert Evolves(TableAt(db, steps, j), TableAt(db, steps, k));
    }
  }

  lemma EvolvesSelf(rows: map<Id, Order>)
    ensures Evolves(rows, rows)
  {
  }

  /** Along such a run the table keeps its shape, every row keeps its terms, and so every reading,
      however old, is one the row may have had. */
  lemma {:induction false} BaseAlways(db: Db, steps: seq<Step>, n: nat)
    requires Sound(db) && StepsOk(steps) && StaleAlong(db, steps) && Base(db.orders) && n <= |steps|
    ensures Base(TableAt(db, steps, n))
    ensures forall j: nat :: j <= n ==> Evolves(TableAt(db, steps, j), TableAt(db, steps, n))
    ensures forall k: nat :: k < n ==> Stale(Run(db, steps[..k]), steps[k])
  {
    hide Evolves, Base, Stale, OnceRead, Typed, Gated, Sound, Next;
    EvolvesSelf(TableAt(db, steps, n));
    if n == 0 {
      assert steps[..0] == [];
    } else {
      var k: nat := n - 1;
      BaseAlways(db, steps, k);
      ReadIsEarlier(db, steps, k);
      RunNext(db, steps, k);
      BaseNext(Run(db, steps[..k]), steps[k]);
      forall j: nat | j <= n ensures Evolves(TableAt(db, steps, j), TableAt(db, steps, n)) {
        if j < n {
          EvolvesOn(TableAt(db, steps, j), TableAt(db, steps, k), TableAt(db, steps, n));
        }
      }
    }
  }

  /** The three rows of the bracket asked for: entry, stop and target on their sides at their own prices, the
      entry and the target for the whole quantity, the stop for no more. */
  ghost predicate BracketAsAsked(rows: map<Id, Order>, step: Step)
    requires step.BracketStep?
  {
    var p, s, t := step.id, step.stopId, step.targetId;
    && IsBracket(rows, p, s, t) && rows[p].parent.None?
    && rows[p].side == step.side && rows[s].side == rows[t].side == Opposite(step.side)
    && rows[p].limitPrice == step.limitPrice && rows[p].orderType == (if step.limitPrice.Some? then Limit else Market)
    && rows[s].stopPrice == Some(step.stopLoss) && rows[t].limitPrice == Some(step.targetPrice)
    && rows[p].qty == rows[t].qty == step.qty >= rows[s].qty
    && rows[p].symbol == rows[s].symbol == rows[t].symbol == step.symbol
    && rows[p].tif == rows[s].tif == rows[t].tif == step.tif
    && rows[p].product == rows[s].product == rows[t].product == step.product
  }

  lemma BracketQueuedAsAsked(db: Db, step: Step)
    requires HoldingsOk(db.positions) && step.BracketStep? && Transact(db, step).Commit?
    ensures BracketAsAsked(Next(db, step).orders, step)
  {
  }

  lemma BracketStaysAsAsked(rows: map<Id, Order>, rows': map<Id, Order>, step: Step)
    requires step.BracketStep? && BracketAsAsked(rows, step) && Evolves(rows, rows')
    ensures BracketAsAsked(rows', step)
  {
    assert Earlier(rows[step.id], rows'[step.id]);
    assert Earlier(rows[step.stopId], rows'[step.stopId]);
    assert Earlier(rows[step.targetId], rows'[step.targetId]);
  }

  /** A bracket once queued is that bracket for the rest of the run, whatever is read how late. */
  lemma BracketsEndure(db: Db, steps: seq<Step>, k: nat)
    requires Sound(db) && StepsOk(steps) && StaleAlong(db, steps) && Base(db.orders)
    requires k < |steps| && steps[k].BracketStep? && Transact(Run(db, steps[..k]), steps[k]).Commit?
    ensures BracketAsAsked(Run(db, steps).orders, steps[k])
  {
    hide BracketAsAsked, StaleAlong, Base, Transact, Next;
    RunNext(db, steps, k);
    BaseAlways(db, steps, |steps|);
    assert steps[..|steps|] == steps;
    BracketQueuedAsAsked(Run(db, steps[..k]), steps[k]);
    BracketStaysAsAsked(TableAt(db, steps, k + 1), TableAt(db, steps, |steps|), steps[k]);
  }

  /** An order once queued is for the rest of the run what was asked for: its symbol, side, quantity, prices, time
      in force, product and submission stamp stay as given, whatever is read how late. Its kind does too, but that
      a stop-limit may have become the limit order it holds the price of. */
  lemma OrdersEndure(db: Db, steps: seq<Step>, k: nat)
    requires Sound(db) && StepsOk(steps) && StaleAlong(db, steps) && Base(db.orders)
    requires k < |steps| && steps[k].QueueStep? && Transact(Run(db, steps[..k]), steps[k]).Commit?
    ensures var rows, asked := Run(db, steps).orders, steps[k];
            && asked.id in rows
            && var o := rows[asked.id];
               && o.symbol == asked.symbol && o.side == asked.side && o.qty == asked.qty
               && o.limitPrice == asked.limitPrice && o.stopPrice == asked.stopPrice && o.parent.None?
               && o.tif == asked.tif && o.product == asked.product && o.createdAt == asked.at
               && (o.orderType == asked.orderType || (asked.orderType == StopLimit && o.orderType == Limit))
  {
    hide StaleAlong, Base;
    RunNext(db, steps, k);
    BaseAlways(db, steps, |steps|);
    assert steps[..|steps|] == steps;
    assert Evolves(TableAt(db, steps, k + 1), TableAt(db, steps, |steps|));
    QueuedAsAsked(Run(db, steps[..k]), steps[k]);
    assert Earlier(TableAt(db, steps, k + 1)[steps[k].id], TableAt(db, steps, |steps|)[steps[k].id]);
  }

  /** Queueing writes down what was asked, unfilled and untriggered, and nothing else. */
  lemma QueuedAsAsked(db: Db, step: Step)
    requires HoldingsOk(db.positions) && step.QueueStep? && Transact(db, step).Commit?
    ensures var d := Next(db, step);
            && step.id !in db.orders && step.id in d.orders
            && d == db.(orders := db.orders[step.id := d.orders[step.id]])
            && var o := d.orders[step.id];
               && o.symbol == step.symbol && o.side == step.side && o.qty == step.qty && o.orderType == step.orderType
               && o.limitPrice == step.limitPrice && o.stopPrice == step.stopPrice && o.parent.None?
               && o.tif == step.tif && o.product == step.product && o.createdAt == step.at
               && o.status == Pending && o.filledQty == 0.0 && !o.triggered
  {
  }

  ghost predicate StopsFitAlong(db: Db, steps: seq<Step>)
    requires Sound(db) && StepsOk(steps)
  {
    forall k :: 0 <= k < |steps| ==> StopFits(Run(db, steps[..k]), steps[k])
  }

  ghost predicate SafeAlong(db: Db, steps: seq<Step>)
    requires Sound(db) && StepsOk(steps)
  {
    forall n: nat :: n <= |steps| ==> BracketsSafe(TableAt(db, steps, n))
  }

  lemma {:induction false} SafeUpTo(db: Db, steps: seq<Step>, n: nat)
    requires Sound(db) && StepsOk(steps) && StaleAlong(db, steps) && Inv(db.orders) && n <= |steps|
    requires StopsFitAlong(db, steps)
    ensures BracketsSafe(TableAt(db, steps, n))
  {
    BaseAlways(db, steps, n);
    if n == 0 {
      assert steps[..0] == [];
    } else {
      SafeUpTo(db, steps, n - 1);
      BaseAlways(db, steps, n - 1);
      RunNext(db, steps, n - 1);
      SafeNextIff(Run(db, steps[..n - 1]), steps[n - 1]);
    }
  }

  /** Over any run of typed, gated transactions on readings of any age: every bracket is safe
      throughout exactly when every stop that filled was read with a quantity still uncovered. */
  lemma BracketsSafeIffStopsFit(db: Db, steps: seq<Step>)
    requires Sound(db) && StepsOk(steps) && StaleAlong(db, steps) && Inv(db.orders)
    ensures SafeAlong(db, steps) <==> StopsFitAlong(db, steps)
  {
    if StopsFitAlong(db, steps) {
      forall n: nat | n <= |steps| ensures BracketsSafe(TableAt(db, steps, n)) {
        SafeUpTo(db, steps, n);
      }
    }
    if SafeAlong(db, steps) {
      forall k | 0 <= k < |steps| ensures StopFits(Run(db, steps[..k]), steps[k]) {
        BaseAlways(db, steps, k + 1);
        BaseAlways(db, steps, k);
        RunNext(db, steps, k);
        assert BracketsSafe(TableAt(db, steps, k)) && BracketsSafe(TableAt(db, steps, k + 1));
        SafeNextIff(Run(db, steps[..k]), steps[k]);
      }
    }
  }

  /** Driven runs, like those of a watcher with the account to itself, meet both conditions. */
  lemma {:induction false} DrivenRunsFit(db: Db, steps: seq<Step>, n: nat)
    requires Sound(db) && StepsOk(steps) && DrivenAlong(db, steps) && Inv(db.orders) && n <= |steps|
    ensures Inv(TableAt(db, steps, n))
    ensures n < |steps| ==> StopFits(Run(db, steps[..n]), steps[n]) && UpToDate(Run(db, steps[..n]), steps[n])
  {
    if n == 0 {
      assert steps[..0] == [];
    } else {
      DrivenRunsFit(db, steps, n - 1);
      RunNext(db, steps, n - 1);
      InvNext(Run(db, steps[..n - 1]), steps[n - 1]);
    }
    if n < |steps| {
      CurrentStopFits(Run(db, steps[..n]), steps[n]);
      CurrentIsUpToDate(Run(db, steps[..n]), steps[n]);
    }
  }

  lemma DrivenRuns(db: Db, steps: seq<Step>)
    requires Sound(db) && StepsOk(steps) && DrivenAlong(db, steps) && Inv(db.orders)
    ensures StaleAlong(db, steps) && StopsFitAlong(db, steps) && UpToDateAlong(db, steps)
  {
    DrivenIsStale(db, steps);
    forall k | 0 <= k < |steps|
      ensures StopFits(Run(db, steps[..k]), steps[k]) && UpToDate(Run(db, steps[..k]), steps[k])
    {
      DrivenRunsFit(db, steps, k);
    }
  }

  /** From opening, after any run of typed, gated transactions on readings of any age in which every
      stop that filled was read with a quantity still uncovered, and for every bracket: what the
      children filled never exceeds what the parent filled, an open stop still fits beside the
      target's fills, at most one child is ever filled, and a filled child leaves no open sibling. */
  lemma {:induction false} BracketExposure(capital: real, steps: seq<Step>, p: Id, s: Id, t: Id)
    requires capital >= 0.0 && StepsOk(steps) && Sound(OpenAccount(capital))
    requires StaleAlong(OpenAccount(capital), steps) && StopsFitAlong(OpenAccount(capital), steps)
    requires IsBracket(Run(OpenAccount(capital), steps).orders, p, s, t)
    ensures var rows := Run(OpenAccount(capital), steps).orders;
            && rows[t].filledQty + rows[s].filledQty <= rows[p].filledQty
            && (Open(rows[s]) ==> rows[s].qty + rows[t].filledQty <= rows[p].qty)
            && !(rows[s].status == Filled && rows[t].status == Filled)
            && (rows[s].status == Filled ==> !Open(rows[t])) && (rows[t].status == Filled ==> !Open(rows[s]))
  {
    SafeUpTo(OpenAccount(capital), steps, |steps|);
    assert steps[..|steps|] == steps;
  }

  // ----- an open stop is never short of what is left to protect -----

  predicate Exact(parent: Order, stop: Order, target: Order) {
    target.qty == parent.qty && (Open(stop) ==> stop.qty + target.filledQty == parent.qty)
  }

  /** Every open stop is for exactly the shares the target has not sold. */
  ghost predicate StopsExact(rows: map<Id, Order>) {
    forall p, s, t :: IsBracket(rows, p, s, t) ==> Exact(rows[p], rows[s], rows[t])
  }

  /** Neither bought nor sold more, nor reopened, nor of another size or kind if it is a child. */
  predicate Quiet(a: Order, b: Order) {
    && b.qty == a.qty && b.filledQty == a.filledQty && b.parent == a.parent && (Open(b) ==> Open(a))
    && (a.parent.Some? ==> b.orderType == a.orderType)
  }

  lemma QuietKeepsExact(rows: map<Id, Order>, rows': map<Id, Order>)
    requires Base(rows) && StopsExact(rows)
    requires rows.Keys == rows'.Keys && forall i :: i in rows ==> Quiet(rows[i], rows'[i])
    ensures StopsExact(rows')
  {
    forall p, s, t | IsBracket(rows', p, s, t) ensures Exact(rows'[p], rows'[s], rows'[t]) {
      assert Quiet(rows[p], rows'[p]) && Quiet(rows[s], rows'[s]) && Quiet(rows[t], rows'[t]);
      assert IsBracket(rows, p, s, t);
    }
  }

  lemma NewParentlessKeepsExact(rows: map<Id, Order>, id: Id, o: Order)
    requires Base(rows) && StopsExact(rows) && id !in rows && o.parent.None?
    ensures StopsExact(rows[id := o])
  {
    var rows' := rows[id := o];
    forall p, s, t | IsBracket(rows', p, s, t) ensures Exact(rows'[p], rows'[s], rows'[t]) {
      assert IsChild(rows, s) && IsChild(rows, t);
      assert IsBracket(rows, p, s, t);
    }
  }

  lemma NewBracketIsExact(rows: map<Id, Order>, p: Id, s: Id, t: Id, parent: Order, stop: Order, target: Order)
    requires Base(rows) && StopsExact(rows) && p !in rows && s !in rows && t !in rows && p != s && s != t && p != t
    requires parent.parent.None? && stop.parent == Some(p) && target.parent == Some(p)
    requires stop.orderType == StopMarket && target.orderType == Limit
    requires parent.qty == stop.qty == target.qty && target.filledQty == 0.0
    ensures StopsExact(rows[p := parent][s := stop][t := target])
  {
    var rows' := rows[p := parent][s := stop][t := target];
    forall p': Id, s': Id, t': Id | IsBracket(rows', p', s', t') ensures Exact(rows'[p'], rows'[s'], rows'[t']) {
      if p' == p {
        assert s' != s && s' != t ==> IsChild(rows, s');
        assert t' != s && t' != t ==> IsChild(rows, t');
      } else {
        assert IsChild(rows, s') && IsChild(rows, t');
        assert IsBracket(rows, p', s', t');
      }
    }
  }

  lemma OtherStepsKeepExact(db: Db, step: Step)
    requires Sound(db) && Stale(db, step) && Base(db.orders) && !IsFill(step) && StopsExact(db.orders)
    ensures StopsExact(Next(db, step).orders)
  {
    hide StopsExact, Quiet;
    var rows, rows' := db.orders, Next(db, step).orders;
    if IsCorporateAction(step) {
      CorporateActionsLeaveOrders(db, step);
    } else if rows' == rows {
    } else if step.MarketStep? || step.QueueStep? {
      NewParentlessKeepsExact(rows, step.id, rows'[step.id]);
    } else if step.BracketStep? {
      NewBracketIsExact(rows, step.id, step.stopId, step.targetId, rows'[step.id], rows'[step.stopId],
                        rows'[step.targetId]);
    } else {
      QuietSteps(db, step);
      QuietKeepsExact(rows, rows');
    }
  }

  lemma QuietSteps(db: Db, step: Step)
    requires Sound(db) && Stale(db, step) && Shape(db.orders)
    requires step.TriggerStep? || step.CancelStep? || step.ExpireStep?
    ensures var rows, rows' := db.orders, Next(db, step).orders;
            rows.Keys == rows'.Keys && forall i :: i in rows ==> Quiet(rows[i], rows'[i])
  {
    if step.TriggerStep? {
      assert IsChild(db.orders, step.id) ==> db.orders[step.id].orderType != StopLimit;
    }
  }

  /** A slice of a target, its stop still open, that writes a smaller filled quantity than the row has. */
  ghost predicate SetsBack(rows: map<Id, Order>, id: Id, o: Order, fillQty: Option<real>)
    requires id in rows
  {
    && o.parent.Some? && !Completes(o, fillQty) && o.filledQty + SliceQty(o, fillQty) < rows[id].filledQty
    && exists s :: IsBracket(rows, o.parent.value, s, id) && Open(rows[s])
  }

  lemma SliceExactIff(rows: map<Id, Order>, id: Id, o: Order, fillQty: Option<real>,
                      price: real, fees: real, pl: real)
    requires Base(rows) && StopsExact(rows) && id in rows && Earlier(o, rows[id]) && RowOk(o)
    requires o.orderType == Limit && SliceQty(o, fillQty) > 0.0
    requires o.parent.Some? ==> o.parent.value in rows && rows[o.parent.value].status == Filled
    ensures StopsExact(RowsAfterLimitFill(rows, id, o, fillQty, price, fees, pl)) <==> !SetsBack(rows, id, o, fillQty)
  {
    hide RowsAfterLimitFill;
    var rows' := RowsAfterLimitFill(rows, id, o, fillQty, price, fees, pl);
    LimitFillRowByRow(rows, id, o, fillQty, price, fees, pl);
    FilledRowOk(rows[id], o, fillQty, price, fees, pl);
    ShapeKept(rows, rows');
    forall p, s, t | IsBracket(rows, p, s, t)
      ensures Exact(rows'[p], rows'[s], rows'[t]) <==>
              !(o.parent == Some(p) && Open(rows[s]) && !Completes(o, fillQty)
                && o.filledQty + SliceQty(o, fillQty) < rows[id].filledQty)
      ensures o.parent == Some(p) ==> t == id
    {
      assert IsChild(rows, s) && IsChild(rows, t);
      if o.parent == Some(p) {
        assert IsChild(rows, id);
        assert id == t;
        assert RowOk(rows[p]) && RowOk(rows[s]);
        if Open(rows[s]) {
          SiblingAfterSlice(rows, id, o, fillQty, price, fees, pl, p, s);
        }
      } else {
        assert rows'[s] == rows[s] && rows'[t].qty == rows[t].qty && rows'[t].filledQty == rows[t].filledQty;
      }
    }
  }

  lemma MarketFillKeepsExact(rows: map<Id, Order>, id: Id, o: Order, price: real, fees: real, pl: real)
    requires Base(rows) && StopsExact(rows) && id in rows && Earlier(o, rows[id]) && RowOk(o)
    requires o.orderType == Market || o.orderType == StopMarket
    ensures StopsExact(RowsAfterMarketFill(rows, id, o, price, fees, pl))
  {
    hide RowsAfterMarketFill;
    var rows' := RowsAfterMarketFill(rows, id, o, price, fees, pl);
    MarketFillRowByRow(rows, id, o, price, fees, pl);
    ShapeKept(rows, rows');
    forall p, s, t | IsBracket(rows', p, s, t) ensures Exact(rows'[p], rows'[s], rows'[t]) {
      assert IsBracket(rows, p, s, t) && id != t;
      assert ClosedOrSame(rows[t], rows'[t]);
      assert s != id ==> ClosedOrSame(rows[s], rows'[s]);
      assert p != id ==> ClosedOrSame(rows[p], rows'[p]);
    }
  }

  /** The step is a slice that trades and sets its target back. */
  ghost predicate SetsTargetBack(db: Db, step: Step)
    requires Sound(db) && StepOk(step)
  {
    step.LimitFillStep? && Trades(db, step) && step.id in db.orders
    && SetsBack(db.orders, step.id, step.snapshot, step.fillQty)
  }

  /** One transaction on a reading of any age keeps every open stop exact exactly when it sets no target back. */
  lemma StopsExactNextIff(db: Db, step: Step)
    requires Sound(db) && Stale(db, step) && Base(db.orders) && StopsExact(db.orders)
    ensures StopsExact(Next(db, step).orders) <==> !SetsTargetBack(db, step)
  {
    hide StopsExact, SetsBack;
    var rows := db.orders;
    if step.LimitFillStep? {
      var o := step.snapshot;
      LimitFillTrades(db, step);
      if Trades(db, step) {
        SliceExactIff(rows, step.id, o, step.fillQty, step.price, step.fees,
                      LegPl(db, o.side, o.symbol, SliceQty(o, step.fillQty), step.price, step.fees));
      }
    } else if step.FillPendingStep? {
      var o := step.snapshot;
      FillPendingTrades(db, step);
      if Trades(db, step) {
        MarketFillKeepsExact(rows, step.id, o, step.price, step.fees,
                             LegPl(db, o.side, o.symbol, o.qty, step.price, step.fees));
      }
    } else {
      OtherStepsKeepExact(db, step);
    }
  }

  ghost predicate StopsExactAlong(db: Db, steps: seq<Step>)
    requires Sound(db) && StepsOk(steps)
  {
    forall n: nat :: n <= |steps| ==> StopsExact(TableAt(db, steps, n))
  }

  ghost predicate NoneSetBack(db: Db, steps: seq<Step>)
    requires Sound(db) && StepsOk(steps)
  {
    forall k :: 0 <= k < |steps| ==> !SetsTargetBack(Run(db, steps[..k]), steps[k])
  }

  lemma {:induction false} StopsExactUpTo(db: Db, steps: seq<Step>, n: nat)
    requires Sound(db) && StepsOk(steps) && StaleAlong(db, steps) && NoneSetBack(db, steps)
    requires Base(db.orders) && StopsExact(db.orders) && n <= |steps|
    ensures StopsExact(TableAt(db, steps, n))
  {
    hide StopsExact, Base, Stale, SetsTargetBack, Next, Sound;
    if n == 0 {
      assert steps[..0] == [];
    } else {
      StopsExactUpTo(db, steps, n - 1);
      BaseAlways(db, steps, n);
      BaseAlways(db, steps, n - 1);
      RunNext(db, steps, n - 1);
      StopsExactNextIff(Run(db, steps[..n - 1]), steps[n - 1]);
    }
  }

  /** Over any run on readings of any age: an open stop covers exactly what its target has not sold, no
      share more and no share less, at every point of the run, if and only if no slice that traded set
      a target back. */
  lemma StopsExactIffNoneSetBack(db: Db, steps: seq<Step>)
    requires Sound(db) && StepsOk(steps) && StaleAlong(db, steps) && Base(db.orders) && StopsExact(db.orders)
    ensures StopsExactAlong(db, steps) <==> NoneSetBack(db, steps)
  {
    hide StopsExact, Base, Stale, SetsTargetBack, Next;
    if NoneSetBack(db, steps) {
      forall n: nat | n <= |steps| ensures StopsExact(TableAt(db, steps, n)) {
        StopsExactUpTo(db, steps, n);
      }
    }
    if StopsExactAlong(db, steps) {
      forall k | 0 <= k < |steps| ensures !SetsTargetBack(Run(db, steps[..k]), steps[k]) {
        BaseAlways(db, steps, k + 1);
        BaseAlways(db, steps, k);
        RunNext(db, steps, k);
        assert StopsExact(TableAt(db, steps, k)) && StopsExact(TableAt(db, steps, k + 1));
        StopsExactNextIff(Run(db, steps[..k]), steps[k]);
      }
    }
  }

  /** A slice computed from the row's own figures sets nothing back. */
  lemma UpToDateSetsNothingBack(db: Db, steps: seq<Step>)
    requires Sound(db) && StepsOk(steps) && UpToDateAlong(db, steps)
    ensures NoneSetBack(db, steps)
  {
    forall k | 0 <= k < |steps| ensures !SetsTargetBack(Run(db, steps[..k]), steps[k]) {
      assert UpToDate(Run(db, steps[..k]), steps[k]);
    }
  }

  /** From opening, when slices were up to date: an open stop is for what its target has not sold. */
  lemma {:induction false} StopCoversTheRest(capital: real, steps: seq<Step>, p: Id, s: Id, t: Id)
    requires capital >= 0.0 && StepsOk(steps) && Sound(OpenAccount(capital))
    requires StaleAlong(OpenAccount(capital), steps) && UpToDateAlong(OpenAccount(capital), steps)
    requires IsBracket(Run(OpenAccount(capital), steps).orders, p, s, t)
    ensures var rows := Run(OpenAccount(capital), steps).orders;
            Open(rows[s]) ==> rows[s].qty + rows[t].filledQty == rows[p].qty
  {
    UpToDateSetsNothingBack(OpenAccount(capital), steps);
    StopsExactUpTo(OpenAccount(capital), steps, |steps|);
    assert steps[..|steps|] == steps;
    assert StopsExact(TableAt(OpenAccount(capital), steps, |steps|));
  }

  // ----- the same bound on the shares traded -----

  /** What the children traded is within what the parent traded. */
  ghost predicate TradesCovered(db: Db, p: Id, s: Id, t: Id) {
    TradeSum(QtyOf(t), db.trades) + TradeSum(QtyOf(s), db.trades) <= TradeSum(QtyOf(p), db.trades)
  }

  /** From opening, when besides every limit slice that traded was up to date: the shares the two
      children traded never exceed the shares the parent traded. */
  lemma {:induction false} ChildrenNeverOvertrade(capital: real, steps: seq<Step>, p: Id, s: Id, t: Id)
    requires capital >= 0.0 && StepsOk(steps) && Sound(OpenAccount(capital))
    requires StaleAlong(OpenAccount(capital), steps) && StopsFitAlong(OpenAccount(capital), steps)
    requires UpToDateAlong(OpenAccount(capital), steps)
    requires IsBracket(Run(OpenAccount(capital), steps).orders, p, s, t)
    ensures TradesCovered(Run(OpenAccount(capital), steps), p, s, t)
  {
    BracketExposure(capital, steps, p, s, t);
    FourStoresAgree(capital, steps);
    var db := Run(OpenAccount(capital), steps);
    assert RowAgrees(p, db.orders[p], db.trades) && RowAgrees(s, db.orders[s], db.trades)
        && RowAgrees(t, db.orders[t], db.trades);
  }

  lemma FillRecorded(db: Db, step: Step) returns (traded: Trade)
    requires Sound(db) && StepOk(step) && IsFill(step) && Trades(db, step)
    ensures Next(db, step).trades == db.trades + [traded] && traded.orderId == step.id
    ensures traded.qty == if step.LimitFillStep? then SliceQty(step.snapshot, step.fillQty) else step.snapshot.qty
  {
    var o := step.snapshot;
    var qty := if step.LimitFillStep? then SliceQty(o, step.fillQty) else o.qty;
    LegEffect(db, step.id, o.symbol, o.side, qty, step.price, step.fees,
              ExecuteLeg(db, step.id, o.symbol, o.side, qty, step.price, step.fees).db);
    traded := Next(db, step).trades[|db.trades|];
  }

  /** A child's fill that trades, from a reading of any age, on an account whose orders and trades agree
      and whose brackets are safe: the children's trades stay within the parent's exactly when the
      shares it takes are still uncovered. For a target the read fill figure and the slice asked for
      decide how many it takes; for a stop the read quantity does. */
  lemma ChildFillCoveredIff(db: Db, step: Step, p: Id, s: Id, t: Id)
    requires Sound(db) && Stale(db, step) && Inv(db.orders) && OrdersAgree(db)
    requires IsBracket(db.orders, p, s, t) && IsFill(step) && (step.id == s || step.id == t) && Trades(db, step)
    ensures var taken := if step.LimitFillStep? then SliceQty(step.snapshot, step.fillQty) else step.snapshot.qty;
            TradesCovered(Next(db, step), p, s, t) <==>
            db.orders[t].filledQty + taken <= db.orders[p].filledQty
  {
    var traded := FillRecorded(db, step);
    TradeSumSnoc(QtyOf(p), db.trades, traded);
    TradeSumSnoc(QtyOf(s), db.trades, traded);
    TradeSumSnoc(QtyOf(t), db.trades, traded);
    ChildIsOpenStopUnfilled(db, step, p, s, t);
    assert RowAgrees(p, db.orders[p], db.trades) && RowAgrees(s, db.orders[s], db.trades)
        && RowAgrees(t, db.orders[t], db.trades);
  }

  lemma ChildIsOpenStopUnfilled(db: Db, step: Step, p: Id, s: Id, t: Id)
    requires Sound(db) && Stale(db, step) && Inv(db.orders)
    requires IsBracket(db.orders, p, s, t) && IsFill(step) && (step.id == s || step.id == t) && Trades(db, step)
    ensures db.orders[s].filledQty == 0.0 && p != s && p != t && s != t
  {
    assert IsChild(db.orders, s) && IsChild(db.orders, t) && Safe(db.orders[p], db.orders[s], db.orders[t]);
    if step.LimitFillStep? {
      LimitFillTrades(db, step);
    } else {
      FillPendingTrades(db, step);
    }
  }
}
