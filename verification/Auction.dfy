/** The pre-open call auction: one clearing price for a two-sided book of limit
    orders, then a first-in-first-out allocation on each side. */
module Auction {
  import opened Domain
  import opened Wrappers

  datatype BookRow = BookRow(price: real, qty: real, orderId: nat, submissionSeq: int)

  datatype Fill = Fill(orderId: nat, qty: real, price: real)

  datatype AuctionMatch = AuctionMatch(equilibriumPrice: Option<real>, matchedVolume: real, fills: seq<Fill>)

  const NO_MATCH := AuctionMatch(None, 0.0, [])

  // ----- what one side of the book is willing to trade at a price -----

  predicate Willing(side: Side, row: BookRow, p: real) {
    if side == Buy then row.price >= p else row.price <= p
  }

  function Eligible(side: Side, rows: seq<BookRow>, p: real): seq<BookRow> {
    if rows == [] then []
    else (if Willing(side, rows[0], p) then [rows[0]] else []) + Eligible(side, rows[1..], p)
  }

  function Total(rows: seq<BookRow>): real {
    if rows == [] then 0.0 else rows[0].qty + Total(rows[1..])
  }

  function Volume(side: Side, rows: seq<BookRow>, p: real): real {
    if rows == [] then 0.0
    else (if Willing(side, rows[0], p) then rows[0].qty else 0.0) + Volume(side, rows[1..], p)
  }

  function Executable(buys: seq<BookRow>, sells: seq<BookRow>, p: real): real {
    Min(Volume(Buy, buys, p), Volume(Sell, sells, p))
  }

  function Imbalance(buys: seq<BookRow>, sells: seq<BookRow>, p: real): real {
    Abs(Volume(Buy, buys, p) - Volume(Sell, sells, p))
  }

  ghost predicate NonNegative(rows: seq<BookRow>) {
    forall i :: 0 <= i < |rows| ==> rows[i].qty >= 0.0
  }

  ghost predicate Positive(rows: seq<BookRow>) {
    forall i :: 0 <= i < |rows| ==> rows[i].qty > 0.0
  }

  // ----- candidate prices and the score that ranks them -----

  ghost predicate IsLimit(rows: seq<BookRow>, p: real) {
    exists i :: 0 <= i < |rows| && rows[i].price == p
  }

  ghost predicate IsCandidate(buys: seq<BookRow>, sells: seq<BookRow>, p: real) {
    IsLimit(buys, p) || IsLimit(sells, p)
  }

  function InsertPrice(sorted: seq<real>, p: real): seq<real> {
    if sorted == [] || p < sorted[0] then [p] + sorted
    else if p == sorted[0] then sorted
    else [sorted[0]] + InsertPrice(sorted[1..], p)
  }

  /** The distinct limit prices of `rows` and of `acc`, in ascending order. */
  function DistinctPrices(rows: seq<BookRow>, acc: seq<real>): seq<real>
    decreases |rows|
  {
    if rows == [] then acc else DistinctPrices(rows[1..], InsertPrice(acc, rows[0].price))
  }

  function BestPrice(side: Side, rows: seq<BookRow>): (p: real)
    requires rows != []
    ensures IsLimit(rows, p)
    ensures forall i :: 0 <= i < |rows| ==> if side == Buy then rows[i].price <= p else p <= rows[i].price
  {
    if |rows| == 1 then assert rows[0].price == rows[0].price; rows[0].price
    else
      var rest := BestPrice(side, rows[1..]);
      assert forall i :: 1 <= i < |rows| ==> rows[i] == rows[1..][i - 1];
      if side == Buy then Max(rows[0].price, rest) else Min(rows[0].price, rest)
  }

  datatype Score = Score(volume: real, imbalance: real, proximity: real, price: real)

  function ScoreAt(buys: seq<BookRow>, sells: seq<BookRow>, reference: real, p: real): Score {
    Score(Executable(buys, sells, p), Imbalance(buys, sells, p), Abs(p - reference), p)
  }

  /** Larger volume first, then smaller imbalance, then nearer the reference, then the higher price. */
  predicate Beats(a: Score, b: Score) {
    if a.volume != b.volume then a.volume > b.volume
    else if a.imbalance != b.imbalance then a.imbalance < b.imbalance
    else if a.proximity != b.proximity then a.proximity < b.proximity
    else a.price > b.price
  }

  ghost predicate Crosses(buys: seq<BookRow>, sells: seq<BookRow>) {
    exists i, j :: 0 <= i < |buys| && 0 <= j < |sells| && buys[i].price >= sells[j].price
  }

  function Reference(buys: seq<BookRow>, sells: seq<BookRow>, reference: Option<real>): real
    requires buys != [] && sells != []
  {
    reference.GetOr((BestPrice(Buy, buys) + BestPrice(Sell, sells)) / 2.0)
  }

  /** `p` is a limit price with something to trade that no other such price beats. */
  ghost predicate IsClearing(buys: seq<BookRow>, sells: seq<BookRow>, reference: real, p: real) {
    && IsCandidate(buys, sells, p)
    && Executable(buys, sells, p) > 0.0
    && forall q :: IsCandidate(buys, sells, q) && Executable(buys, sells, q) > 0.0 ==>
         !Beats(ScoreAt(buys, sells, reference, q), ScoreAt(buys, sells, reference, p))
  }

  ghost predicate Unmatched(buys: seq<BookRow>, sells: seq<BookRow>) {
    !Crosses(buys, sells) || forall q :: IsCandidate(buys, sells, q) ==> Executable(buys, sells, q) <= 0.0
  }

  // ----- allocation -----

  function InsertBySeq(row: BookRow, sorted: seq<BookRow>): seq<BookRow> {
    if sorted == [] || row.submissionSeq <= sorted[0].submissionSeq then [row] + sorted
    else [sorted[0]] + InsertBySeq(row, sorted[1..])
  }

  /** Stable sort by submission stamp. */
  function SortBySeq(rows: seq<BookRow>): seq<BookRow> {
    if rows == [] then [] else InsertBySeq(rows[0], SortBySeq(rows[1..]))
  }

  function Fifo(orders: seq<BookRow>, remaining: real, p: real): seq<Fill> {
    if orders == [] || remaining <= 0.0 then []
    else
      var take := Min(orders[0].qty, remaining);
      [Fill(orders[0].orderId, take, p)] + Fifo(orders[1..], remaining - take, p)
  }

  function SideFills(side: Side, rows: seq<BookRow>, volume: real, p: real): seq<Fill> {
    Fifo(SortBySeq(Eligible(side, rows, p)), volume, p)
  }

  ghost predicate IsEquilibrium(buys: seq<BookRow>, sells: seq<BookRow>, reference: Option<real>, m: AuctionMatch) {
    match m.equilibriumPrice
    case None => Unmatched(buys, sells) && m == NO_MATCH
    case Some(p) =>
      && Crosses(buys, sells)
      && IsClearing(buys, sells, Reference(buys, sells, reference), p)
      && m.matchedVolume == Executable(buys, sells, p)
      && m.fills == SideFills(Buy, buys, m.matchedVolume, p) + SideFills(Sell, sells, m.matchedVolume, p)
  }

  method Allocate(orders: seq<BookRow>, volume: real, p: real, before: seq<Fill>) returns (fills: seq<Fill>)
    ensures fills == before + Fifo(orders, volume, p)
  {
    fills := before;
    var remaining := volume;
    var i := 0;
    while i < |orders|
      invariant 0 <= i <= |orders|
      invariant fills + Fifo(orders[i..], remaining, p) == before + Fifo(orders, volume, p)
    {
      if remaining <= 0.0 {
        return;
      }
      var take := Min(orders[i].qty, remaining);
      assert orders[i..][1..] == orders[i + 1..];
      fills := fills + [Fill(orders[i].orderId, take, p)];
      remaining := remaining - take;
      i := i + 1;
    }
  }

  /** The loop over candidate prices: the first score that no later one beats. */
  method BestScore(buys: seq<BookRow>, sells: seq<BookRow>, referencePrice: real, candidates: seq<real>)
    returns (best: Option<Score>)
    ensures best.None? ==> forall j :: 0 <= j < |candidates| ==> Executable(buys, sells, candidates[j]) <= 0.0
    ensures best.Some? ==>
              && best.value.price in candidates
              && best.value == ScoreAt(buys, sells, referencePrice, best.value.price)
              && best.value.volume > 0.0
              && forall j :: 0 <= j < |candidates| && Executable(buys, sells, candidates[j]) > 0.0 ==>
                   !Beats(ScoreAt(buys, sells, referencePrice, candidates[j]), best.value)
  {
    best := None;
    var i := 0;
    while i < |candidates|
      invariant 0 <= i <= |candidates|
      invariant best.None? ==> forall j :: 0 <= j < i ==> Executable(buys, sells, candidates[j]) <= 0.0
      invariant best.Some? ==>
                  && best.value.price in candidates[..i]
                  && best.value == ScoreAt(buys, sells, referencePrice, best.value.price)
                  && best.value.volume > 0.0
                  && forall j :: 0 <= j < i && Executable(buys, sells, candidates[j]) > 0.0 ==>
                       !Beats(ScoreAt(buys, sells, referencePrice, candidates[j]), best.value)
    {
      var p := candidates[i];
      var buyVol, sellVol := Volume(Buy, buys, p), Volume(Sell, sells, p);
      var vol := Min(buyVol, sellVol);
      if vol > 0.0 {
        var score := Score(vol, Abs(buyVol - sellVol), Abs(p - referencePrice), p);
        if best.None? || Beats(score, best.value) {
          best := Some(score);
        }
      }
      i := i + 1;
    }
  }

  method ComputeEquilibrium(buys: seq<BookRow>, sells: seq<BookRow>, reference: Option<real>)
    returns (m: AuctionMatch)
    ensures IsEquilibrium(buys, sells, reference, m)
  {
    hide Volume, Eligible, SortBySeq, Fifo, DistinctPrices, Beats;
    if buys == [] || sells == [] {
      return NO_MATCH;
    }
    var maxBuy, minSell := BestPrice(Buy, buys), BestPrice(Sell, sells);
    if maxBuy < minSell {
      return NO_MATCH;
    }
    var candidates := DistinctPrices(sells, DistinctPrices(buys, []));
    DistinctPricesExact(buys, []);
    DistinctPricesExact(sells, DistinctPrices(buys, []));
    var referencePrice := reference.GetOr((maxBuy + minSell) / 2.0);

    var best := BestScore(buys, sells, referencePrice, candidates);
    if best.None? {
      return NO_MATCH;
    }
    var volume, equilibrium := best.value.volume, best.value.price;
    var fills := Allocate(SortBySeq(Eligible(Buy, buys, equilibrium)), volume, equilibrium, []);
    fills := Allocate(SortBySeq(Eligible(Sell, sells, equilibrium)), volume, equilibrium, fills);
    m := AuctionMatch(Some(equilibrium), volume, fills);
  }

  // ----- candidate prices are exactly the limit prices -----

  lemma {:induction false} InsertPriceExact(sorted: seq<real>, p: real, q: real)
    ensures q in InsertPrice(sorted, p) <==> q in sorted || q == p
  {
    if sorted != [] && p > sorted[0] {
      InsertPriceExact(sorted[1..], p, q);
    }
  }

  lemma {:induction false} DistinctPricesExact(rows: seq<BookRow>, acc: seq<real>)
    ensures forall q :: q in DistinctPrices(rows, acc) <==> q in acc || IsLimit(rows, q)
    decreases |rows|
  {
    if rows != [] {
      var next := InsertPrice(acc, rows[0].price);
      DistinctPricesExact(rows[1..], next);
      forall q ensures q in DistinctPrices(rows, acc) <==> q in acc || IsLimit(rows, q) {
        InsertPriceExact(acc, rows[0].price, q);
        assert IsLimit(rows[1..], q) ==> IsLimit(rows, q) by {
          if IsLimit(rows[1..], q) {
            var i :| 0 <= i < |rows[1..]| && rows[1..][i].price == q;
            assert rows[i + 1].price == q;
          }
        }
        if IsLimit(rows, q) && rows[0].price != q {
          var i :| 0 <= i < |rows| && rows[i].price == q;
          assert rows[1..][i - 1].price == q;
        }
      }
    }
  }

  // ----- volume is optimal over every price, not only the limit prices -----

  lemma {:induction false} VolumeNonNegative(side: Side, rows: seq<BookRow>, p: real)
    requires NonNegative(rows)
    ensures Volume(side, rows, p) >= 0.0
  {
    if rows != [] {
      VolumeNonNegative(side, rows[1..], p);
    }
  }

  /** Moving the price against a side (up for buyers, down for sellers) without passing
      any of that side's limits leaves its volume alone; moving it the other way never shrinks it. */
  lemma {:induction false} VolumeMonotone(side: Side, rows: seq<BookRow>, p: real, q: real)
    requires NonNegative(rows)
    requires if side == Buy then q <= p else p <= q
    ensures Volume(side, rows, p) <= Volume(side, rows, q)
  {
    if rows != [] {
      VolumeMonotone(side, rows[1..], p, q);
    }
  }

  lemma {:induction false} VolumeFlat(rows: seq<BookRow>, p: real, q: real)
    requires p <= q
    requires forall i :: 0 <= i < |rows| && rows[i].price >= p ==> rows[i].price >= q
    ensures Volume(Buy, rows, p) == Volume(Buy, rows, q)
  {
    if rows != [] {
      assert forall i :: 0 <= i < |rows[1..]| ==> rows[1..][i] == rows[i + 1];
      VolumeFlat(rows[1..], p, q);
    }
  }

  /** The lowest buy limit at or above `p`, when some buyer is willing at `p`. */
  lemma {:induction false} NextBuyLimit(rows: seq<BookRow>, p: real) returns (q: real)
    requires exists i :: 0 <= i < |rows| && rows[i].price >= p
    ensures p <= q && IsLimit(rows, q)
    ensures forall i :: 0 <= i < |rows| && rows[i].price >= p ==> rows[i].price >= q
  {
    var last := rows[|rows| - 1];
    var init := rows[..|rows| - 1];
    if exists i :: 0 <= i < |init| && init[i].price >= p {
      var r := NextBuyLimit(init, p);
      q := if p <= last.price < r then last.price else r;
      var i :| 0 <= i < |init| && init[i].price == r;
      assert rows[i].price == r && rows[|rows| - 1].price == last.price;
    } else {
      q := last.price;
      assert forall j :: 0 <= j < |init| ==> init[j].price < p && rows[j] == init[j];
      assert p <= q && rows[|rows| - 1].price == q;
    }
    forall i | 0 <= i < |rows| && rows[i].price >= p
      ensures rows[i].price >= q
    {
      assert i < |init| ==> init[i] == rows[i];
    }
  }

  lemma {:induction false} NobodyWilling(side: Side, rows: seq<BookRow>, p: real)
    requires forall i :: 0 <= i < |rows| ==> !Willing(side, rows[i], p)
    ensures Volume(side, rows, p) == 0.0
  {
    if rows != [] {
      NobodyWilling(side, rows[1..], p);
    }
  }

  /** Any price is matched in volume by some limit price. */
  lemma SomeCandidateAsGood(buys: seq<BookRow>, sells: seq<BookRow>, p: real) returns (q: real)
    requires NonNegative(buys) && NonNegative(sells)
    requires Executable(buys, sells, p) > 0.0
    ensures IsCandidate(buys, sells, q) && Crosses(buys, sells)
    ensures Executable(buys, sells, q) >= Executable(buys, sells, p)
  {
    if forall i :: 0 <= i < |buys| ==> !Willing(Buy, buys[i], p) {
      NobodyWilling(Buy, buys, p);
      assert false;
    }
    if forall i :: 0 <= i < |sells| ==> !Willing(Sell, sells[i], p) {
      NobodyWilling(Sell, sells, p);
      assert false;
    }
    q := NextBuyLimit(buys, p);
    VolumeFlat(buys, p, q);
    VolumeMonotone(Sell, sells, p, q);
  }

  /** No price at all, limit price or not, could trade more than the auction matched. */
  lemma EveryPriceTradesAtMost(buys: seq<BookRow>, sells: seq<BookRow>, reference: Option<real>, m: AuctionMatch,
                               p: real)
    requires NonNegative(buys) && NonNegative(sells)
    requires IsEquilibrium(buys, sells, reference, m)
    ensures Executable(buys, sells, p) <= m.matchedVolume
  {
    if Executable(buys, sells, p) > 0.0 {
      var q := SomeCandidateAsGood(buys, sells, p);
      assert m.equilibriumPrice.Some?;
      var r := Reference(buys, sells, reference);
      assert !Beats(ScoreAt(buys, sells, r, q), ScoreAt(buys, sells, r, m.equilibriumPrice.value));
    }
  }

  /** `x[i]` shares for row `i`: within the row's quantity, and only to rows willing at `p`. */
  ghost predicate Feasible(side: Side, rows: seq<BookRow>, p: real, x: seq<real>) {
    && |x| == |rows|
    && forall i :: 0 <= i < |rows| ==> 0.0 <= x[i] <= rows[i].qty && (x[i] > 0.0 ==> Willing(side, rows[i], p))
  }

  lemma {:induction false} FeasibleWithinVolume(side: Side, rows: seq<BookRow>, p: real, x: seq<real>)
    requires Feasible(side, rows, p, x)
    ensures Sum(x) <= Volume(side, rows, p)
  {
    if rows != [] {
      FeasibleWithinVolume(side, rows[1..], p, x[1..]);
    }
  }

  /** Maximum executable volume: whatever single price is chosen, and however shares are handed
      out at that price within each order's limit and quantity, a balanced allocation trades no
      more than the auction does. */
  lemma MaximumVolume(buys: seq<BookRow>, sells: seq<BookRow>, reference: Option<real>, m: AuctionMatch,
                      p: real, bought: seq<real>, sold: seq<real>)
    requires IsEquilibrium(buys, sells, reference, m)
    requires Feasible(Buy, buys, p, bought) && Feasible(Sell, sells, p, sold)
    requires Sum(bought) == Sum(sold)
    ensures Sum(bought) <= m.matchedVolume
  {
    FeasibleWithinVolume(Buy, buys, p, bought);
    FeasibleWithinVolume(Sell, sells, p, sold);
    EveryPriceTradesAtMost(buys, sells, reference, m, p);
  }

  lemma {:induction false} VolumeAppend(side: Side, a: seq<BookRow>, b: seq<BookRow>, p: real)
    ensures Volume(side, a + b, p) == Volume(side, a, p) + Volume(side, b, p)
  {
    if a == [] {
      assert a + b == b;
    } else {
      assert (a + b)[1..] == a[1..] + b;
      VolumeAppend(side, a[1..], b, p);
    }
  }

  function Inserted(rows: seq<BookRow>, i: nat, row: BookRow): seq<BookRow>
    requires i <= |rows|
  {
    rows[..i] + [row] + rows[i..]
  }

  lemma VolumeOfInsertion(side: Side, rows: seq<BookRow>, i: nat, row: BookRow, p: real)
    requires i <= |rows| && row.qty >= 0.0
    ensures Volume(side, Inserted(rows, i, row), p) >= Volume(side, rows, p)
  {
    VolumeAppend(side, rows[..i] + [row], rows[i..], p);
    VolumeAppend(side, rows[..i], [row], p);
    VolumeAppend(side, rows[..i], rows[i..], p);
    assert rows == rows[..i] + rows[i..];
    assert Volume(side, [row], p) >= 0.0;
  }

  lemma MoreVolumeMatchesMore(buys: seq<BookRow>, sells: seq<BookRow>, reference: Option<real>, m: AuctionMatch,
                              buys': seq<BookRow>, sells': seq<BookRow>, reference': Option<real>, m': AuctionMatch)
    requires NonNegative(buys') && NonNegative(sells')
    requires IsEquilibrium(buys, sells, reference, m) && IsEquilibrium(buys', sells', reference', m')
    requires forall p :: Executable(buys, sells, p) <= Executable(buys', sells', p)
    ensures m.matchedVolume <= m'.matchedVolume
  {
    var p := m.equilibriumPrice.GetOr(0.0);
    VolumeNonNegative(Buy, buys', p);
    VolumeNonNegative(Sell, sells', p);
    EveryPriceTradesAtMost(buys', sells', reference', m', p);
  }

  lemma InsertedNonNegative(rows: seq<BookRow>, i: nat, row: BookRow)
    requires NonNegative(rows) && row.qty >= 0.0 && i <= |rows|
    ensures NonNegative(Inserted(rows, i, row))
  {
  }

  /** Adding a buy order anywhere in the book never lowers the matched volume, whatever reference
      price either run used. */
  lemma AddingABuyNeverHurts(buys: seq<BookRow>, sells: seq<BookRow>, reference: Option<real>, m: AuctionMatch,
                             i: nat, row: BookRow, reference': Option<real>, m': AuctionMatch)
    requires NonNegative(buys) && NonNegative(sells) && row.qty >= 0.0 && i <= |buys|
    requires IsEquilibrium(buys, sells, reference, m)
    requires IsEquilibrium(Inserted(buys, i, row), sells, reference', m')
    ensures m.matchedVolume <= m'.matchedVolume
  {
    forall p ensures Executable(buys, sells, p) <= Executable(Inserted(buys, i, row), sells, p) {
      VolumeOfInsertion(Buy, buys, i, row, p);
    }
    InsertedNonNegative(buys, i, row);
    MoreVolumeMatchesMore(buys, sells, reference, m, Inserted(buys, i, row), sells, reference', m');
  }

  lemma AddingASellNeverHurts(buys: seq<BookRow>, sells: seq<BookRow>, reference: Option<real>, m: AuctionMatch,
                              i: nat, row: BookRow, reference': Option<real>, m': AuctionMatch)
    requires NonNegative(buys) && NonNegative(sells) && row.qty >= 0.0 && i <= |sells|
    requires IsEquilibrium(buys, sells, reference, m)
    requires IsEquilibrium(buys, Inserted(sells, i, row), reference', m')
    ensures m.matchedVolume <= m'.matchedVolume
  {
    forall p ensures Executable(buys, sells, p) <= Executable(buys, Inserted(sells, i, row), p) {
      VolumeOfInsertion(Sell, sells, i, row, p);
    }
    InsertedNonNegative(sells, i, row);
    MoreVolumeMatchesMore(buys, sells, reference, m, buys, Inserted(sells, i, row), reference', m');
  }

  lemma {:induction false} WillingRowCounts(side: Side, rows: seq<BookRow>, p: real, i: nat)
    requires i < |rows| && Willing(side, rows[i], p) && NonNegative(rows)
    ensures Volume(side, rows, p) >= rows[i].qty
  {
    if i == 0 {
      VolumeNonNegative(side, rows[1..], p);
    } else {
      WillingRowCounts(side, rows[1..], p, i - 1);
    }
  }

  /** With positive quantities the auction matches exactly when some buy limit reaches some sell limit. */
  lemma MatchesExactlyWhenCrossed(buys: seq<BookRow>, sells: seq<BookRow>, reference: Option<real>, m: AuctionMatch)
    requires Positive(buys) && Positive(sells)
    requires IsEquilibrium(buys, sells, reference, m)
    ensures m.equilibriumPrice.Some? <==> Crosses(buys, sells)
    ensures m.equilibriumPrice.Some? <==> m.matchedVolume > 0.0
  {
    if Crosses(buys, sells) {
      var i, j :| 0 <= i < |buys| && 0 <= j < |sells| && buys[i].price >= sells[j].price;
      WillingRowCounts(Buy, buys, buys[i].price, i);
      WillingRowCounts(Sell, sells, buys[i].price, j);
      assert IsCandidate(buys, sells, buys[i].price);
    }
  }

  /** The clearing price is determined by the book and the reference: ties cannot survive the score. */
  lemma ClearingPriceIsUnique(buys: seq<BookRow>, sells: seq<BookRow>, reference: real, p: real, q: real)
    requires IsClearing(buys, sells, reference, p) && IsClearing(buys, sells, reference, q)
    ensures p == q
  {
    assert !Beats(ScoreAt(buys, sells, reference, p), ScoreAt(buys, sells, reference, q));
    assert !Beats(ScoreAt(buys, sells, reference, q), ScoreAt(buys, sells, reference, p));
  }

  /** Which limit price clears, in plain terms, for a given reference and for the midpoint of the crossing
      range in place of a missing one: no limit price trades more; of those that trade as much none leaves
      a smaller surplus; of those that leave as little none is nearer the reference; and of those as near
      none is higher. */
  lemma ClearsNearestTheReference(buys: seq<BookRow>, sells: seq<BookRow>, reference: Option<real>, m: AuctionMatch,
                                  p: real, high: real, low: real, q: real)
    requires IsEquilibrium(buys, sells, reference, m) && m.equilibriumPrice == Some(p)
    requires IsLimit(buys, high) && forall i :: 0 <= i < |buys| ==> buys[i].price <= high
    requires IsLimit(sells, low) && forall j :: 0 <= j < |sells| ==> low <= sells[j].price
    requires IsLimit(buys, q) || IsLimit(sells, q)
    ensures var r := if reference.Some? then reference.value else (high + low) / 2.0;
            var atP, atQ := Abs(Volume(Buy, buys, p) - Volume(Sell, sells, p)),
              Abs(Volume(Buy, buys, q) - Volume(Sell, sells, q));
            && (IsLimit(buys, p) || IsLimit(sells, p)) && m.matchedVolume == Executable(buys, sells, p)
            && Executable(buys, sells, q) <= m.matchedVolume
            && (Executable(buys, sells, q) == m.matchedVolume ==> atP <= atQ)
            && (Executable(buys, sells, q) == m.matchedVolume && atP == atQ ==>
                  Abs(p - r) <= Abs(q - r) && (Abs(p - r) == Abs(q - r) ==> q <= p))
  {
    hide Volume, Beats, Executable;
    var r := Reference(buys, sells, reference);
    assert BestPrice(Buy, buys) == high && BestPrice(Sell, sells) == low;
    if Executable(buys, sells, q) > 0.0 {
      assert IsCandidate(buys, sells, q);
      Unbeaten(ScoreAt(buys, sells, r, q), ScoreAt(buys, sells, r, p));
    }
  }

  lemma Unbeaten(a: Score, b: Score)
    requires !Beats(a, b)
    ensures a.volume <= b.volume && (a.volume == b.volume ==> b.imbalance <= a.imbalance)
    ensures a.volume == b.volume && a.imbalance == b.imbalance ==>
              b.proximity <= a.proximity && (a.proximity == b.proximity ==> a.price <= b.price)
  {
  }

  /** A book that trades the same at two prices clears at the one the reference is nearer to, and without a
      reference, midway between them, at the higher. */
  lemma ReferenceDecides(m: AuctionMatch, m': AuctionMatch)
    requires var buys, sells := [BookRow(12.0, 10.0, 0, 0)], [BookRow(10.0, 10.0, 1, 1)];
             IsEquilibrium(buys, sells, Some(10.0), m) && IsEquilibrium(buys, sells, None, m')
    ensures m.equilibriumPrice == Some(10.0) && m'.equilibriumPrice == Some(12.0)
    ensures m.matchedVolume == m'.matchedVolume == 10.0
  {
    hide IsEquilibrium, Volume, Reference;
    var buys, sells := [BookRow(12.0, 10.0, 0, 0)], [BookRow(10.0, 10.0, 1, 1)];
    VolumesOfOne(buys[0], sells[0]);
    MatchesExactlyWhenCrossed(buys, sells, Some(10.0), m);
    MatchesExactlyWhenCrossed(buys, sells, None, m');
    assert Crosses(buys, sells) by {
      assert buys[0].price >= sells[0].price;
    }
    assert buys[0].price == 12.0 && sells[0].price == 10.0;
    var p, p' := m.equilibriumPrice.value, m'.equilibriumPrice.value;
    ClearsNearestTheReference(buys, sells, Some(10.0), m, p, 12.0, 10.0, 10.0);
    ClearsNearestTheReference(buys, sells, None, m', p', 12.0, 10.0, 12.0);
  }

  lemma VolumesOfOne(b: BookRow, s: BookRow)
    ensures forall p :: Volume(Buy, [b], p) == if p <= b.price then b.qty else 0.0
    ensures forall p :: Volume(Sell, [s], p) == if s.price <= p then s.qty else 0.0
  {
    assert [b][1..] == [] && [s][1..] == [];
  }

  // ----- the allocation -----

  function SumFills(fills: seq<Fill>): real {
    if fills == [] then 0.0 else fills[0].qty + SumFills(fills[1..])
  }

  /** The orders are served in turn: each but the last in full, the last up to its quantity. */
  ghost predicate FifoPrefix(orders: seq<BookRow>, fills: seq<Fill>, p: real) {
    && |fills| <= |orders|
    && (forall i :: 0 <= i < |fills| ==>
          && fills[i].orderId == orders[i].orderId
          && fills[i].price == p
          && 0.0 <= fills[i].qty <= orders[i].qty)
    && (forall i :: 0 <= i < |fills| - 1 ==> fills[i].qty == orders[i].qty)
  }

  lemma {:induction false} FifoServesInTurn(orders: seq<BookRow>, remaining: real, p: real)
    requires NonNegative(orders)
    requires 0.0 <= remaining <= Total(orders)
    ensures FifoPrefix(orders, Fifo(orders, remaining, p), p)
    ensures SumFills(Fifo(orders, remaining, p)) == remaining
  {
    if orders != [] && remaining > 0.0 {
      var take := Min(orders[0].qty, remaining);
      TotalNonNegative(orders[1..]);
      FifoServesInTurn(orders[1..], remaining - take, p);
      var rest := Fifo(orders[1..], remaining - take, p);
      var all := Fifo(orders, remaining, p);
      assert all == [Fill(orders[0].orderId, take, p)] + rest;
      assert all[1..] == rest;
      assert forall i :: 0 < i < |all| ==> all[i] == rest[i - 1] && orders[i] == orders[1..][i - 1];
    }
  }

  lemma {:induction false} TotalNonNegative(rows: seq<BookRow>)
    requires NonNegative(rows)
    ensures Total(rows) >= 0.0
  {
    if rows != [] {
      TotalNonNegative(rows[1..]);
    }
  }

  lemma {:induction false} EligibleExact(side: Side, rows: seq<BookRow>, p: real)
    ensures Total(Eligible(side, rows, p)) == Volume(side, rows, p)
    ensures forall row :: row in Eligible(side, rows, p) <==> row in rows && Willing(side, row, p)
  {
    if rows != [] {
      EligibleExact(side, rows[1..], p);
      var rest := Eligible(side, rows[1..], p);
      assert rows == [rows[0]] + rows[1..];
      if Willing(side, rows[0], p) {
        assert Eligible(side, rows, p)[1..] == rest;
      } else {
        assert Eligible(side, rows, p) == rest;
      }
    }
  }

  ghost predicate InTurn(rows: seq<BookRow>) {
    forall i, j :: 0 <= i < j < |rows| ==> rows[i].submissionSeq <= rows[j].submissionSeq
  }

  function Stamped(rows: seq<BookRow>, stamp: int): seq<BookRow> {
    if rows == [] then []
    else (if rows[0].submissionSeq == stamp then [rows[0]] else []) + Stamped(rows[1..], stamp)
  }

  lemma {:induction false} InsertBySeqSame(row: BookRow, sorted: seq<BookRow>)
    ensures multiset(InsertBySeq(row, sorted)) == multiset(sorted) + multiset{row}
  {
    if sorted != [] && row.submissionSeq > sorted[0].submissionSeq {
      InsertBySeqSame(row, sorted[1..]);
      assert sorted == [sorted[0]] + sorted[1..];
    }
  }

  lemma ConsInTurn(row: BookRow, rows: seq<BookRow>)
    requires InTurn(rows) && (rows != [] ==> row.submissionSeq <= rows[0].submissionSeq)
    ensures InTurn([row] + rows)
  {
  }

  lemma {:induction false} InsertBySeqOrdered(row: BookRow, sorted: seq<BookRow>)
    requires InTurn(sorted)
    ensures InTurn(InsertBySeq(row, sorted))
  {
    if sorted == [] || row.submissionSeq <= sorted[0].submissionSeq {
      ConsInTurn(row, sorted);
    } else {
      InsertBySeqOrdered(row, sorted[1..]);
      ConsInTurn(sorted[0], InsertBySeq(row, sorted[1..]));
    }
  }

  lemma {:induction false} InsertBySeqTotal(row: BookRow, sorted: seq<BookRow>)
    ensures Total(InsertBySeq(row, sorted)) == row.qty + Total(sorted)
  {
    var r := InsertBySeq(row, sorted);
    if sorted == [] || row.submissionSeq <= sorted[0].submissionSeq {
      assert r[1..] == sorted;
    } else {
      InsertBySeqTotal(row, sorted[1..]);
      assert r[1..] == InsertBySeq(row, sorted[1..]);
    }
  }

  lemma StampedCons(row: BookRow, rows: seq<BookRow>, stamp: int)
    ensures Stamped([row] + rows, stamp) == (if row.submissionSeq == stamp then [row] else []) + Stamped(rows, stamp)
  {
    assert ([row] + rows)[1..] == rows;
  }

  lemma {:induction false} InsertBySeqStable(row: BookRow, sorted: seq<BookRow>, stamp: int)
    ensures Stamped(InsertBySeq(row, sorted), stamp) ==
            (if row.submissionSeq == stamp then [row] else []) + Stamped(sorted, stamp)
  {
    hide Stamped;
    if sorted == [] || row.submissionSeq <= sorted[0].submissionSeq {
      StampedCons(row, sorted, stamp);
    } else {
      InsertBySeqStable(row, sorted[1..], stamp);
      StampedCons(sorted[0], InsertBySeq(row, sorted[1..]), stamp);
      StampedCons(sorted[0], sorted[1..], stamp);
      assert sorted == [sorted[0]] + sorted[1..];
    }
  }

  lemma {:induction false} SortSame(rows: seq<BookRow>)
    ensures multiset(SortBySeq(rows)) == multiset(rows)
  {
    if rows != [] {
      hide InsertBySeq;
      SortSame(rows[1..]);
      InsertBySeqSame(rows[0], SortBySeq(rows[1..]));
      assert rows == [rows[0]] + rows[1..];
    }
  }

  /** The stable sort: same rows, in stamp order, rows with equal stamps left in book order. */
  lemma {:induction false} SortBySeqExact(rows: seq<BookRow>, stamp: int)
    ensures InTurn(SortBySeq(rows))
    ensures multiset(SortBySeq(rows)) == multiset(rows)
    ensures Total(SortBySeq(rows)) == Total(rows)
    ensures Stamped(SortBySeq(rows), stamp) == Stamped(rows, stamp)
  {
    SortSame(rows);
    if rows != [] {
      hide InsertBySeq, InTurn;
      var rest := SortBySeq(rows[1..]);
      SortBySeqExact(rows[1..], stamp);
      InsertBySeqOrdered(rows[0], rest);
      InsertBySeqTotal(rows[0], rest);
      InsertBySeqStable(rows[0], rest, stamp);
    }
  }

  /** One side of the match: exactly `volume` shares, taken first-come-first-served from the
      side's own willing orders, at most one of them in part. */
  lemma SideFillsExact(side: Side, rows: seq<BookRow>, volume: real, p: real)
    requires NonNegative(rows)
    requires 0.0 <= volume <= Volume(side, rows, p)
    ensures SumFills(SideFills(side, rows, volume, p)) == volume
    ensures var queue := SortBySeq(Eligible(side, rows, p));
            && InTurn(queue)
            && (forall row :: row in queue <==> row in rows && Willing(side, row, p))
            && FifoPrefix(queue, SideFills(side, rows, volume, p), p)
  {
    var eligible := Eligible(side, rows, p);
    EligibleExact(side, rows, p);
    SortBySeqExact(eligible, 0);
    var queue := SortBySeq(eligible);
    forall row ensures row in queue <==> row in eligible {
      assert row in queue <==> row in multiset(queue);
      assert row in eligible <==> row in multiset(eligible);
    }
    assert NonNegative(queue) by {
      forall i | 0 <= i < |queue| ensures queue[i].qty >= 0.0 {
        assert queue[i] in queue;
      }
    }
    FifoServesInTurn(queue, volume, p);
  }

  ghost predicate DistinctIds(rows: seq<BookRow>) {
    forall i, j :: 0 <= i < j < |rows| ==> rows[i].orderId != rows[j].orderId
  }

  lemma {:induction false} InsertDistinct(row: BookRow, sorted: seq<BookRow>)
    requires DistinctIds(sorted) && forall r :: r in sorted ==> r.orderId != row.orderId
    ensures DistinctIds(InsertBySeq(row, sorted))
    ensures forall r :: r in InsertBySeq(row, sorted) <==> r == row || r in sorted
  {
    if sorted != [] && row.submissionSeq > sorted[0].submissionSeq {
      InsertDistinct(row, sorted[1..]);
      var rest := InsertBySeq(row, sorted[1..]);
      assert forall r :: r in rest ==> r.orderId != sorted[0].orderId;
    }
  }

  lemma {:induction false} SortDistinct(rows: seq<BookRow>)
    requires DistinctIds(rows)
    ensures DistinctIds(SortBySeq(rows)) && forall r :: r in SortBySeq(rows) <==> r in rows
  {
    if rows != [] {
      SortDistinct(rows[1..]);
      InsertDistinct(rows[0], SortBySeq(rows[1..]));
    }
  }

  lemma {:induction false} EligibleDistinct(side: Side, rows: seq<BookRow>, p: real)
    requires DistinctIds(rows)
    ensures DistinctIds(Eligible(side, rows, p)) && forall r :: r in Eligible(side, rows, p) ==> r in rows
  {
    if rows != [] {
      EligibleDistinct(side, rows[1..], p);
      var rest := Eligible(side, rows[1..], p);
      forall i | 0 <= i < |rest| ensures rest[i].orderId != rows[0].orderId {
        assert rest[i] in rows[1..];
      }
    }
  }

  lemma {:induction false} FifoPositive(orders: seq<BookRow>, remaining: real, p: real)
    requires Positive(orders)
    ensures forall f :: f in Fifo(orders, remaining, p) ==> f.qty > 0.0
  {
    if orders != [] && remaining > 0.0 {
      FifoPositive(orders[1..], remaining - Min(orders[0].qty, remaining), p);
    }
  }

  /** Among orders with positive quantities and one identifier each, no order is served twice and none is
      served nothing. */
  lemma ServedOnce(side: Side, rows: seq<BookRow>, volume: real, p: real)
    requires Positive(rows) && DistinctIds(rows) && 0.0 <= volume <= Volume(side, rows, p)
    ensures var fills := SideFills(side, rows, volume, p);
            && (forall i, j :: 0 <= i < j < |fills| ==> fills[i].orderId != fills[j].orderId)
            && (forall f :: f in fills ==> f.qty > 0.0)
  {
    var queue := SortBySeq(Eligible(side, rows, p));
    SideFillsExact(side, rows, volume, p);
    EligibleDistinct(side, rows, p);
    SortDistinct(Eligible(side, rows, p));
    forall i | 0 <= i < |queue| ensures queue[i].qty > 0.0 {
      assert queue[i] in queue;
    }
    FifoPositive(queue, volume, p);
  }

  /** Conservation: the buy fills and the sell fills both add up to the matched volume, and each
      side is served in turn from the orders willing at the clearing price. */
  lemma {:induction false} AllocationBalances(buys: seq<BookRow>, sells: seq<BookRow>, reference: Option<real>,
                                              m: AuctionMatch)
    returns (bought: seq<Fill>, sold: seq<Fill>)
    requires NonNegative(buys) && NonNegative(sells)
    requires IsEquilibrium(buys, sells, reference, m) && m.equilibriumPrice.Some?
    ensures m.fills == bought + sold
    ensures SumFills(bought) == m.matchedVolume == SumFills(sold)
    ensures var p := m.equilibriumPrice.value;
            && FifoPrefix(SortBySeq(Eligible(Buy, buys, p)), bought, p)
            && FifoPrefix(SortBySeq(Eligible(Sell, sells, p)), sold, p)
  {
    var p := m.equilibriumPrice.value;
    bought, sold := SideFills(Buy, buys, m.matchedVolume, p), SideFills(Sell, sells, m.matchedVolume, p);
    SideFillsExact(Buy, buys, m.matchedVolume, p);
    SideFillsExact(Sell, sells, m.matchedVolume, p);
  }

  lemma {:induction false} SumFillsJoins(a: seq<Fill>, b: seq<Fill>)
    ensures SumFills(a + b) == SumFills(a) + SumFills(b)
  {
    if a == [] {
      assert a + b == b;
    } else {
      assert (a + b)[1..] == a[1..] + b;
      SumFillsJoins(a[1..], b);
    }
  }

  /** The fills of both sides together count every matched share twice. */
  lemma BothSidesCounted(buys: seq<BookRow>, sells: seq<BookRow>, reference: Option<real>, m: AuctionMatch)
    requires NonNegative(buys) && NonNegative(sells)
    requires IsEquilibrium(buys, sells, reference, m)
    ensures SumFills(m.fills) == 2.0 * m.matchedVolume
  {
    if m.equilibriumPrice.Some? {
      var bought, sold := AllocationBalances(buys, sells, reference, m);
      SumFillsJoins(bought, sold);
    }
  }

  // ----- minimum imbalance holds among limit prices, and exactly when over all prices -----

  ghost predicate LeastImbalance(buys: seq<BookRow>, sells: seq<BookRow>, p: real) {
    forall q :: Executable(buys, sells, q) == Executable(buys, sells, p) ==>
      Imbalance(buys, sells, p) <= Imbalance(buys, sells, q)
  }

  /** `a < b` are limit prices with no limit price strictly between them. */
  ghost predicate Neighbours(buys: seq<BookRow>, sells: seq<BookRow>, a: real, b: real) {
    && a < b
    && IsLimit(buys + sells, a) && IsLimit(buys + sells, b)
    && forall i :: 0 <= i < |buys + sells| ==> (buys + sells)[i].price <= a || b <= (buys + sells)[i].price
  }

  /** No gap between neighbouring limit prices trades as much as `p` with less imbalance.
      Inside a gap the buyers are those of its upper end and the sellers those of its lower end. */
  ghost predicate NoBetterGap(buys: seq<BookRow>, sells: seq<BookRow>, p: real) {
    forall a, b :: Neighbours(buys, sells, a, b) ==>
      var buying, selling := Volume(Buy, buys, b), Volume(Sell, sells, a);
      Min(buying, selling) == Executable(buys, sells, p) ==> Imbalance(buys, sells, p) <= Abs(buying - selling)
  }

  lemma {:induction false} VolumeSame(side: Side, rows: seq<BookRow>, p: real, q: real)
    requires forall i :: 0 <= i < |rows| ==> (Willing(side, rows[i], p) <==> Willing(side, rows[i], q))
    ensures Volume(side, rows, p) == Volume(side, rows, q)
  {
    if rows != [] {
      assert forall i :: 0 <= i < |rows[1..]| ==> rows[1..][i] == rows[i + 1];
      VolumeSame(side, rows[1..], p, q);
    }
  }

  lemma GapVolumes(buys: seq<BookRow>, sells: seq<BookRow>, a: real, b: real, q: real)
    requires Neighbours(buys, sells, a, b) && a < q < b
    ensures Volume(Buy, buys, q) == Volume(Buy, buys, b) && Volume(Sell, sells, q) == Volume(Sell, sells, a)
  {
    forall i | 0 <= i < |buys| ensures Willing(Buy, buys[i], q) <==> Willing(Buy, buys[i], b) {
      assert (buys + sells)[i] == buys[i];
    }
    forall i | 0 <= i < |sells| ensures Willing(Sell, sells[i], q) <==> Willing(Sell, sells[i], a) {
      assert (buys + sells)[|buys| + i] == sells[i];
    }
    VolumeSame(Buy, buys, q, b);
    VolumeSame(Sell, sells, q, a);
  }

  lemma {:induction false} PreviousLimit(rows: seq<BookRow>, p: real) returns (q: real)
    requires exists i :: 0 <= i < |rows| && rows[i].price <= p
    ensures q <= p && IsLimit(rows, q)
    ensures forall i :: 0 <= i < |rows| && rows[i].price <= p ==> rows[i].price <= q
  {
    var mirrored := seq(|rows|, i requires 0 <= i < |rows| => rows[i].(price := -rows[i].price));
    var k :| 0 <= k < |rows| && rows[k].price <= p;
    assert mirrored[k].price >= -p;
    var r := NextBuyLimit(mirrored, -p);
    q := -r;
    var j :| 0 <= j < |mirrored| && mirrored[j].price == r;
    assert rows[j].price == q;
    forall i | 0 <= i < |rows| && rows[i].price <= p ensures rows[i].price <= q {
      assert mirrored[i].price >= -p;
    }
  }

  lemma SurroundingNeighbours(buys: seq<BookRow>, sells: seq<BookRow>, q: real) returns (a: real, b: real)
    requires NonNegative(buys) && NonNegative(sells)
    requires Executable(buys, sells, q) > 0.0 && !IsLimit(buys + sells, q)
    ensures Neighbours(buys, sells, a, b) && a < q < b
  {
    var rows := buys + sells;
    if forall i :: 0 <= i < |buys| ==> !Willing(Buy, buys[i], q) {
      NobodyWilling(Buy, buys, q);
      assert false;
    }
    if forall i :: 0 <= i < |sells| ==> !Willing(Sell, sells[i], q) {
      NobodyWilling(Sell, sells, q);
      assert false;
    }
    var i :| 0 <= i < |buys| && Willing(Buy, buys[i], q);
    var j :| 0 <= j < |sells| && Willing(Sell, sells[j], q);
    assert rows[i].price >= q && rows[|buys| + j].price <= q;
    b := NextBuyLimit(rows, q);
    a := PreviousLimit(rows, q);
  }

  lemma CandidateIsLimit(buys: seq<BookRow>, sells: seq<BookRow>, q: real)
    ensures IsCandidate(buys, sells, q) <==> IsLimit(buys + sells, q)
  {
    var rows := buys + sells;
    if IsLimit(buys, q) {
      var i :| 0 <= i < |buys| && buys[i].price == q;
      assert rows[i].price == q;
    }
    if IsLimit(sells, q) {
      var i :| 0 <= i < |sells| && sells[i].price == q;
      assert rows[|buys| + i].price == q;
    }
    if IsLimit(rows, q) {
      var i :| 0 <= i < |rows| && rows[i].price == q;
      assert if i < |buys| then buys[i].price == q else sells[i - |buys|].price == q;
    }
  }

  /** The documented second rule, read over every price with the maximum volume, holds exactly
      when no gap between neighbouring limit prices does better. */
  lemma ImbalanceRuleHoldsIffNoBetterGap(buys: seq<BookRow>, sells: seq<BookRow>, reference: real, p: real)
    requires NonNegative(buys) && NonNegative(sells)
    requires IsClearing(buys, sells, reference, p)
    ensures LeastImbalance(buys, sells, p) <==> NoBetterGap(buys, sells, p)
  {
    if LeastImbalance(buys, sells, p) {
      forall a, b | Neighbours(buys, sells, a, b)
        ensures var buying, selling := Volume(Buy, buys, b), Volume(Sell, sells, a);
                Min(buying, selling) == Executable(buys, sells, p) ==>
                  Imbalance(buys, sells, p) <= Abs(buying - selling)
      {
        var middle := (a + b) / 2.0;
        GapVolumes(buys, sells, a, b, middle);
        assert Executable(buys, sells, middle) == Executable(buys, sells, p) ==>
            Imbalance(buys, sells, p) <= Imbalance(buys, sells, middle);
      }
    }
    if NoBetterGap(buys, sells, p) {
      forall q | Executable(buys, sells, q) == Executable(buys, sells, p)
        ensures Imbalance(buys, sells, p) <= Imbalance(buys, sells, q)
      {
        CandidateIsLimit(buys, sells, q);
        if IsCandidate(buys, sells, q) {
          assert !Beats(ScoreAt(buys, sells, reference, q), ScoreAt(buys, sells, reference, p));
        } else {
          var a, b := SurroundingNeighbours(buys, sells, q);
          GapVolumes(buys, sells, a, b, q);
        }
      }
    }
  }

  /** Buyers and sellers balance, at the matched volume, strictly between two neighbouring limits. */
  ghost predicate BalancedGap(buys: seq<BookRow>, sells: seq<BookRow>, p: real) {
    exists a, b :: Neighbours(buys, sells, a, b)
      && Volume(Buy, buys, b) == Executable(buys, sells, p) == Volume(Sell, sells, a)
  }

  /** In a gap that trades the maximum volume with something left over, the end on the side left over
      is itself a limit price with the same volume and no more left over. */
  lemma UnbalancedGapEnds(buys: seq<BookRow>, sells: seq<BookRow>, reference: real, p: real, a: real, b: real)
    requires NonNegative(buys) && NonNegative(sells)
    requires IsClearing(buys, sells, reference, p) && Neighbours(buys, sells, a, b)
    requires Min(Volume(Buy, buys, b), Volume(Sell, sells, a)) == Executable(buys, sells, p)
    requires Volume(Buy, buys, b) != Volume(Sell, sells, a)
    ensures Imbalance(buys, sells, p) <= Abs(Volume(Buy, buys, b) - Volume(Sell, sells, a))
  {
    var q := if Volume(Buy, buys, b) > Volume(Sell, sells, a) then b else a;
    CandidateIsLimit(buys, sells, q);
    VolumeMonotone(Sell, sells, a, b);
    VolumeMonotone(Buy, buys, b, a);
    var middle := (a + b) / 2.0;
    GapVolumes(buys, sells, a, b, middle);
    NoMoreAtCandidate(buys, sells, reference, p, q);
  }

  lemma NoMoreAtCandidate(buys: seq<BookRow>, sells: seq<BookRow>, reference: real, p: real, q: real)
    requires IsClearing(buys, sells, reference, p) && IsCandidate(buys, sells, q)
    ensures Executable(buys, sells, q) <= Executable(buys, sells, p)
    ensures Executable(buys, sells, q) == Executable(buys, sells, p) ==>
              Imbalance(buys, sells, p) <= Imbalance(buys, sells, q)
  {
    assert Executable(buys, sells, q) > 0.0 ==>
        !Beats(ScoreAt(buys, sells, reference, q), ScoreAt(buys, sells, reference, p));
  }

  /** The documented second rule, least imbalance over every price with the maximum volume, holds
      exactly when the clearing price leaves nothing over or no gap balances. So it fails only when
      buyers and sellers balance strictly between two neighbouring limits and nowhere on one. */
  lemma ImbalanceRuleHoldsIff(buys: seq<BookRow>, sells: seq<BookRow>, reference: real, p: real)
    requires NonNegative(buys) && NonNegative(sells)
    requires IsClearing(buys, sells, reference, p)
    ensures LeastImbalance(buys, sells, p) <==> Imbalance(buys, sells, p) == 0.0 || !BalancedGap(buys, sells, p)
  {
    ImbalanceRuleHoldsIffNoBetterGap(buys, sells, reference, p);
    forall a, b | Neighbours(buys, sells, a, b) && Volume(Buy, buys, b) != Volume(Sell, sells, a)
        && Min(Volume(Buy, buys, b), Volume(Sell, sells, a)) == Executable(buys, sells, p)
      ensures Imbalance(buys, sells, p) <= Abs(Volume(Buy, buys, b) - Volume(Sell, sells, a))
    {
      UnbalancedGapEnds(buys, sells, reference, p, a, b);
    }
    if BalancedGap(buys, sells, p) {
      var a, b :| Neighbours(buys, sells, a, b)
        && Volume(Buy, buys, b) == Executable(buys, sells, p) == Volume(Sell, sells, a);
      assert NoBetterGap(buys, sells, p) ==>
        Imbalance(buys, sells, p) <= Abs(Volume(Buy, buys, b) - Volume(Sell, sells, a));
    }
  }

  lemma VolumeOfTwo(side: Side, a: BookRow, b: BookRow, p: real)
    ensures Volume(side, [a, b], p) ==
            (if Willing(side, a, p) then a.qty else 0.0) + (if Willing(side, b, p) then b.qty else 0.0)
  {
    var rows := [a, b];
    assert rows[1..] == [b];
    assert Volume(side, rows[1..], p) == if Willing(side, b, p) then b.qty else 0.0;
  }

  /** A book on which the clearing price 12 leaves 5 shares unbalanced although 11, which is
      nobody's limit, trades the same volume with nothing left over. */
  lemma ImbalanceRuleCanFail()
    ensures var buys := [BookRow(12.0, 5.0, 0, 0), BookRow(10.0, 10.0, 1, 1)];
            var sells := [BookRow(9.0, 5.0, 2, 2), BookRow(12.0, 5.0, 3, 3)];
            && IsClearing(buys, sells, 10.5, 12.0)
            && Executable(buys, sells, 11.0) == Executable(buys, sells, 12.0)
            && Imbalance(buys, sells, 11.0) < Imbalance(buys, sells, 12.0)
            && !LeastImbalance(buys, sells, 12.0)
  {
    var buys := [BookRow(12.0, 5.0, 0, 0), BookRow(10.0, 10.0, 1, 1)];
    var sells := [BookRow(9.0, 5.0, 2, 2), BookRow(12.0, 5.0, 3, 3)];
    forall q | IsCandidate(buys, sells, q) ensures q in [9.0, 10.0, 12.0] {
    }
    forall q ensures Volume(Buy, buys, q) == (if q <= 12.0 then 5.0 else 0.0) + (if q <= 10.0 then 10.0 else 0.0) {
      VolumeOfTwo(Buy, buys[0], buys[1], q);
    }
    forall q ensures Volume(Sell, sells, q) == (if 9.0 <= q then 5.0 else 0.0) + (if 12.0 <= q then 5.0 else 0.0) {
      VolumeOfTwo(Sell, sells[0], sells[1], q);
    }
    assert buys[0].price == 12.0;
    assert Imbalance(buys, sells, 11.0) == 0.0;
  }

  // ----- what the auction leaves behind -----

  /** A side's queue with what the fills took deducted. */
  function Leftover(queue: seq<BookRow>, remaining: real): seq<BookRow> {
    if queue == [] then []
    else
      var take := if remaining <= 0.0 then 0.0 else Min(queue[0].qty, remaining);
      [queue[0].(qty := queue[0].qty - take)] + Leftover(queue[1..], remaining - take)
  }

  function Unwilling(side: Side, rows: seq<BookRow>, p: real): seq<BookRow> {
    if rows == [] then []
    else (if Willing(side, rows[0], p) then [] else [rows[0]]) + Unwilling(side, rows[1..], p)
  }

  /** Row by row, what is left is the order less its fill. */
  lemma {:induction false} LeftoverIsUnfilled(queue: seq<BookRow>, remaining: real, p: real)
    ensures |Leftover(queue, remaining)| == |queue| && |Fifo(queue, remaining, p)| <= |queue|
    ensures forall i :: 0 <= i < |queue| ==>
              Leftover(queue, remaining)[i] ==
              queue[i].(qty := queue[i].qty - if i < |Fifo(queue, remaining, p)| then Fifo(queue, remaining, p)[i].qty
                                              else 0.0)
  {
    if queue != [] {
      var take := if remaining <= 0.0 then 0.0 else Min(queue[0].qty, remaining);
      LeftoverIsUnfilled(queue[1..], remaining - take, p);
      var left, fills := Leftover(queue, remaining), Fifo(queue, remaining, p);
      assert left[1..] == Leftover(queue[1..], remaining - take);
      if remaining > 0.0 {
        assert fills[1..] == Fifo(queue[1..], remaining - take, p);
      }
      forall i | 0 < i < |queue|
        ensures left[i] == queue[i].(qty := queue[i].qty - if i < |fills| then fills[i].qty else 0.0)
      {
        assert left[i] == left[1..][i - 1] && queue[i] == queue[1..][i - 1];
      }
    }
  }

  lemma {:induction false} ServedInFull(queue: seq<BookRow>, remaining: real)
    requires NonNegative(queue) && remaining == Total(queue)
    ensures forall row :: row in Leftover(queue, remaining) ==> row.qty == 0.0
  {
    if queue != [] {
      TotalNonNegative(queue[1..]);
      var take := if remaining <= 0.0 then 0.0 else Min(queue[0].qty, remaining);
      ServedInFull(queue[1..], remaining - take);
    }
  }

  lemma {:induction false} LeftoverKeepsPrice(queue: seq<BookRow>, remaining: real, row: BookRow)
    requires row in Leftover(queue, remaining)
    ensures exists original :: original in queue && original.price == row.price
  {
    var take := if remaining <= 0.0 then 0.0 else Min(queue[0].qty, remaining);
    if row == queue[0].(qty := queue[0].qty - take) {
      assert queue[0] in queue;
    } else {
      LeftoverKeepsPrice(queue[1..], remaining - take, row);
      var original :| original in queue[1..] && original.price == row.price;
      assert original in queue;
    }
  }

  lemma {:induction false} UnwillingExact(side: Side, rows: seq<BookRow>, p: real, row: BookRow)
    ensures row in Unwilling(side, rows, p) <==> row in rows && !Willing(side, row, p)
  {
    if rows != [] {
      UnwillingExact(side, rows[1..], p, row);
      assert row in rows <==> row == rows[0] || row in rows[1..];
    }
  }

  /** The willing rows of a side in the order they are served. */
  function Queue(side: Side, rows: seq<BookRow>, p: real): seq<BookRow> {
    SortBySeq(Eligible(side, rows, p))
  }

  /** A side's book after the auction. */
  function Residual(side: Side, rows: seq<BookRow>, volume: real, p: real): seq<BookRow> {
    Leftover(Queue(side, rows, p), volume) + Unwilling(side, rows, p)
  }

  predicate Meets(buy: BookRow, sell: BookRow) {
    buy.qty > 0.0 && sell.qty > 0.0 && buy.price >= sell.price
  }

  ghost predicate CrossedBook(buys: seq<BookRow>, sells: seq<BookRow>) {
    exists b, s :: b in buys && s in sells && Meets(b, s)
  }

  lemma WillingQueue(side: Side, rows: seq<BookRow>, p: real, volume: real, row: BookRow)
    requires NonNegative(rows)
    ensures row in Leftover(Queue(side, rows, p), volume) ==> Willing(side, row, p)
    ensures volume == Volume(side, rows, p) && row in Leftover(Queue(side, rows, p), volume) ==> row.qty == 0.0
  {
    var queue := Queue(side, rows, p);
    if row in Leftover(queue, volume) {
      VolumeNonNegative(side, rows, p);
      SideFillsExact(side, rows, Volume(side, rows, p), p);
      LeftoverKeepsPrice(queue, volume, row);
      EligibleExact(side, rows, p);
      SortBySeqExact(Eligible(side, rows, p), 0);
      if volume == Volume(side, rows, p) {
        forall i | 0 <= i < |queue| ensures queue[i].qty >= 0.0 {
          assert queue[i] in queue;
        }
        ServedInFull(queue, volume);
      }
    }
  }

  /** Two orders that still meet come from the willing of one side and the unwilling of the other. */
  lemma ResidualMeets(buys: seq<BookRow>, sells: seq<BookRow>, p: real)
    requires NonNegative(buys) && NonNegative(sells)
    ensures var volume := Executable(buys, sells, p);
            CrossedBook(Residual(Buy, buys, volume, p), Residual(Sell, sells, volume, p)) <==>
            || CrossedBook(Leftover(Queue(Buy, buys, p), volume), Unwilling(Sell, sells, p))
            || CrossedBook(Unwilling(Buy, buys, p), Leftover(Queue(Sell, sells, p), volume))
  {
    hide Leftover, Unwilling, Queue, Volume, Executable;
    var volume := Executable(buys, sells, p);
    ShorterSide(buys, sells, p);
    var boughtLeft, soldLeft := Leftover(Queue(Buy, buys, p), volume), Leftover(Queue(Sell, sells, p), volume);
    forall b, s | b in Residual(Buy, buys, volume, p) && s in Residual(Sell, sells, volume, p) && Meets(b, s)
      ensures (b in boughtLeft && s in Unwilling(Sell, sells, p)) || (b in Unwilling(Buy, buys, p) && s in soldLeft)
    {
      WillingQueue(Buy, buys, p, volume, b);
      WillingQueue(Sell, sells, p, volume, s);
      UnwillingExact(Buy, buys, p, b);
      UnwillingExact(Sell, sells, p, s);
    }
  }

  lemma {:induction false} TotalOfPrefix(rows: seq<BookRow>, i: nat)
    requires 0 < i <= |rows|
    ensures Total(rows[..i]) == rows[0].qty + Total(rows[1..][..i - 1])
  {
    assert rows[..i][1..] == rows[1..][..i - 1];
  }

  /** An order is left with shares exactly when its queue, up to and including it, wants more than the volume. */
  lemma {:induction false} LeftIffBeyond(queue: seq<BookRow>, volume: real, i: nat)
    requires NonNegative(queue) && i < |queue|
    ensures i < |Leftover(queue, volume)|
    ensures Leftover(queue, volume)[i].price == queue[i].price
    ensures Leftover(queue, volume)[i].qty > 0.0 <==> queue[i].qty > 0.0 && Total(queue[..i + 1]) > volume
  {
    LeftoverIsUnfilled(queue, volume, 0.0);
    TotalOfPrefix(queue, i + 1);
    var take := if volume <= 0.0 then 0.0 else Min(queue[0].qty, volume);
    var tail := queue[1..];
    assert Leftover(queue, volume)[1..] == Leftover(tail, volume - take);
    if i == 0 {
      assert tail[..0] == [];
    } else {
      LeftIffBeyond(tail, volume - take, i - 1);
      TotalNonNegative(tail[..i]);
      LastWithinTotal(tail, i - 1);
    }
  }

  lemma {:induction false} LastWithinTotal(rows: seq<BookRow>, i: nat)
    requires NonNegative(rows) && i < |rows|
    ensures Total(rows[..i + 1]) >= rows[i].qty
  {
    TotalOfPrefix(rows, i + 1);
    if i == 0 {
      assert rows[1..][..0] == [];
    } else {
      LastWithinTotal(rows[1..], i - 1);
    }
  }

  /** Some willing order, whose queue up to and including it wants more than the volume, reaches the price
      of an unwilling order of the other side; both have shares. */
  ghost predicate ReachesBeyond(side: Side, rows: seq<BookRow>, others: seq<BookRow>, volume: real, p: real) {
    var queue := Queue(side, rows, p);
    exists i, other :: 0 <= i < |queue| && other in others
      && queue[i].qty > 0.0 && Total(queue[..i + 1]) > volume
      && other.qty > 0.0 && !Willing(Opposite(side), other, p)
      && (if side == Buy then queue[i].price >= other.price else other.price >= queue[i].price)
  }

  lemma QueueNonNegative(side: Side, rows: seq<BookRow>, p: real)
    requires NonNegative(rows)
    ensures NonNegative(Queue(side, rows, p))
  {
    var queue := Queue(side, rows, p);
    VolumeNonNegative(side, rows, p);
    SideFillsExact(side, rows, Volume(side, rows, p), p);
    forall i | 0 <= i < |queue| ensures queue[i].qty >= 0.0 {
      assert queue[i] in queue;
    }
  }

  /** The buyers left over meet the unwilling sellers exactly when one of them reaches beyond. */
  lemma BuyersReach(buys: seq<BookRow>, sells: seq<BookRow>, volume: real, p: real)
    requires NonNegative(buys)
    ensures CrossedBook(Leftover(Queue(Buy, buys, p), volume), Unwilling(Sell, sells, p)) <==>
            ReachesBeyond(Buy, buys, sells, volume, p)
  {
    hide Leftover, Unwilling, Queue, Total, Volume;
    var queue := Queue(Buy, buys, p);
    var left, unwilling := Leftover(queue, volume), Unwilling(Sell, sells, p);
    QueueNonNegative(Buy, buys, p);
    LeftoverIsUnfilled(queue, volume, 0.0);
    if CrossedBook(left, unwilling) {
      var b, s :| b in left && s in unwilling && Meets(b, s);
      var i: nat :| i < |left| && left[i] == b;
      LeftIffBeyond(queue, volume, i);
      UnwillingExact(Sell, sells, p, s);
    }
    if ReachesBeyond(Buy, buys, sells, volume, p) {
      var i: nat, s :| i < |queue| && s in sells && queue[i].qty > 0.0 && Total(queue[..i + 1]) > volume
        && s.qty > 0.0 && !Willing(Sell, s, p) && queue[i].price >= s.price;
      LeftIffBeyond(queue, volume, i);
      UnwillingExact(Sell, sells, p, s);
      assert left[i] in left && Meets(left[i], s);
    }
  }

  lemma SellersReach(buys: seq<BookRow>, sells: seq<BookRow>, volume: real, p: real)
    requires NonNegative(sells)
    ensures CrossedBook(Unwilling(Buy, buys, p), Leftover(Queue(Sell, sells, p), volume)) <==>
            ReachesBeyond(Sell, sells, buys, volume, p)
  {
    hide Leftover, Unwilling, Queue, Total, Volume;
    var queue := Queue(Sell, sells, p);
    var left, unwilling := Leftover(queue, volume), Unwilling(Buy, buys, p);
    QueueNonNegative(Sell, sells, p);
    LeftoverIsUnfilled(queue, volume, 0.0);
    if CrossedBook(unwilling, left) {
      var b, s :| b in unwilling && s in left && Meets(b, s);
      var i: nat :| i < |left| && left[i] == s;
      LeftIffBeyond(queue, volume, i);
      UnwillingExact(Buy, buys, p, b);
    }
    if ReachesBeyond(Sell, sells, buys, volume, p) {
      var i: nat, b :| i < |queue| && b in buys && queue[i].qty > 0.0 && Total(queue[..i + 1]) > volume
        && b.qty > 0.0 && !Willing(Buy, b, p) && b.price >= queue[i].price;
      LeftIffBeyond(queue, volume, i);
      UnwillingExact(Buy, buys, p, b);
      assert left[i] in left && Meets(b, left[i]);
    }
  }

  /** First-in-first-out is not price priority. Read off the book before anything is allocated: what the
      auction leaves is crossed exactly when some willing order whose queue, up to and including it, wants
      more than the volume reaches an unwilling order of the other side. */
  lemma ResidualCrossedIff(buys: seq<BookRow>, sells: seq<BookRow>, p: real)
    requires NonNegative(buys) && NonNegative(sells)
    ensures var volume := Executable(buys, sells, p);
            CrossedBook(Residual(Buy, buys, volume, p), Residual(Sell, sells, volume, p)) <==>
            ReachesBeyond(Buy, buys, sells, volume, p) || ReachesBeyond(Sell, sells, buys, volume, p)
  {
    hide Residual, ReachesBeyond, CrossedBook, Leftover, Unwilling, Queue;
    ResidualMeets(buys, sells, p);
    BuyersReach(buys, sells, Executable(buys, sells, p), p);
    SellersReach(buys, sells, Executable(buys, sells, p), p);
  }

  lemma ShorterSide(buys: seq<BookRow>, sells: seq<BookRow>, p: real)
    ensures var volume := Executable(buys, sells, p);
            volume == Volume(Buy, buys, p) || volume == Volume(Sell, sells, p)
  {
  }

  lemma SortOfTwo(a: BookRow, b: BookRow)
    requires a.submissionSeq <= b.submissionSeq
    ensures SortBySeq([a, b]) == [a, b]
  {
    assert [a, b][1..] == [b] && [b][1..] == [];
    assert SortBySeq([b]) == [b];
  }

  lemma ClearsAtEleven(buys: seq<BookRow>, sells: seq<BookRow>)
    requires buys == [BookRow(12.0, 5.0, 0, 0), BookRow(10.0, 5.0, 1, 1)]
    requires sells == [BookRow(11.0, 5.0, 2, 2), BookRow(9.0, 5.0, 3, 3)]
    ensures IsClearing(buys, sells, 10.5, 11.0) && Executable(buys, sells, 11.0) == 5.0
  {
    hide Volume;
    forall q | IsCandidate(buys, sells, q) ensures q in [9.0, 10.0, 11.0, 12.0] {
    }
    forall q ensures Volume(Buy, buys, q) == (if q <= 12.0 then 5.0 else 0.0) + (if q <= 10.0 then 5.0 else 0.0) {
      VolumeOfTwo(Buy, buys[0], buys[1], q);
    }
    forall q ensures Volume(Sell, sells, q) == (if 11.0 <= q then 5.0 else 0.0) + (if 9.0 <= q then 5.0 else 0.0) {
      VolumeOfTwo(Sell, sells[0], sells[1], q);
    }
    assert sells[0].price == 11.0;
  }

  /** A book that clears at 11 and leaves a buyer at 10 and a seller at 9 unserved: the seller at 11
      came first. */
  lemma ResidualCanBeCrossed()
    ensures var buys := [BookRow(12.0, 5.0, 0, 0), BookRow(10.0, 5.0, 1, 1)];
            var sells := [BookRow(11.0, 5.0, 2, 2), BookRow(9.0, 5.0, 3, 3)];
            && IsClearing(buys, sells, 10.5, 11.0) && Executable(buys, sells, 11.0) == 5.0
            && CrossedBook(Residual(Buy, buys, 5.0, 11.0), Residual(Sell, sells, 5.0, 11.0))
  {
    hide IsClearing, Executable, Leftover, Queue, Unwilling;
    var b2, s1, s2 := BookRow(10.0, 5.0, 1, 1), BookRow(11.0, 5.0, 2, 2), BookRow(9.0, 5.0, 3, 3);
    var buys, sells := [BookRow(12.0, 5.0, 0, 0), b2], [s1, s2];
    ClearsAtEleven(buys, sells);
    UnwillingExact(Buy, buys, 11.0, b2);
    assert buys[1] == b2;
    SellersLeftAtNine(s1, s2);
    assert b2 in Residual(Buy, buys, 5.0, 11.0) && s2 in Residual(Sell, sells, 5.0, 11.0) && Meets(b2, s2);
  }

  lemma SellersLeftAtNine(s1: BookRow, s2: BookRow)
    requires s1 == BookRow(11.0, 5.0, 2, 2) && s2 == BookRow(9.0, 5.0, 3, 3)
    ensures s2 in Leftover(Queue(Sell, [s1, s2], 11.0), 5.0)
  {
    var sells := [s1, s2];
    assert sells[1..] == [s2] && [s2][1..] == [];
    assert Eligible(Sell, [s2], 11.0) == [s2];
    assert Eligible(Sell, sells, 11.0) == [s1, s2];
    SortOfTwo(s1, s2);
    assert Leftover([s2], 0.0) == [s2];
    assert Leftover(sells, 5.0) == [s1.(qty := 0.0), s2];
  }
}
