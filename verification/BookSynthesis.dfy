/** Where a book comes from: a quote spread over synthetic levels, or a provider's real ladder
    extended by a synthetic tail. */
module BookSynthesis {
  import opened Domain
  import opened Wrappers
  import opened Ticks
  import opened OrderBook

  // ----- the touch -----

  predicate UsableQuote(bid: Option<real>, ask: Option<real>) {
    bid.Some? && ask.Some? && bid.value < ask.value && bid.value > 0.0
  }

  function HalfSpread(last: real, spreadBps: real, tick: real): real {
    Max(last * (spreadBps / 10000.0) / 2.0, tick / 2.0)
  }

  function RawBid(cfg: OrderBookConfig, last: real, bid: Option<real>, ask: Option<real>, tick: real): real {
    if UsableQuote(bid, ask) then bid.value else last - HalfSpread(last, cfg.defaultSpreadBps, tick)
  }

  function RawAsk(cfg: OrderBookConfig, last: real, bid: Option<real>, ask: Option<real>, tick: real): real {
    if UsableQuote(bid, ask) then ask.value else last + HalfSpread(last, cfg.defaultSpreadBps, tick)
  }

  /** Snapped to the tick grid, unless that would give zero. */
  function Snapped(price: real, tick: real): real {
    if RoundToTick(price, tick) != 0.0 then RoundToTick(price, tick) else price
  }

  // ----- building -----

  function LevelSize(sizeAt: nat -> int, i: nat): int {
    MaxInt(1, sizeAt(i))
  }

  function Asks(ask: real, tick: real, sizeAt: nat -> int, n: nat): seq<BookLevel> {
    if n == 0 then []
    else Asks(ask, tick, sizeAt, n - 1) + [BookLevel(ask + Grid(n - 1, tick), LevelSize(sizeAt, n - 1))]
  }

  function Bids(bid: real, tick: real, sizeAt: nat -> int, n: nat): seq<BookLevel> {
    if n == 0 then []
    else
      var price := bid - Grid(n - 1, tick);
      Bids(bid, tick, sizeAt, n - 1) + if price > 0.0 then [BookLevel(price, LevelSize(sizeAt, n - 1))] else []
  }

  /** `sizeAt` gives the rounded size of each level before the floor of one share. */
  method Synthesize(cfg: OrderBookConfig, last: real, bid: Option<real>, ask: Option<real>, tick: real,
                    sizeAt: nat -> int)
    returns (book: Book)
    ensures book.bids == Bids(Snapped(RawBid(cfg, last, bid, ask, tick), tick), tick, sizeAt, cfg.levels)
    ensures book.asks == Asks(Snapped(RawAsk(cfg, last, bid, ask, tick), tick), tick, sizeAt, cfg.levels)
    ensures book.last == last
  {
    var touchBid, touchAsk := bid.GetOr(0.0), ask.GetOr(0.0);
    if bid.None? || ask.None? || touchBid >= touchAsk || touchBid <= 0.0 {
      var half := HalfSpread(last, cfg.defaultSpreadBps, tick);
      touchBid, touchAsk := last - half, last + half;
    }
    var snappedBid := RoundToTick(touchBid, tick);
    touchBid := if snappedBid != 0.0 then snappedBid else touchBid;
    var snappedAsk := RoundToTick(touchAsk, tick);
    touchAsk := if snappedAsk != 0.0 then snappedAsk else touchAsk;

    var bids: seq<BookLevel>, asks: seq<BookLevel> := [], [];
    for i := 0 to cfg.levels
      invariant bids == Bids(touchBid, tick, sizeAt, i) && asks == Asks(touchAsk, tick, sizeAt, i)
    {
      var size := LevelSize(sizeAt, i);
      var bidPrice := touchBid - Grid(i, tick);
      if bidPrice > 0.0 {
        bids := bids + [BookLevel(bidPrice, size)];
      }
      asks := asks + [BookLevel(touchAsk + Grid(i, tick), size)];
    }
    book := Book(bids, asks, last);
  }

  // ----- a synthesized book is best-first and uncrossed -----

  /** Both sides best-first with shares at every level, every bid positive and at most every ask. */
  ghost predicate SoundBook(book: Book) {
    && BestFirst(Sell, book.bids) && BestFirst(Buy, book.asks)
    && (forall i :: 0 <= i < |book.bids| ==> book.bids[i].size >= 1 && book.bids[i].price > 0.0)
    && (forall j :: 0 <= j < |book.asks| ==> book.asks[j].size >= 1)
    && (forall i, j :: 0 <= i < |book.bids| && 0 <= j < |book.asks| ==> book.bids[i].price <= book.asks[j].price)
  }

  lemma GridNonNegative(n: nat, tick: real)
    requires tick > 0.0
    ensures Grid(n, tick) >= 0.0
  {
    GridEnds(tick);
    if n > 0 {
      NextGrid(0, n, tick);
    }
  }

  lemma {:induction false} AsksSound(ask: real, tick: real, sizeAt: nat -> int, n: nat)
    requires tick > 0.0
    ensures var asks := Asks(ask, tick, sizeAt, n);
            && |asks| == n && BestFirst(Buy, asks)
            && (forall j :: 0 <= j < n ==> asks[j].size >= 1 && ask <= asks[j].price <= ask + Grid(n, tick))
  {
    GridNonNegative(n, tick);
    if n > 0 {
      hide Grid;
      AsksSound(ask, tick, sizeAt, n - 1);
      GridNonNegative(n - 1, tick);
      NextGrid(n - 1, n, tick);
    }
  }

  lemma {:induction false} BidsSound(bid: real, tick: real, sizeAt: nat -> int, n: nat)
    requires tick > 0.0
    ensures var bids := Bids(bid, tick, sizeAt, n);
            && BestFirst(Sell, bids)
            && (forall i :: 0 <= i < |bids| ==>
                  bids[i].size >= 1 && bids[i].price > 0.0 && bid - Grid(n, tick) <= bids[i].price <= bid)
  {
    if n > 0 {
      hide Grid;
      BidsSound(bid, tick, sizeAt, n - 1);
      GridNonNegative(n - 1, tick);
      NextGrid(n - 1, n, tick);
    }
  }

  /** Snapping two prices keeps them in order, and makes them equal exactly when both go to the
      same tick. */
  lemma SnappedInOrder(bid: real, ask: real, tick: real)
    requires tick > 0.0 && bid < ask
    ensures Snapped(bid, tick) <= Snapped(ask, tick)
    ensures Snapped(bid, tick) == Snapped(ask, tick) <==> RoundToTick(bid, tick) == RoundToTick(ask, tick) != 0.0
  {
    hide RoundToTick;
    SnapIsMonotone(bid, ask, tick);
    if ask > 0.0 {
      SnapsToZeroIffBelowHalf(ask, tick);
      if bid > 0.0 {
        SnapsToZeroIffBelowHalf(bid, tick);
      } else {
        SnapsNothing(bid, tick);
      }
    } else {
      SnapsNothing(bid, tick);
      SnapsNothing(ask, tick);
    }
  }

  lemma SnapsNothing(price: real, tick: real)
    requires price <= 0.0
    ensures RoundToTick(price, tick) == 0.0
  {
  }

  lemma QuotesApart(cfg: OrderBookConfig, last: real, bid: Option<real>, ask: Option<real>, tick: real)
    requires tick > 0.0
    ensures RawBid(cfg, last, bid, ask, tick) < RawAsk(cfg, last, bid, ask, tick)
  {
  }

  /** Whatever the provider quoted, missing, crossed or negative quotes included, the book built from
      it is best-first on both sides, holds shares at every level and is not crossed. */
  lemma SynthesizedBookIsSound(cfg: OrderBookConfig, last: real, bid: Option<real>, ask: Option<real>, tick: real,
                               sizeAt: nat -> int, book: Book)
    requires tick > 0.0
    requires book.bids == Bids(Snapped(RawBid(cfg, last, bid, ask, tick), tick), tick, sizeAt, cfg.levels)
    requires book.asks == Asks(Snapped(RawAsk(cfg, last, bid, ask, tick), tick), tick, sizeAt, cfg.levels)
    ensures SoundBook(book) && |book.asks| == cfg.levels
  {
    hide Snapped, RawBid, RawAsk, Grid;
    var b, a := RawBid(cfg, last, bid, ask, tick), RawAsk(cfg, last, bid, ask, tick);
    QuotesApart(cfg, last, bid, ask, tick);
    SnappedInOrder(b, a, tick);
    AsksSound(Snapped(a, tick), tick, sizeAt, cfg.levels);
    BidsSound(Snapped(b, tick), tick, sizeAt, cfg.levels);
  }

  // ----- where its levels are -----

  lemma {:induction false} AsksExact(ask: real, tick: real, sizeAt: nat -> int, n: nat)
    ensures var asks := Asks(ask, tick, sizeAt, n);
            |asks| == n && forall j :: 0 <= j < n ==> asks[j] == BookLevel(ask + Grid(j, tick), MaxInt(1, sizeAt(j)))
  {
    hide Grid;
    if n > 0 {
      AsksExact(ask, tick, sizeAt, n - 1);
    }
  }

  lemma {:induction false} BidsExact(bid: real, tick: real, sizeAt: nat -> int, n: nat)
    requires tick > 0.0
    ensures var bids := Bids(bid, tick, sizeAt, n);
            && |bids| <= n && (|bids| < n ==> bid - Grid(|bids|, tick) <= 0.0)
            && forall i :: 0 <= i < |bids| ==>
                 bids[i] == BookLevel(bid - Grid(i, tick), MaxInt(1, sizeAt(i))) && bids[i].price > 0.0
  {
    hide Grid;
    if n > 0 {
      BidsExact(bid, tick, sizeAt, n - 1);
      var before := Bids(bid, tick, sizeAt, n - 1);
      if |before| < n - 1 {
        NextGrid(|before|, n - 1, tick);
      }
    }
  }

  /** `price` is `raw` on the tick grid, at most half a tick away; a raw price below half a tick stays as it is. */
  ghost predicate OnTheGrid(price: real, raw: real, tick: real) {
    if raw + raw < tick then price == raw
    else (exists n: int :: price == Grid(n, tick)) && -tick < 2.0 * (price - raw) <= tick
  }

  lemma SnappedToGrid(raw: real, tick: real)
    requires tick > 0.0
    ensures OnTheGrid(Snapped(raw, tick), raw, tick)
  {
    hide Grid, NearestStep;
    if raw > 0.0 {
      SnapsToZeroIffBelowHalf(raw, tick);
      StepBounds(raw, tick);
    }
  }

  /** The book a quote gives. Its touch is the quoted bid and ask when both are there, positive and in order,
      and otherwise the last price less and plus half the default spread, or half a tick if that is more; each
      is put on the tick grid. From there the levels go out a tick apart with the sizes given, one share at
      least, as many as are asked for, except that bids stop before they would not be positive. */
  lemma SynthesizedLevels(cfg: OrderBookConfig, last: real, bid: Option<real>, ask: Option<real>, tick: real,
                          sizeAt: nat -> int, book: Book)
    returns (b: real, a: real)
    requires tick > 0.0
    requires book.bids == Bids(Snapped(RawBid(cfg, last, bid, ask, tick), tick), tick, sizeAt, cfg.levels)
    requires book.asks == Asks(Snapped(RawAsk(cfg, last, bid, ask, tick), tick), tick, sizeAt, cfg.levels)
    ensures if bid.Some? && ask.Some? && 0.0 < bid.value < ask.value
            then OnTheGrid(b, bid.value, tick) && OnTheGrid(a, ask.value, tick)
            else var half := Max(last * (cfg.defaultSpreadBps / 10000.0) / 2.0, tick / 2.0);
                 OnTheGrid(b, last - half, tick) && OnTheGrid(a, last + half, tick)
    ensures |book.asks| == cfg.levels
    ensures forall j :: 0 <= j < cfg.levels ==> book.asks[j] == BookLevel(a + Grid(j, tick), MaxInt(1, sizeAt(j)))
    ensures |book.bids| <= cfg.levels && (|book.bids| < cfg.levels ==> b - Grid(|book.bids|, tick) <= 0.0)
    ensures forall i :: 0 <= i < |book.bids| ==>
              book.bids[i] == BookLevel(b - Grid(i, tick), MaxInt(1, sizeAt(i))) && book.bids[i].price > 0.0
  {
    hide Snapped, Grid, OnTheGrid;
    var rawBid, rawAsk := RawBid(cfg, last, bid, ask, tick), RawAsk(cfg, last, bid, ask, tick);
    b, a := Snapped(rawBid, tick), Snapped(rawAsk, tick);
    SnappedToGrid(rawBid, tick);
    SnappedToGrid(rawAsk, tick);
    AsksExact(a, tick, sizeAt, cfg.levels);
    BidsExact(b, tick, sizeAt, cfg.levels);
  }

  // ----- impact on a sound book is a true cost -----

  /** On a sound book with a positive mid, a market order of any size fills no better than the mid,
      so the reported impact is the order's true cost and the floor at zero never bites. */
  lemma ImpactIsTrueCost(book: Book, side: Side, qty: int)
    requires SoundBook(book) && book.bids != [] && book.asks != [] && qty >= 0
    requires FilledQty(Greedy(Consumed(book, side), qty)) > 0
    ensures Mid(book).Some? && Mid(book).value > 0.0 && Benchmark(book) == Mid(book).value
    ensures Mid(book).value - book.bids[0].price == book.asks[0].price - Mid(book).value
    ensures var slices := Greedy(Consumed(book, side), qty); var mid := Mid(book).value;
            var avg := Spent(slices) / FilledQty(slices) as real; var impact := Impact(side, avg, mid);
            impact >= 0.0 && impact * mid == (if side == Buy then avg - mid else mid - avg) * 10000.0
  {
    hide Impact, Spent, FilledQty, Greedy;
    var levels, mid := Consumed(book, side), Mid(book).value;
    assert book.bids[0].price <= book.asks[0].price;
    var slices := Greedy(levels, qty);
    AverageAtBest(side, levels, qty);
    ImpactTimesMid(side, Spent(slices) / FilledQty(slices) as real, mid);
  }

  lemma ImpactTimesMid(side: Side, avg: real, mid: real)
    requires mid > 0.0
    ensures Impact(side, avg, mid) * mid == (if side == Buy then avg - mid else mid - avg) * 10000.0
    ensures (if side == Buy then avg >= mid else avg <= mid) ==> Impact(side, avg, mid) >= 0.0
  {
    var gain := if side == Buy then avg - mid else mid - avg;
    if gain >= 0.0 {
      NonNegativeQuotient(gain, mid);
    }
    QuotientTimes(gain, mid);
    assert (gain / mid * 10000.0) * mid == (gain / mid * mid) * 10000.0;
  }

  /** With a side missing, impact is measured against the last price. */
  lemma OneSidedBenchmark(book: Book)
    requires book.bids == [] || book.asks == []
    ensures Benchmark(book) == book.last
  {
  }

  lemma NonNegativeQuotient(x: real, y: real)
    requires x >= 0.0 && y > 0.0
    ensures x / y >= 0.0
  {
  }

  /** No share is cheaper than the first level's. */
  lemma AverageAtBest(side: Side, levels: seq<BookLevel>, qty: int)
    requires BestFirst(side, levels) && Sized(levels) && levels != [] && qty >= 0
    requires FilledQty(Greedy(levels, qty)) > 0
    ensures var avg := Spent(Greedy(levels, qty)) / FilledQty(Greedy(levels, qty)) as real;
            if side == Buy then avg >= levels[0].price else avg <= levels[0].price
  {
    hide Pay;
    hide TotalCost;
    var c := Cost(side, levels[0]);
    var zero, x := Greedily(levels, 0), Greedily(levels, qty);
    MoreReachesFurther(levels, 0, qty);
    NothingCostsNothing(side, levels);
    ExtraSharesCost(side, levels, zero, x, c);
    SlicesAreGreedy(levels, qty);
    SellersCost(levels, x);
    AtLeastAverage(c, TotalCost(side, levels, x), Shares(x));
    NegatedQuotient(Value(levels, x), Shares(x));
  }

  // ----- a real ladder with a synthetic tail -----

  function Positive(ladder: seq<BookLevel>): seq<BookLevel> {
    if ladder == [] then []
    else Positive(ladder[..|ladder| - 1]) + if ladder[|ladder| - 1].price > 0.0 then [ladder[|ladder| - 1]] else []
  }

  lemma {:induction false} PositiveKeeps(ladder: seq<BookLevel>, level: BookLevel)
    ensures level in Positive(ladder) <==> level in ladder && level.price > 0.0
  {
    if ladder != [] {
      var init, last := ladder[..|ladder| - 1], ladder[|ladder| - 1];
      PositiveKeeps(init, level);
      assert level in ladder <==> level in init || level == last;
    }
  }

  lemma {:induction false} PositiveKeepsAll(ladder: seq<BookLevel>)
    requires forall i :: 0 <= i < |ladder| ==> ladder[i].price > 0.0
    ensures Positive(ladder) == ladder
  {
    if ladder != [] {
      PositiveKeepsAll(ladder[..|ladder| - 1]);
    }
  }

  lemma PositiveExact(ladder: seq<BookLevel>)
    ensures forall level :: level in Positive(ladder) <==> level in ladder && level.price > 0.0
    ensures (forall i :: 0 <= i < |ladder| ==> ladder[i].price > 0.0) ==> Positive(ladder) == ladder
    ensures forall i :: 0 <= i < |Positive(ladder)| ==> Positive(ladder)[i].price > 0.0
  {
    hide Positive;
    forall level ensures level in Positive(ladder) <==> level in ladder && level.price > 0.0 {
      PositiveKeeps(ladder, level);
    }
    forall i | 0 <= i < |Positive(ladder)| ensures Positive(ladder)[i].price > 0.0 {
      assert Positive(ladder)[i] in Positive(ladder);
    }
    if forall i :: 0 <= i < |ladder| ==> ladder[i].price > 0.0 {
      PositiveKeepsAll(ladder);
    }
  }

  /** `i` ticks beyond the deepest real level: upwards for asks, downwards for bids. */
  function TailPrice(side: Side, base: real, tick: real, i: nat): real {
    if side == Buy then base + Grid(i, tick) else base - Grid(i, tick)
  }

  /** The synthetic levels from the `i`-th on: `left` of them, or as many as have a positive price. */
  function Tail(side: Side, base: real, tick: real, lastSize: int, sizeAfter: (int, nat) -> int, i: nat,
                left: nat): seq<BookLevel>
    decreases left
  {
    var price := TailPrice(side, base, tick, i);
    if left == 0 || price <= 0.0 then []
    else
      [BookLevel(price, MaxInt(1, sizeAfter(lastSize, i)))] +
      Tail(side, base, tick, lastSize, sizeAfter, i + 1, left - 1)
  }

  /** The provider's levels with a positive price, then a synthetic tail up to `cfg.levels`. The side
      named is the order's: a buy consumes asks. `sizeAfter` gives the decayed size before the floor
      of one share. */
  function Extended(cfg: OrderBookConfig, side: Side, ladder: seq<BookLevel>, tick: real,
                    sizeAfter: (int, nat) -> int): seq<BookLevel>
  {
    var quoted := Positive(ladder);
    if quoted == [] then []
    else
      var last := quoted[|quoted| - 1];
      quoted + Tail(side, last.price, tick, MaxInt(1, last.size), sizeAfter, 1, MaxInt(0, cfg.levels - |quoted|))
  }

  method KeepPositive(ladder: seq<BookLevel>) returns (levels: seq<BookLevel>)
    ensures levels == Positive(ladder)
  {
    levels := [];
    assert ladder[..|ladder|] == ladder;
    for k := 0 to |ladder|
      invariant levels == Positive(ladder[..k])
    {
      assert ladder[..k + 1][..k] == ladder[..k];
      if ladder[k].price > 0.0 {
        levels := levels + [ladder[k]];
      }
    }
  }

  method ExtendLadder(cfg: OrderBookConfig, side: Side, ladder: seq<BookLevel>, tick: real,
                      sizeAfter: (int, nat) -> int)
    returns (levels: seq<BookLevel>)
    ensures levels == Extended(cfg, side, ladder, tick, sizeAfter)
  {
    levels := KeepPositive(ladder);
    if levels == [] {
      return;
    }
    ghost var all := Extended(cfg, side, ladder, tick, sizeAfter);
    var n := |levels|;
    var lastPrice, lastSize := levels[n - 1].price, MaxInt(1, levels[n - 1].size);
    var i: nat := 1;
    while i <= cfg.levels - n
      invariant 1 <= i <= MaxInt(1, cfg.levels - n + 1)
      invariant levels + Tail(side, lastPrice, tick, lastSize, sizeAfter, i, MaxInt(0, cfg.levels - n - i + 1)) == all
    {
      hide TailPrice, Positive;
      var price := TailPrice(side, lastPrice, tick, i);
      if price <= 0.0 {
        break;
      }
      levels := levels + [BookLevel(price, MaxInt(1, sizeAfter(lastSize, i)))];
      i := i + 1;
    }
  }

  // ----- what an extended ladder is -----

  lemma TailMovesAway(side: Side, base: real, tick: real, i: nat, j: nat, a: int, b: int)
    requires tick > 0.0 && i < j
    ensures Cost(side, BookLevel(TailPrice(side, base, tick, i), a)) <
            Cost(side, BookLevel(TailPrice(side, base, tick, j), b))
    ensures TailPrice(side, base, tick, 0) == base
  {
    GridEnds(tick);
    NextGrid(i, j, tick);
  }

  lemma {:induction false} TailLevel(side: Side, base: real, tick: real, lastSize: int, sizeAfter: (int, nat) -> int,
                                     i: nat, left: nat, k: nat)
    requires k < |Tail(side, base, tick, lastSize, sizeAfter, i, left)|
    ensures var price := TailPrice(side, base, tick, i + k);
            Tail(side, base, tick, lastSize, sizeAfter, i, left)[k] ==
            BookLevel(price, MaxInt(1, sizeAfter(lastSize, i + k))) && price > 0.0
    decreases left
  {
    hide TailPrice;
    if k > 0 {
      TailLevel(side, base, tick, lastSize, sizeAfter, i + 1, left - 1, k - 1);
      assert i + 1 + (k - 1) == i + k;
    } else {
      assert i + k == i;
    }
  }

  lemma {:induction false} TailLength(side: Side, base: real, tick: real, lastSize: int, sizeAfter: (int, nat) -> int,
                                      i: nat, left: nat)
    ensures var n := |Tail(side, base, tick, lastSize, sizeAfter, i, left)|;
            n <= left && (n < left ==> TailPrice(side, base, tick, i + n) <= 0.0)
    decreases left
  {
    hide TailPrice;
    if left > 0 && TailPrice(side, base, tick, i) > 0.0 {
      TailLength(side, base, tick, lastSize, sizeAfter, i + 1, left - 1);
      var n := |Tail(side, base, tick, lastSize, sizeAfter, i + 1, left - 1)|;
      assert i + 1 + n == i + (n + 1);
    } else {
      assert i + 0 == i;
    }
  }

  lemma TailExact(side: Side, base: real, tick: real, lastSize: int, sizeAfter: (int, nat) -> int, i: nat, left: nat)
    ensures var tail := Tail(side, base, tick, lastSize, sizeAfter, i, left);
            && |tail| <= left
            && (forall k :: 0 <= k < |tail| ==>
                  && tail[k].price == TailPrice(side, base, tick, i + k) > 0.0
                  && tail[k].size == MaxInt(1, sizeAfter(lastSize, i + k)))
            && (|tail| < left ==> TailPrice(side, base, tick, i + |tail|) <= 0.0)
  {
    hide Tail, TailPrice;
    var tail := Tail(side, base, tick, lastSize, sizeAfter, i, left);
    TailLength(side, base, tick, lastSize, sizeAfter, i, left);
    forall k | 0 <= k < |tail|
      ensures tail[k].price == TailPrice(side, base, tick, i + k) > 0.0
      ensures tail[k].size == MaxInt(1, sizeAfter(lastSize, i + k))
    {
      TailLevel(side, base, tick, lastSize, sizeAfter, i, left, k);
    }
  }

  /** The provider's levels with a positive price come through unchanged and in front, all of them if all are;
      behind them, up to `cfg.levels`, come synthetic ones a tick apart with the sizes given, one share at
      least, stopping only before a price would not be positive. A best-first ladder stays best-first. */
  lemma LadderExtended(cfg: OrderBookConfig, side: Side, ladder: seq<BookLevel>, tick: real,
                       sizeAfter: (int, nat) -> int)
    requires tick > 0.0
    ensures var quoted, levels := Positive(ladder), Extended(cfg, side, ladder, tick, sizeAfter);
            && (forall level :: level in quoted <==> level in ladder && level.price > 0.0)
            && ((forall i :: 0 <= i < |ladder| ==> ladder[i].price > 0.0) ==> quoted == ladder)
            && quoted <= levels && (quoted == [] ==> levels == [])
            && (forall k :: 0 <= k < |levels| ==> levels[k].price > 0.0)
            && (forall k :: |quoted| <= k < |levels| ==>
                  && levels[k].price == TailPrice(side, levels[|quoted| - 1].price, tick, k - |quoted| + 1)
                  && levels[k].size == MaxInt(1, sizeAfter(MaxInt(1, levels[|quoted| - 1].size), k - |quoted| + 1)))
            && |levels| <= MaxInt(|quoted|, cfg.levels)
            && (|levels| < MaxInt(|quoted|, cfg.levels) && levels != [] ==>
                  TailPrice(side, levels[|quoted| - 1].price, tick, |levels| - |quoted| + 1) <= 0.0)
            && (BestFirst(side, quoted) ==> BestFirst(side, levels))
  {
    hide TailPrice, Positive;
    var quoted, levels := Positive(ladder), Extended(cfg, side, ladder, tick, sizeAfter);
    PositiveExact(ladder);
    if quoted != [] {
      var last := quoted[|quoted| - 1];
      TailExact(side, last.price, tick, MaxInt(1, last.size), sizeAfter, 1, MaxInt(0, cfg.levels - |quoted|));
      if BestFirst(side, quoted) {
        TailBestFirst(side, quoted, levels, tick);
      }
    }
  }

  lemma TailBestFirst(side: Side, quoted: seq<BookLevel>, levels: seq<BookLevel>, tick: real)
    requires tick > 0.0 && quoted != [] && quoted <= levels && BestFirst(side, quoted)
    requires forall k :: |quoted| <= k < |levels| ==>
               levels[k].price == TailPrice(side, quoted[|quoted| - 1].price, tick, k - |quoted| + 1)
    ensures BestFirst(side, levels)
  {
    hide TailPrice;
    var n := |quoted|;
    var base := quoted[n - 1].price;
    forall i, j | 0 <= i < j < |levels| ensures Cost(side, levels[i]) <= Cost(side, levels[j]) {
      if n <= j {
        TailMovesAway(side, base, tick, if i < n then 0 else i - n + 1, j - n + 1, levels[i].size, levels[j].size);
        assert i < n - 1 ==> Cost(side, quoted[i]) <= Cost(side, quoted[n - 1]);
      }
    }
  }
}
