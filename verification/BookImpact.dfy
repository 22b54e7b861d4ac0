/** What a market order pays once the book has its say. */
module BookImpact {
  import opened Domain
  import opened Wrappers
  import opened Slippage
  import opened Ticks
  import opened OrderBook
  import opened BookSynthesis

  /** A provider's quote: the touch, its depth ladders if it has any, and the rounded sizes of the
      synthetic levels, which depend on its volume. */
  datatype MarketQuote = MarketQuote(bid: Option<real>, ask: Option<real>, bids: seq<BookLevel>, asks: seq<BookLevel>,
                                     sizeAt: nat -> int, sizeAfter: (int, nat) -> int)

  predicate HasDepth(quote: MarketQuote) {
    quote.bids != [] && quote.asks != []
  }

  /** Nearest whole number, ties to the even one. */
  function RoundHalfEven(x: real): int {
    var n := x.Floor;
    var part := x - n as real;
    if part < 0.5 || (part == 0.5 && n % 2 == 0) then n else n + 1
  }

  /** No whole number is nearer, and of two as near it is the even one. */
  lemma RoundsHalfToEven(x: real, n: int)
    ensures Abs(RoundHalfEven(x) as real - x) <= Abs(n as real - x)
    ensures Abs(RoundHalfEven(x) as real - x) == Abs(n as real - x) && n != RoundHalfEven(x) ==>
              RoundHalfEven(x) % 2 == 0
  {
    var m := RoundHalfEven(x);
    if n < m {
      assert n as real <= m as real - 1.0;
    } else if n > m {
      assert n as real >= m as real + 1.0;
    }
  }

  function BookFor(cfg: OrderBookConfig, quote: MarketQuote, last: real, tick: real): Book {
    if HasDepth(quote) then
      Book(Extended(cfg, Sell, quote.bids, tick, quote.sizeAfter),
           Extended(cfg, Buy, quote.asks, tick, quote.sizeAfter), last)
    else
      Book(Bids(Snapped(RawBid(cfg, last, quote.bid, quote.ask, tick), tick), tick, quote.sizeAt, cfg.levels),
           Asks(Snapped(RawAsk(cfg, last, quote.bid, quote.ask, tick), tick), tick, quote.sizeAt, cfg.levels), last)
  }

  function Average(levels: seq<BookLevel>, qty: int): real
    requires FilledQty(Greedy(levels, qty)) != 0
  {
    Spent(Greedy(levels, qty)) / FilledQty(Greedy(levels, qty)) as real
  }

  predicate TwoSided(quote: Option<MarketQuote>) {
    quote.Some? && quote.value.bid.Some? && quote.value.ask.Some?
  }

  /** The levels the order would walk; none without a two-sided quote. */
  function LevelsFor(cfg: OrderBookConfig, quote: Option<MarketQuote>, side: Side, last: real,
                     tick: real): seq<BookLevel>
  {
    if TwoSided(quote) then Consumed(BookFor(cfg, quote.value, last, tick), side) else []
  }

  /** The walk's average, or the last price when there is nothing to walk. `None` is the division error
      of a zero benchmark. */
  function BookPrice(cfg: OrderBookConfig, quote: Option<MarketQuote>, side: Side, qty: real, last: real,
                     tick: real): Option<real>
  {
    var levels := LevelsFor(cfg, quote, side, last, tick);
    if FilledQty(Greedy(levels, RoundHalfEven(qty))) == 0 then Some(last)
    else if Benchmark(BookFor(cfg, quote.value, last, tick)) == 0.0 then None
    else Some(Average(levels, RoundHalfEven(qty)))
  }

  method ApplyBookImpact(cfg: OrderBookConfig, quote: Option<MarketQuote>, side: Side, qty: real, last: real,
                         tick: real)
    returns (price: Option<real>)
    ensures price == BookPrice(cfg, quote, side, qty, last, tick)
  {
    if quote.None? || quote.value.bid.None? || quote.value.ask.None? {
      return Some(last);
    }
    var q := quote.value;
    var book;
    if HasDepth(q) {
      var bids := ExtendLadder(cfg, Sell, q.bids, tick, q.sizeAfter);
      var asks := ExtendLadder(cfg, Buy, q.asks, tick, q.sizeAfter);
      book := Book(bids, asks, last);
    } else {
      book := Synthesize(cfg, last, q.bid, q.ask, tick, q.sizeAt);
    }
    assert book == BookFor(cfg, q, last, tick);
    hide BookFor;
    var fill := WalkBook(book, side, RoundHalfEven(qty));
    if fill.None? {
      return None;
    }
    price := Some(if fill.value.filledQty == 0 then last else fill.value.avgPrice);
  }

  /** The price of a market fill: slippage, then the book's price in its place when the book is on. */
  function FillPrice(slippage: SlippageConfig, cfg: OrderBookConfig, side: Side, qty: real, last: real, symbol: string,
                     quote: Option<MarketQuote>, tick: real): Option<real>
  {
    match ApplySlippage(slippage, side, Market, last, None, symbol)
    case None => None
    case Some(slipped) => if cfg.enabled then BookPrice(cfg, quote, side, qty, last, tick) else Some(slipped)
  }

  /** What an order faces: a buyer sellers, a seller buyers. Where the provider gives depth on both sides, its own
      levels with a positive price come first; where it does not, the first is the quoted touch on the tick grid,
      when that is in order. */
  lemma FacesTheOtherSide(cfg: OrderBookConfig, quote: MarketQuote, side: Side, last: real, tick: real)
    requires quote.bid.Some? && quote.ask.Some? && tick > 0.0
    ensures var levels := LevelsFor(cfg, Some(quote), side, last, tick);
            var ladder, touch := if side == Buy then quote.asks else quote.bids,
              if side == Buy then quote.ask.value else quote.bid.value;
            && (quote.bids != [] && quote.asks != [] && (forall i :: 0 <= i < |ladder| ==> ladder[i].price > 0.0) ==>
                  ladder <= levels)
            && ((quote.bids == [] || quote.asks == []) && 0.0 < quote.bid.value < quote.ask.value && levels != [] ==>
                  OnTheGrid(levels[0].price, touch, tick))
  {
    hide Positive, Extended, TailPrice, OnTheGrid, Bids, Asks;
    if HasDepth(quote) {
      PositiveExact(quote.bids);
      PositiveExact(quote.asks);
      LadderExtended(cfg, side, if side == Buy then quote.asks else quote.bids, tick, quote.sizeAfter);
    } else {
      TouchComesFirst(cfg, quote, side, last, tick);
    }
  }

  /** Without a bid and an ask there is no book, and the order pays the last price. */
  lemma OneSidedQuotePaysLast(cfg: OrderBookConfig, quote: Option<MarketQuote>, side: Side, qty: real, last: real,
                              tick: real)
    requires quote.Some? ==> quote.value.bid.None? || quote.value.ask.None?
    ensures BookPrice(cfg, quote, side, qty, last, tick) == Some(last)
  {
  }

  lemma TouchComesFirst(cfg: OrderBookConfig, quote: MarketQuote, side: Side, last: real, tick: real)
    requires quote.bid.Some? && quote.ask.Some? && tick > 0.0 && !HasDepth(quote)
    ensures var levels := LevelsFor(cfg, Some(quote), side, last, tick);
            0.0 < quote.bid.value < quote.ask.value && levels != [] ==>
              OnTheGrid(levels[0].price, if side == Buy then quote.ask.value else quote.bid.value, tick)
  {
    hide Bids, Asks, Snapped, OnTheGrid;
    var b, a := SynthesizedLevels(cfg, last, quote.bid, quote.ask, tick, quote.sizeAt,
                                  BookFor(cfg, quote, last, tick));
    GridEnds(tick);
  }

  // ----- without a book the order skips slippage altogether -----

  /** Nothing is walked: no quote, a one-sided quote, an empty side, or an order that rounds to no share. */
  predicate NothingToWalk(cfg: OrderBookConfig, quote: Option<MarketQuote>, side: Side, qty: real, last: real,
                          tick: real)
  {
    FilledQty(Greedy(LevelsFor(cfg, quote, side, last, tick), RoundHalfEven(qty))) == 0
  }

  lemma SlippedApart(last: real, bps: real, side: Side)
    requires last > 0.0
    ensures (if side == Buy then last * (1.0 + bps / 10000.0) else last * (1.0 - bps / 10000.0)) == last <==> bps == 0.0
  {
    var part := bps / 10000.0;
    assert last * (1.0 + part) == last + last * part;
    assert last * (1.0 - part) == last - last * part;
    assert part > 0.0 ==> last * part > 0.0;
    assert part < 0.0 ==> last * -part > 0.0;
    assert last * -part == -(last * part);
  }

  /** With nothing to walk the order pays the last price, and so escapes the slippage it is documented
      to fall back to, exactly when the symbol has any. */
  lemma FallbackIsSlippedIff(slippage: SlippageConfig, cfg: OrderBookConfig, side: Side, qty: real, last: real,
                             symbol: string, quote: Option<MarketQuote>, tick: real)
    requires cfg.enabled && last > 0.0 && NothingToWalk(cfg, quote, side, qty, last, tick)
    ensures FillPrice(slippage, cfg, side, qty, last, symbol, quote, tick) == Some(last)
    ensures (FillPrice(slippage, cfg, side, qty, last, symbol, quote, tick) ==
             ApplySlippage(slippage, side, Market, last, None, symbol)) <==> slippage.BpsFor(symbol) <= 0.0
  {
    SlippedApart(last, Max(0.0, slippage.BpsFor(symbol)), side);
  }

  /** A buy with no quote at five basis points pays 100, not 100.05. */
  lemma FallbackCanSkipSlippage()
    ensures var slippage, cfg := SlippageConfig(5.0, map[], false), OrderBookConfig(true, 10, 5.0);
            && FillPrice(slippage, cfg, Buy, 1.0, 100.0, "X", None, 0.05) == Some(100.0)
            && ApplySlippage(slippage, Buy, Market, 100.0, None, "X") == Some(100.05)
  {
  }

  // ----- when the book's price is no better than the slipped one -----

  lemma {:induction false} OneShare(levels: seq<BookLevel>)
    requires Sized(levels) && levels != [] && levels[0].size >= 1
    ensures FilledQty(Greedy(levels, 1)) == 1 && Average(levels, 1) == levels[0].price
  {
    var slice := FillSlice(levels[0].price, 1);
    assert Greedy(levels, 1) == [slice] + Greedy(levels[1..], 0);
    SlicesCons(slice, []);
    NothingTaken();
    assert [slice] + [] == [slice];
  }

  lemma {:induction false} SomethingFilled(levels: seq<BookLevel>, qty: int)
    requires Sized(levels) && levels != [] && levels[0].size >= 1 && qty >= 1
    ensures FilledQty(Greedy(levels, qty)) == MinInt(qty, Depth(levels)) > 0
  {
    SlicesAreGreedy(levels, qty);
    GreedilyFills(levels, qty);
    DepthNonNegative(levels[1..]);
  }

  /** Over every size of order, a best-first side gives a price no better than `rival` exactly when its
      first level is no better. */
  lemma {:induction false} NoSizeBeatsIff(side: Side, levels: seq<BookLevel>, rival: real)
    requires BestFirst(side, levels) && Sized(levels) && levels != [] && levels[0].size >= 1
    ensures (forall n: int :: n >= 1 ==>
               FilledQty(Greedy(levels, n)) > 0 && NoWorse(Opposite(side), Average(levels, n), rival)) <==>
            NoWorse(Opposite(side), levels[0].price, rival)
  {
    OneShare(levels);
    forall n: int | n >= 1
      ensures FilledQty(Greedy(levels, n)) > 0
      ensures if side == Buy then Average(levels, n) >= levels[0].price else Average(levels, n) <= levels[0].price
    {
      SomethingFilled(levels, n);
      AverageAtBest(side, levels, n);
    }
    if forall n: int :: n >= 1 ==>
      FilledQty(Greedy(levels, n)) > 0 && NoWorse(Opposite(side), Average(levels, n), rival)
    {
      assert NoWorse(Opposite(side), Average(levels, 1), rival);
    }
  }

  lemma WholeIsItself(n: int)
    ensures RoundHalfEven(n as real) == n
  {
  }

  /** Market orders in whole shares, of every size, pay no better than the slipped quote exactly when the
      first level they meet is no better than it. A tight quote lets them beat their own slippage. */
  lemma NeverBeatsSlippageIff(slippage: SlippageConfig, cfg: OrderBookConfig, side: Side, last: real, symbol: string,
                              quote: Option<MarketQuote>, tick: real)
    requires cfg.enabled && last > 0.0 && TwoSided(quote)
    requires Benchmark(BookFor(cfg, quote.value, last, tick)) != 0.0
    requires var levels := LevelsFor(cfg, quote, side, last, tick);
             BestFirst(side, levels) && Sized(levels) && levels != [] && levels[0].size >= 1
    ensures var slipped := ApplySlippage(slippage, side, Market, last, None, symbol).GetOr(0.0);
            (forall n: int {:trigger n as real} :: n >= 1 ==>
               var price := FillPrice(slippage, cfg, side, n as real, last, symbol, quote, tick);
               price.Some? && NoWorse(Opposite(side), price.value, slipped)) <==>
            NoWorse(Opposite(side), LevelsFor(cfg, quote, side, last, tick)[0].price, slipped)
  {
    hide BookFor;
    var slipped := ApplySlippage(slippage, side, Market, last, None, symbol).GetOr(0.0);
    var levels := LevelsFor(cfg, quote, side, last, tick);
    NoSizeBeatsIff(side, levels, slipped);
    forall n: int | n >= 1
      ensures FilledQty(Greedy(levels, n)) > 0
      ensures FillPrice(slippage, cfg, side, n as real, last, symbol, quote, tick) == Some(Average(levels, n))
    {
      SomethingFilled(levels, n);
      WholeIsItself(n);
    }
  }

  // ----- when the price is the walk's price for the whole order -----

  ghost predicate PositivelyPriced(levels: seq<BookLevel>) {
    forall i :: 0 <= i < |levels| ==> levels[i].price > 0.0 && levels[i].size >= 0
  }

  lemma {:induction false} WalkCosts(levels: seq<BookLevel>, x: seq<int>)
    requires PositivelyPriced(levels) && Allocation(levels, x)
    ensures Value(levels, x) >= 0.0 && (Shares(x) > 0 ==> Value(levels, x) > 0.0)
  {
    if x != [] {
      WalkCosts(levels[1..], x[1..]);
      PayAdds(levels[0].price, 0, 0);
      PayMonotone(0.0, levels[0].price, x[0]);
      PaySign(levels[0].price, x[0]);
      SharesWithinDepth(levels[1..], x[1..]);
    }
  }

  lemma PaySign(price: real, qty: int)
    requires price > 0.0 && qty >= 0
    ensures Pay(price, qty) >= 0.0 && (qty > 0 ==> Pay(price, qty) > 0.0)
  {
  }

  lemma SameQuantity(avg: real, spent: real, filled: int, qty: real)
    requires filled > 0 && spent > 0.0 && avg == spent / filled as real
    ensures qty * avg == spent <==> qty == filled as real
  {
    QuotientTimes(spent, filled as real);
    QuotientPositive(spent, filled as real);
    assert (qty - filled as real) * avg == qty * avg - spent;
    assert qty > filled as real ==> (qty - filled as real) * avg > 0.0;
    assert qty < filled as real ==> (filled as real - qty) * avg > 0.0;
  }

  lemma {:induction false} AverageIsForWhatFilled(levels: seq<BookLevel>, n: int, qty: real)
    requires PositivelyPriced(levels) && FilledQty(Greedy(levels, n)) != 0
    ensures FilledQty(Greedy(levels, n)) == MinInt(n, Depth(levels)) > 0
    ensures qty * Average(levels, n) == Spent(Greedy(levels, n)) <==> qty == FilledQty(Greedy(levels, n)) as real
  {
    hide Spent, Value;
    assert n > 0 by {
      assert n <= 0 ==> Greedy(levels, n) == [];
      NothingTaken();
    }
    SlicesAreGreedy(levels, n);
    GreedilyFills(levels, n);
    DepthNonNegative(levels);
    WalkCosts(levels, Greedily(levels, n));
    SameQuantity(Average(levels, n), Spent(Greedy(levels, n)), FilledQty(Greedy(levels, n)), qty);
  }

  /** What the order pays is what the walk spent exactly when it is for whole shares and the side holds
      them all. The walk's own report of a short fill is not looked at, so a larger order is priced
      throughout at the average of the part that filled. */
  lemma PaysForItsWalkIff(cfg: OrderBookConfig, quote: Option<MarketQuote>, side: Side, qty: real, last: real,
                          tick: real)
    requires PositivelyPriced(LevelsFor(cfg, quote, side, last, tick))
             && !NothingToWalk(cfg, quote, side, qty, last, tick)
    requires BookPrice(cfg, quote, side, qty, last, tick).Some?
    ensures var levels := LevelsFor(cfg, quote, side, last, tick); var n := RoundHalfEven(qty);
            && FilledQty(Greedy(levels, n)) == MinInt(n, Depth(levels))
            && (qty * BookPrice(cfg, quote, side, qty, last, tick).value == Spent(Greedy(levels, n)) <==>
                qty == n as real && n <= Depth(levels))
  {
    hide BookFor, LevelsFor, RoundHalfEven, Greedy, Spent, FilledQty, PositivelyPriced, Depth;
    var levels, n := LevelsFor(cfg, quote, side, last, tick), RoundHalfEven(qty);
    AverageIsForWhatFilled(levels, n, qty);
    NearestWhole(qty);
    assert BookPrice(cfg, quote, side, qty, last, tick).value == Average(levels, n);
    assert qty == MinInt(n, Depth(levels)) as real ==> RoundHalfEven(qty) == MinInt(n, Depth(levels));
  }

  lemma NearestWhole(x: real)
    ensures -0.5 <= x - RoundHalfEven(x) as real <= 0.5
    ensures forall n: int {:trigger n as real} :: x == n as real ==> RoundHalfEven(x) == n
  {
  }

  /** A provider's book with five shares bid at 99 and five offered at 100. */
  const FIVE_A_SIDE := MarketQuote(Some(99.0), Some(100.0), [BookLevel(99.0, 5)], [BookLevel(100.0, 5)],
                                   (i: nat) => 1, (s: int, i: nat) => 1)

  const ONE_LEVEL := OrderBookConfig(true, 1, 5.0)

  lemma PricePerShare(price: real, qty: int)
    requires qty > 0
    ensures Pay(price, qty) / qty as real == price
  {
  }

  lemma {:induction false} WalkFiveASide(n: int)
    requires n >= 1
    ensures BookPrice(ONE_LEVEL, Some(FIVE_A_SIDE), Buy, n as real, 99.5, 0.05) == Some(100.0)
    ensures Spent(Greedy(LevelsFor(ONE_LEVEL, Some(FIVE_A_SIDE), Buy, 99.5, 0.05), n)) == 100.0 * MinInt(n, 5) as real
  {
    var ask, slice := BookLevel(100.0, 5), FillSlice(100.0, MinInt(n, 5));
    OneLevel(ONE_LEVEL, Sell, BookLevel(99.0, 5), 0.05, FIVE_A_SIDE.sizeAfter);
    OneLevel(ONE_LEVEL, Buy, ask, 0.05, FIVE_A_SIDE.sizeAfter);
    WholeIsItself(n);
    assert [ask][1..] == [];
    assert Greedy([ask], n) == [slice] + [];
    SlicesCons(slice, []);
    NothingTaken();
    PricePerShare(100.0, slice.qty);
    assert BookFor(ONE_LEVEL, FIVE_A_SIDE, 99.5, 0.05) == Book([BookLevel(99.0, 5)], [ask], 99.5);
  }

  /** An order for twenty pays 2000 on a walk that found five shares and spent 500. */
  lemma ShortBookExample()
    ensures BookPrice(ONE_LEVEL, Some(FIVE_A_SIDE), Buy, 20.0, 99.5, 0.05) == Some(100.0)
    ensures Spent(Greedy(LevelsFor(ONE_LEVEL, Some(FIVE_A_SIDE), Buy, 99.5, 0.05), 20)) == 500.0
  {
    WalkFiveASide(20);
  }

  /** At a hundred basis points an order for one share pays 100 where the slipped quote is 100.495. */
  lemma BookCanBeatSlippage()
    ensures var slippage := SlippageConfig(100.0, map[], false);
            && FillPrice(slippage, ONE_LEVEL, Buy, 1.0, 99.5, "X", Some(FIVE_A_SIDE), 0.05) == Some(100.0)
            && ApplySlippage(slippage, Buy, Market, 99.5, None, "X") == Some(100.495)
  {
    WalkFiveASide(1);
  }

  lemma OneLevel(cfg: OrderBookConfig, side: Side, level: BookLevel, tick: real, sizeAfter: (int, nat) -> int)
    requires cfg.levels == 1 && level.price > 0.0
    ensures Extended(cfg, side, [level], tick, sizeAfter) == [level]
  {
    assert [level][..0] == [];
    assert Positive([level]) == [level];
  }

  /** An order for four tenths of a share rounds to nothing, so it pays the last price and no spread. */
  lemma SmallOrderSkipsTheBook(cfg: OrderBookConfig, quote: Option<MarketQuote>, side: Side, qty: real, last: real,
                               tick: real)
    requires 0.0 < qty <= 0.5
    ensures BookPrice(cfg, quote, side, qty, last, tick) == Some(last)
  {
    assert RoundHalfEven(qty) == 0;
    assert Greedy(LevelsFor(cfg, quote, side, last, tick), 0) == [];
    NothingTaken();
  }
}
