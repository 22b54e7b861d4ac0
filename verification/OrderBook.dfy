/** The level-two book, and walking it with a market order. */
module OrderBook {
  import opened Domain
  import opened Wrappers

  datatype BookLevel = BookLevel(price: real, size: int)

  datatype Book = Book(bids: seq<BookLevel>, asks: seq<BookLevel>, last: real)

  datatype FillSlice = FillSlice(price: real, qty: int)

  datatype MarketFill = MarketFill(avgPrice: real, filledQty: int, slices: seq<FillSlice>, impactBps: real,
                                   fullyFilled: bool)

  const NO_FILL := MarketFill(0.0, 0, [], 0.0, false)

  datatype OrderBookConfig = OrderBookConfig(enabled: bool, levels: nat, defaultSpreadBps: real)

  function MinInt(a: int, b: int): int {
    if a <= b then a else b
  }

  function MaxInt(a: int, b: int): int {
    if a >= b then a else b
  }

  // ----- what a walk takes -----

  function Consumed(book: Book, side: Side): seq<BookLevel> {
    if side == Buy then book.asks else book.bids
  }

  function Greedy(levels: seq<BookLevel>, qty: int): seq<FillSlice> {
    if levels == [] || qty <= 0 then []
    else
      var take := MinInt(qty, levels[0].size);
      [FillSlice(levels[0].price, take)] + Greedy(levels[1..], qty - take)
  }

  function FilledQty(slices: seq<FillSlice>): int {
    if slices == [] then 0 else FilledQty(slices[..|slices| - 1]) + slices[|slices| - 1].qty
  }

  function Pay(price: real, qty: int): real {
    price * qty as real
  }

  function Spent(slices: seq<FillSlice>): real {
    if slices == [] then 0.0
    else Spent(slices[..|slices| - 1]) + Pay(slices[|slices| - 1].price, slices[|slices| - 1].qty)
  }

  function Mid(book: Book): Option<real> {
    if book.bids == [] || book.asks == [] then None else Some((book.bids[0].price + book.asks[0].price) / 2.0)
  }

  /** What impact is measured against: the mid, or the last price when there is none. */
  function Benchmark(book: Book): real {
    if Mid(book).Some? && Mid(book).value != 0.0 then Mid(book).value else book.last
  }

  function Impact(side: Side, avg: real, mid: real): real
    requires mid != 0.0
  {
    (if side == Buy then avg - mid else mid - avg) / mid * 10000.0
  }

  lemma NothingTaken()
    ensures FilledQty([]) == 0 && Spent([]) == 0.0
  {
  }

  lemma OneMoreSlice(slices: seq<FillSlice>, s: FillSlice)
    ensures FilledQty(slices + [s]) == FilledQty(slices) + s.qty
    ensures Spent(slices + [s]) == Spent(slices) + Pay(s.price, s.qty)
  {
    assert (slices + [s])[..|slices|] == slices;
  }

  /** `None` stands for the division error of a zero benchmark. */
  method WalkBook(book: Book, side: Side, qty: int) returns (fill: Option<MarketFill>)
    ensures var slices := Greedy(Consumed(book, side), qty); var filled := FilledQty(slices);
            fill == if filled == 0 then Some(NO_FILL)
                    else if Benchmark(book) == 0.0 then None
                    else var avg := Spent(slices) / filled as real;
                         Some(MarketFill(avg, filled, slices, Max(0.0, Impact(side, avg, Benchmark(book))),
                                         qty <= filled))
  {
    hide Benchmark, Impact, Spent, FilledQty, Pay;
    var levels := Consumed(book, side);
    var slices: seq<FillSlice> := [];
    var remaining, spent, filled := qty, 0.0, 0;
    var i := 0;
    NothingTaken();
    assert levels[0..] == levels;
    while i < |levels| && remaining > 0
      invariant 0 <= i <= |levels|
      invariant slices + Greedy(levels[i..], remaining) == Greedy(levels, qty)
      invariant spent == Spent(slices) && filled == FilledQty(slices) && remaining == qty - filled
    {
      var level := levels[i];
      var take := MinInt(remaining, level.size);
      OneMoreSlice(slices, FillSlice(level.price, take));
      slices := slices + [FillSlice(level.price, take)];
      assert levels[i..][1..] == levels[i + 1..];
      spent := spent + Pay(level.price, take);
      filled := filled + take;
      remaining := remaining - take;
      i := i + 1;
    }
    assert slices == Greedy(levels, qty);
    if filled == 0 {
      return Some(NO_FILL);
    }
    var avg := spent / filled as real;
    var mid := Benchmark(book);
    if mid == 0.0 {
      return None;
    }
    fill := Some(MarketFill(avg, filled, slices, Max(0.0, Impact(side, avg, mid)), remaining <= 0));
  }

  // ----- allocations of shares over levels -----

  /** `x[i]` shares taken from level `i`, within its size. */
  ghost predicate Allocation(levels: seq<BookLevel>, x: seq<int>) {
    |x| == |levels| && forall i :: 0 <= i < |x| ==> 0 <= x[i] <= levels[i].size
  }

  function Shares(x: seq<int>): int {
    if x == [] then 0 else x[0] + Shares(x[1..])
  }

  /** What a share of the level costs: its price to a buyer, the price forgone to a seller. */
  function Cost(side: Side, level: BookLevel): real {
    if side == Buy then level.price else -level.price
  }

  function TotalCost(side: Side, levels: seq<BookLevel>, x: seq<int>): real
    requires |x| == |levels|
  {
    if x == [] then 0.0 else Pay(Cost(side, levels[0]), x[0]) + TotalCost(side, levels[1..], x[1..])
  }

  /** The money that changes hands. */
  function Value(levels: seq<BookLevel>, x: seq<int>): real
    requires |x| == |levels|
  {
    TotalCost(Buy, levels, x)
  }

  function Depth(levels: seq<BookLevel>): int {
    if levels == [] then 0 else levels[0].size + Depth(levels[1..])
  }

  ghost predicate BestFirst(side: Side, levels: seq<BookLevel>) {
    forall i, j :: 0 <= i < j < |levels| ==> Cost(side, levels[i]) <= Cost(side, levels[j])
  }

  ghost predicate Sized(levels: seq<BookLevel>) {
    forall i :: 0 <= i < |levels| ==> levels[i].size >= 0
  }

  /** The greedy walk as an allocation, untouched levels included. */
  function Greedily(levels: seq<BookLevel>, qty: int): (x: seq<int>)
    ensures |x| == |levels|
  {
    if levels == [] then []
    else
      var take := if qty <= 0 then 0 else MinInt(qty, levels[0].size);
      [take] + Greedily(levels[1..], qty - take)
  }

  // ----- payments are linear in quantity -----

  lemma PayAdds(c: real, a: int, b: int)
    ensures Pay(c, a + b) == Pay(c, a) + Pay(c, b)
    ensures Pay(c, 0) == 0.0
  {
  }

  lemma PayMonotone(c: real, d: real, n: int)
    requires c <= d && n >= 0
    ensures Pay(c, n) <= Pay(d, n)
  {
    assert (d - c) * n as real >= 0.0;
  }

  lemma PayNegated(c: real, n: int)
    ensures Pay(-c, n) == -Pay(c, n)
  {
  }

  lemma {:induction false} SellersCost(levels: seq<BookLevel>, x: seq<int>)
    requires |x| == |levels|
    ensures TotalCost(Sell, levels, x) == -Value(levels, x)
  {
    if x != [] {
      hide Pay;
      PayNegated(levels[0].price, x[0]);
      SellersCost(levels[1..], x[1..]);
    }
  }

  // ----- the walk fills all it can -----

  lemma {:induction false} DepthNonNegative(levels: seq<BookLevel>)
    requires Sized(levels)
    ensures Depth(levels) >= 0
  {
    if levels != [] {
      DepthNonNegative(levels[1..]);
    }
  }

  lemma AllocationCons(levels: seq<BookLevel>, x: seq<int>)
    requires |x| == |levels| > 0 && 0 <= x[0] <= levels[0].size && Allocation(levels[1..], x[1..])
    ensures Allocation(levels, x)
  {
    forall i | 0 <= i < |x| ensures 0 <= x[i] <= levels[i].size {
      assert i > 0 ==> x[i] == x[1..][i - 1] && levels[i] == levels[1..][i - 1];
    }
  }

  lemma {:induction false} GreedilyFills(levels: seq<BookLevel>, qty: int)
    requires Sized(levels) && qty >= 0
    ensures Allocation(levels, Greedily(levels, qty))
    ensures Shares(Greedily(levels, qty)) == MinInt(qty, Depth(levels))
  {
    if levels != [] {
      hide Allocation;
      var take := if qty <= 0 then 0 else MinInt(qty, levels[0].size);
      DepthNonNegative(levels[1..]);
      GreedilyFills(levels[1..], qty - take);
      var x := Greedily(levels, qty);
      assert x[1..] == Greedily(levels[1..], qty - take);
      AllocationCons(levels, x);
    }
  }

  lemma {:induction false} SlicesCons(s: FillSlice, rest: seq<FillSlice>)
    ensures FilledQty([s] + rest) == s.qty + FilledQty(rest)
    ensures Spent([s] + rest) == Pay(s.price, s.qty) + Spent(rest)
  {
    hide Pay;
    var all := [s] + rest;
    if rest == [] {
      assert all == [s] && [s][..0] == [];
    } else {
      SlicesCons(s, rest[..|rest| - 1]);
      assert all[..|all| - 1] == [s] + rest[..|rest| - 1];
    }
  }

  /** The slices a walk records are the greedy allocation with the untouched levels left out. */
  lemma {:induction false} SlicesAreGreedy(levels: seq<BookLevel>, qty: int)
    ensures FilledQty(Greedy(levels, qty)) == Shares(Greedily(levels, qty))
    ensures Spent(Greedy(levels, qty)) == Value(levels, Greedily(levels, qty))
  {
    if levels != [] {
      var x := Greedily(levels, qty);
      if qty <= 0 {
        SlicesAreGreedy(levels[1..], qty);
        PayAdds(levels[0].price, 0, 0);
        assert x[1..] == Greedily(levels[1..], qty);
        assert Greedy(levels[1..], qty) == [];
      } else {
        hide Pay;
        var take := MinInt(qty, levels[0].size);
        SlicesAreGreedy(levels[1..], qty - take);
        SlicesCons(FillSlice(levels[0].price, take), Greedy(levels[1..], qty - take));
        assert x[1..] == Greedily(levels[1..], qty - take);
      }
    }
  }

  // ----- and at the best total price -----

  lemma {:induction false} MoreReachesFurther(levels: seq<BookLevel>, a: int, b: int)
    requires Sized(levels) && 0 <= a <= b
    ensures forall i :: 0 <= i < |levels| ==> Greedily(levels, a)[i] <= Greedily(levels, b)[i]
  {
    if levels != [] {
      var x, y := Greedily(levels, a), Greedily(levels, b);
      MoreReachesFurther(levels[1..], a - x[0], b - y[0]);
      assert x[1..] == Greedily(levels[1..], a - x[0]) && y[1..] == Greedily(levels[1..], b - y[0]);
      forall i | 0 <= i < |levels| ensures x[i] <= y[i] {
        assert i > 0 ==> x[i] == x[1..][i - 1] && y[i] == y[1..][i - 1];
      }
    }
  }

  /** Every extra share costs at least `floor` when every level does. */
  lemma {:induction false} ExtraSharesCost(side: Side, levels: seq<BookLevel>, x: seq<int>, y: seq<int>, floor: real)
    requires |x| == |y| == |levels| && forall i :: 0 <= i < |x| ==> x[i] <= y[i]
    requires forall i :: 0 <= i < |levels| ==> floor <= Cost(side, levels[i])
    ensures TotalCost(side, levels, y) - TotalCost(side, levels, x) >= Pay(floor, Shares(y) - Shares(x))
  {
    if levels == [] {
      PayAdds(floor, 0, 0);
    } else {
      hide Pay;
      var d := y[0] - x[0];
      ExtraSharesCost(side, levels[1..], x[1..], y[1..], floor);
      PayAdds(Cost(side, levels[0]), x[0], d);
      PayMonotone(floor, Cost(side, levels[0]), d);
      PayAdds(floor, d, Shares(y[1..]) - Shares(x[1..]));
    }
  }

  lemma {:induction false} SharesWithinDepth(levels: seq<BookLevel>, x: seq<int>)
    requires Allocation(levels, x)
    ensures 0 <= Shares(x) <= Depth(levels)
  {
    if x != [] {
      SharesWithinDepth(levels[1..], x[1..]);
    }
  }

  lemma BestFirstTail(side: Side, levels: seq<BookLevel>)
    requires BestFirst(side, levels) && Sized(levels) && levels != []
    ensures BestFirst(side, levels[1..]) && Sized(levels[1..])
    ensures forall i :: 0 <= i < |levels[1..]| ==> Cost(side, levels[0]) <= Cost(side, levels[1..][i])
  {
  }

  lemma AllocationTail(levels: seq<BookLevel>, x: seq<int>)
    requires Allocation(levels, x) && levels != []
    ensures Allocation(levels[1..], x[1..]) && 0 <= x[0] <= levels[0].size
  {
  }

  /** What taking `s` instead of `t` shares greedily saves. */
  lemma GreedySaving(side: Side, levels: seq<BookLevel>, s: int, t: int, floor: real)
    requires Sized(levels) && 0 <= s <= t <= Depth(levels)
    requires forall i :: 0 <= i < |levels| ==> floor <= Cost(side, levels[i])
    ensures TotalCost(side, levels, Greedily(levels, t)) - TotalCost(side, levels, Greedily(levels, s)) >=
            Pay(floor, t - s)
  {
    hide Pay, Cost;
    GreedilyFills(levels, s);
    GreedilyFills(levels, t);
    MoreReachesFurther(levels, s, t);
    ExtraSharesCost(side, levels, Greedily(levels, s), Greedily(levels, t), floor);
  }

  /** Exchange argument: moving shares to the front of a best-first book never costs more. */
  lemma {:induction false} CheapestFirst(side: Side, levels: seq<BookLevel>, x: seq<int>)
    requires BestFirst(side, levels) && Sized(levels) && Allocation(levels, x)
    ensures TotalCost(side, levels, Greedily(levels, Shares(x))) <= TotalCost(side, levels, x)
  {
    if levels != [] {
      hide Pay, Cost, Allocation, BestFirst;
      var tail, rest := levels[1..], x[1..];
      var g := Greedily(levels, Shares(x));
      BestFirstTail(side, levels);
      AllocationTail(levels, x);
      SharesWithinDepth(tail, rest);
      CheapestFirst(side, tail, rest);
      assert g[1..] == Greedily(tail, Shares(x) - g[0]);
      GreedySaving(side, tail, Shares(x) - g[0], Shares(rest), Cost(side, levels[0]));
      PayAdds(Cost(side, levels[0]), x[0], g[0] - x[0]);
    }
  }

  /** The walk is optimal: on a best-first side it fills as many shares as the side holds, up to the
      order, and any other way of taking that many shares costs a buyer at least as much and brings
      a seller at most as much. */
  lemma WalkIsOptimal(side: Side, levels: seq<BookLevel>, qty: int, x: seq<int>)
    requires BestFirst(side, levels) && Sized(levels) && qty >= 0
    requires Allocation(levels, x) && Shares(x) == FilledQty(Greedy(levels, qty))
    ensures FilledQty(Greedy(levels, qty)) == MinInt(qty, Depth(levels))
    ensures if side == Buy then Spent(Greedy(levels, qty)) <= Value(levels, x)
            else Spent(Greedy(levels, qty)) >= Value(levels, x)
  {
    hide TotalCost;
    SlicesAreGreedy(levels, qty);
    GreedilyFills(levels, qty);
    CheapestFirst(side, levels, x);
    DepthNonNegative(levels);
    GreedilyBeyondDepth(levels, qty);
    SellersCost(levels, x);
    SellersCost(levels, Greedily(levels, qty));
  }

  lemma {:induction false} GreedilyBeyondDepth(levels: seq<BookLevel>, qty: int)
    requires Sized(levels) && qty >= 0
    ensures Greedily(levels, MinInt(qty, Depth(levels))) == Greedily(levels, qty)
  {
    if levels != [] {
      DepthNonNegative(levels[1..]);
      var take := if qty <= 0 then 0 else MinInt(qty, levels[0].size);
      GreedilyBeyondDepth(levels[1..], qty - take);
    }
  }

  // ----- the average price never improves with size -----

  /** A price that the first `a` shares cost at most, and every later share at least. */
  lemma {:induction false} MarginalCost(side: Side, levels: seq<BookLevel>, a: int, b: int, floor: real)
    returns (m: real)
    requires BestFirst(side, levels) && Sized(levels) && 0 <= a <= b
    requires forall i :: 0 <= i < |levels| ==> floor <= Cost(side, levels[i])
    ensures m >= floor
    ensures var x, y := Greedily(levels, a), Greedily(levels, b);
            && TotalCost(side, levels, x) <= Pay(m, Shares(x))
            && TotalCost(side, levels, y) - TotalCost(side, levels, x) >= Pay(m, Shares(y) - Shares(x))
  {
    hide Pay, Cost;
    MoreReachesFurther(levels, a, b);
    var x, y := Greedily(levels, a), Greedily(levels, b);
    if levels == [] {
      m := floor;
      PayAdds(m, 0, 0);
    } else {
      var c := Cost(side, levels[0]);
      BestFirstTail(side, levels);
      hide BestFirst;
      if a <= levels[0].size {
        m := c;
        WithinFirstLevel(side, levels, a);
        forall i | 0 <= i < |levels| ensures c <= Cost(side, levels[i]) {
          assert i > 0 ==> levels[i] == levels[1..][i - 1];
        }
        ExtraSharesCost(side, levels, x, y, m);
      } else {
        assert x[1..] == Greedily(levels[1..], a - x[0]) && y[1..] == Greedily(levels[1..], b - y[0]);
        m := MarginalCost(side, levels[1..], a - x[0], b - y[0], c);
        PayMonotone(c, m, x[0]);
        PayAdds(m, x[0], Shares(x[1..]));
      }
    }
  }

  lemma WithinFirstLevel(side: Side, levels: seq<BookLevel>, a: int)
    requires Sized(levels) && levels != [] && 0 <= a <= levels[0].size
    ensures Shares(Greedily(levels, a)) == a
    ensures TotalCost(side, levels, Greedily(levels, a)) == Pay(Cost(side, levels[0]), a)
  {
    var x := Greedily(levels, a);
    assert x[0] == a && x[1..] == Greedily(levels[1..], 0);
    NothingCostsNothing(side, levels[1..]);
  }

  lemma {:induction false} NothingCostsNothing(side: Side, levels: seq<BookLevel>)
    ensures Shares(Greedily(levels, 0)) == 0
    ensures TotalCost(side, levels, Greedily(levels, 0)) == 0.0
  {
    if levels != [] {
      NothingCostsNothing(side, levels[1..]);
      assert Greedily(levels, 0)[1..] == Greedily(levels[1..], 0);
      PayAdds(Cost(side, levels[0]), 0, 0);
    }
  }

  lemma AverageRises(v: real, f: int, w: real, g: int, m: real)
    requires 0 < f <= g && v <= Pay(m, f) && w - v >= Pay(m, g - f)
    ensures v / f as real <= w / g as real
  {
    var avg := v / f as real;
    assert Pay(avg, f) == v;
    assert avg > m ==> (avg - m) * f as real > 0.0;
    PayMonotone(avg, m, g - f);
    PayAdds(avg, f, g - f);
    AtLeastAverage(avg, w, g);
  }

  lemma AtLeastAverage(avg: real, w: real, g: int)
    requires g > 0 && Pay(avg, g) <= w
    ensures avg <= w / g as real
  {
    var other := w / g as real;
    assert Pay(other, g) == w;
    assert avg > other ==> (avg - other) * g as real > 0.0;
  }

  /** A larger order never gets a better average price: a buyer's average does not fall with size,
      a seller's does not rise. */
  lemma AverageNeverImproves(side: Side, levels: seq<BookLevel>, a: int, b: int)
    requires BestFirst(side, levels) && Sized(levels) && 0 <= a <= b
    requires FilledQty(Greedy(levels, a)) > 0
    ensures FilledQty(Greedy(levels, b)) >= FilledQty(Greedy(levels, a))
    ensures var p := Spent(Greedy(levels, a)) / FilledQty(Greedy(levels, a)) as real;
            var q := Spent(Greedy(levels, b)) / FilledQty(Greedy(levels, b)) as real;
            if side == Buy then p <= q else p >= q
  {
    hide Pay;
    hide TotalCost;
    SlicesAreGreedy(levels, a);
    SlicesAreGreedy(levels, b);
    GreedilyFills(levels, a);
    GreedilyFills(levels, b);
    var x, y := Greedily(levels, a), Greedily(levels, b);
    var m := MarginalCost(side, levels, a, b, if levels == [] then 0.0 else Cost(side, levels[0]));
    SellersCost(levels, x);
    SellersCost(levels, y);
    AverageRises(TotalCost(side, levels, x), Shares(x), TotalCost(side, levels, y), Shares(y), m);
    NegatedQuotient(Value(levels, x), Shares(x));
    NegatedQuotient(Value(levels, y), Shares(y));
  }

  lemma NegatedQuotient(v: real, n: int)
    requires n > 0
    ensures (-v) / n as real == -(v / n as real)
  {
  }
}
