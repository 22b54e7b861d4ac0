/** The composite provider: quotes fanned out from several sources and merged by median. */
module Consensus {
  import opened Wrappers

  datatype Quote = Quote(last: real, timestamp: real, bid: Option<real>, ask: Option<real>, open: Option<real>,
                         high: Option<real>, low: Option<real>, prevClose: Option<real>, volume: Option<real>,
                         currency: string, isRealTime: bool)

  // ----- order statistics -----

  function Insert(x: real, sorted: seq<real>): seq<real> {
    if sorted == [] || x <= sorted[0] then [x] + sorted else [sorted[0]] + Insert(x, sorted[1..])
  }

  function Sort(xs: seq<real>): (s: seq<real>)
    ensures |s| == |xs|
  {
    if xs == [] then [] else InsertLength(xs[0], Sort(xs[1..])); Insert(xs[0], Sort(xs[1..]))
  }

  lemma {:induction false} InsertLength(x: real, sorted: seq<real>)
    ensures |Insert(x, sorted)| == |sorted| + 1
  {
    if sorted != [] && x > sorted[0] {
      InsertLength(x, sorted[1..]);
    }
  }

  function Median(sorted: seq<real>): real
    requires sorted != []
  {
    var mid := |sorted| / 2;
    if |sorted| % 2 == 1 then sorted[mid] else (sorted[mid - 1] + sorted[mid]) / 2.0
  }

  ghost predicate Ascending(s: seq<real>) {
    forall i, j :: 0 <= i < j < |s| ==> s[i] <= s[j]
  }

  lemma ConsAscending(x: real, s: seq<real>)
    requires Ascending(s) && (s != [] ==> x <= s[0])
    ensures Ascending([x] + s)
  {
  }

  lemma {:induction false} InsertExact(x: real, sorted: seq<real>)
    requires Ascending(sorted)
    ensures Ascending(Insert(x, sorted))
    ensures multiset(Insert(x, sorted)) == multiset(sorted) + multiset{x}
  {
    if sorted == [] || x <= sorted[0] {
      ConsAscending(x, sorted);
    } else {
      InsertExact(x, sorted[1..]);
      ConsAscending(sorted[0], Insert(x, sorted[1..]));
      assert sorted == [sorted[0]] + sorted[1..];
    }
  }

  lemma {:induction false} SortExact(xs: seq<real>)
    ensures Ascending(Sort(xs)) && multiset(Sort(xs)) == multiset(xs)
  {
    if xs != [] {
      hide Ascending, Insert;
      SortExact(xs[1..]);
      InsertExact(xs[0], Sort(xs[1..]));
      assert xs == [xs[0]] + xs[1..];
    }
  }

  // ----- counting -----

  /** How many values are at most `x`. */
  function AtMost(xs: seq<real>, x: real): nat {
    if xs == [] then 0 else (if xs[0] <= x then 1 else 0) + AtMost(xs[1..], x)
  }

  lemma {:induction false} InsertCounts(v: real, sorted: seq<real>, x: real)
    ensures AtMost(Insert(v, sorted), x) == AtMost(sorted, x) + if v <= x then 1 else 0
  {
    if sorted == [] || v <= sorted[0] {
      assert ([v] + sorted)[1..] == sorted;
    } else {
      InsertCounts(v, sorted[1..], x);
      assert Insert(v, sorted)[1..] == Insert(v, sorted[1..]);
    }
  }

  lemma {:induction false} SortCounts(xs: seq<real>, x: real)
    ensures AtMost(Sort(xs), x) == AtMost(xs, x)
  {
    if xs != [] {
      SortCounts(xs[1..], x);
      InsertCounts(xs[0], Sort(xs[1..]), x);
    }
  }

  lemma AscendingTail(s: seq<real>)
    requires Ascending(s) && s != []
    ensures Ascending(s[1..])
    ensures forall i :: 0 <= i < |s| ==> s[0] <= s[i]
  {
  }

  /** In ascending order the `k`-th value is at most `x` exactly when more than `k` values are. */
  lemma {:induction false} RankByCount(s: seq<real>, k: nat, x: real)
    requires Ascending(s) && k < |s|
    ensures s[k] <= x <==> AtMost(s, x) > k
  {
    AscendingTail(s);
    if k > 0 {
      RankByCount(s[1..], k - 1, x);
    } else if s[0] > x {
      NoneAtMost(s, x);
    }
  }

  lemma {:induction false} NoneAtMost(s: seq<real>, x: real)
    requires forall i :: 0 <= i < |s| ==> s[i] > x
    ensures AtMost(s, x) == 0
  {
    if s != [] {
      NoneAtMost(s[1..], x);
    }
  }

  /** The `k`-th smallest of any list, read off counts alone. */
  lemma SortedRank(xs: seq<real>, k: nat, x: real)
    requires k < |xs|
    ensures Sort(xs)[k] <= x <==> AtMost(xs, x) > k
  {
    SortExact(xs);
    SortCounts(xs, x);
    RankByCount(Sort(xs), k, x);
  }

  // ----- robustness -----

  function Outside(xs: seq<real>, lo: real, hi: real): nat {
    if xs == [] then 0 else (if lo <= xs[0] <= hi then 0 else 1) + Outside(xs[1..], lo, hi)
  }

  lemma {:induction false} OutsideBounds(xs: seq<real>, lo: real, hi: real, x: real)
    requires lo <= hi
    ensures x < lo ==> AtMost(xs, x) <= Outside(xs, lo, hi)
    ensures x >= hi ==> |xs| - AtMost(xs, x) <= Outside(xs, lo, hi)
  {
    if xs != [] {
      OutsideBounds(xs[1..], lo, hi, x);
    }
  }

  /** A rank with at least as many values on either side as there are outliers lies inside. */
  lemma RankInside(xs: seq<real>, k: nat, lo: real, hi: real)
    requires lo <= hi && k < |xs|
    requires Outside(xs, lo, hi) <= k && Outside(xs, lo, hi) < |xs| - k
    ensures lo <= Sort(xs)[k] <= hi
  {
    var v := Sort(xs)[k];
    SortedRank(xs, k, v);
    OutsideBounds(xs, lo, hi, v);
    SortedRank(xs, k, hi);
    OutsideBounds(xs, lo, hi, hi);
  }

  /** With fewer than half the values outside a range, the median is inside it. */
  lemma MedianInside(xs: seq<real>, lo: real, hi: real)
    requires xs != [] && lo <= hi && 2 * Outside(xs, lo, hi) < |xs|
    ensures lo <= Median(Sort(xs)) <= hi
  {
    hide Sort, Outside;
    var mid := |xs| / 2;
    RankInside(xs, mid, lo, hi);
    if |xs| % 2 == 0 {
      RankInside(xs, mid - 1, lo, hi);
    }
  }

  // ----- which value it is -----

  /** `v` is the value of rank `k` among those listed: more than `k` are at most `v`, and no more than `k` at most
      anything less. */
  ghost predicate HasRank(xs: seq<real>, k: nat, v: real) {
    AtMost(xs, v) > k && forall x :: x < v ==> AtMost(xs, x) <= k
  }

  lemma SortedHasRank(xs: seq<real>, k: nat)
    requires k < |xs|
    ensures HasRank(xs, k, Sort(xs)[k])
  {
    var v := Sort(xs)[k];
    SortedRank(xs, k, v);
    forall x | x < v ensures AtMost(xs, x) <= k {
      SortedRank(xs, k, x);
    }
  }

  lemma RankIsUnique(xs: seq<real>, k: nat, v: real, w: real)
    requires HasRank(xs, k, v) && HasRank(xs, k, w)
    ensures v == w
  {
  }

  /** The median lies midway between the middle values: the one with as many before it as after it when the
      count is odd, the two in the middle when it is even. */
  lemma MedianIsMidway(xs: seq<real>) returns (lo: real, hi: real)
    requires xs != []
    ensures HasRank(xs, (|xs| - 1) / 2, lo) && HasRank(xs, |xs| / 2, hi)
    ensures Median(Sort(xs)) == (lo + hi) / 2.0
  {
    hide Sort, HasRank;
    SortedHasRank(xs, (|xs| - 1) / 2);
    SortedHasRank(xs, |xs| / 2);
    lo, hi := Sort(xs)[(|xs| - 1) / 2], Sort(xs)[|xs| / 2];
  }

  // ----- dominance -----

  lemma {:induction false} DominatedCounts(xs: seq<real>, ys: seq<real>, x: real)
    requires |xs| == |ys| && forall i :: 0 <= i < |xs| ==> xs[i] <= ys[i]
    ensures AtMost(ys, x) <= AtMost(xs, x)
  {
    if xs != [] {
      DominatedCounts(xs[1..], ys[1..], x);
    }
  }

  lemma RankDominated(xs: seq<real>, ys: seq<real>, k: nat)
    requires |xs| == |ys| && k < |xs| && forall i :: 0 <= i < |xs| ==> xs[i] <= ys[i]
    ensures Sort(xs)[k] <= Sort(ys)[k]
  {
    var v := Sort(ys)[k];
    SortedRank(ys, k, v);
    DominatedCounts(xs, ys, v);
    SortedRank(xs, k, v);
  }

  lemma {:induction false} MedianMonotone(xs: seq<real>, ys: seq<real>)
    requires xs != [] && |xs| == |ys| && forall i :: 0 <= i < |xs| ==> xs[i] <= ys[i]
    ensures Median(Sort(xs)) <= Median(Sort(ys))
  {
    hide Sort;
    var mid := |xs| / 2;
    RankDominated(xs, ys, mid);
    if |xs| % 2 == 0 {
      RankDominated(xs, ys, mid - 1);
    }
  }

  // ----- merging quotes -----

  function Collect(field: Quote -> Option<real>, quotes: seq<Quote>): seq<real> {
    if quotes == [] then []
    else
      var rest := Collect(field, quotes[1..]);
      match field(quotes[0]) case Some(x) => [x] + rest case None => rest
  }

  function Highest(xs: seq<real>): (m: real)
    requires xs != []
    ensures m in xs && forall x :: x in xs ==> x <= m
  {
    if |xs| == 1 then xs[0]
    else
      var rest := Highest(xs[1..]);
      assert forall x :: x in xs ==> x == xs[0] || x in xs[1..];
      Max(xs[0], rest)
  }

  function Lowest(xs: seq<real>): (m: real)
    requires xs != []
    ensures m in xs && forall x :: x in xs ==> m <= x
  {
    if |xs| == 1 then xs[0]
    else
      var rest := Lowest(xs[1..]);
      assert forall x :: x in xs ==> x == xs[0] || x in xs[1..];
      Min(xs[0], rest)
  }

  function MedianOf(xs: seq<real>): Option<real> {
    if xs == [] then None else Some(Median(Sort(xs)))
  }

  function HighestOf(xs: seq<real>): Option<real> {
    if xs == [] then None else Some(Highest(xs))
  }

  function LowestOf(xs: seq<real>): Option<real> {
    if xs == [] then None else Some(Lowest(xs))
  }

  predicate AllRealTime(quotes: seq<Quote>) {
    forall q :: q in quotes ==> q.isRealTime
  }

  const LAST := (q: Quote) => Some(q.last)
  const TIMESTAMP := (q: Quote) => Some(q.timestamp)
  const BID := (q: Quote) => q.bid
  const ASK := (q: Quote) => q.ask
  const OPEN := (q: Quote) => q.open
  const HIGH := (q: Quote) => q.high
  const LOW := (q: Quote) => q.low
  const PREV_CLOSE := (q: Quote) => q.prevClose
  const VOLUME := (q: Quote) => q.volume

  datatype MedianAggregation = MedianAggregation(minProviders: int, checkDisagreement: bool)

  /** `Raised` stands for the errors of an empty median and of a zero median under the spread check. */
  datatype Merge = NoConsensus | Raised | Merged(quote: Quote)

  function Aggregate(cfg: MedianAggregation, quotes: seq<Quote>): Merge {
    if |quotes| < cfg.minProviders then NoConsensus
    else if quotes == [] then Raised
    else
      var last := MedianOf(Collect(LAST, quotes));
      if last.None? || (cfg.checkDisagreement && |quotes| >= 2 && last.value == 0.0) then Raised
      else Merged(Quote(last.value, HighestOf(Collect(TIMESTAMP, quotes)).GetOr(0.0),
                        MedianOf(Collect(BID, quotes)), MedianOf(Collect(ASK, quotes)), MedianOf(Collect(OPEN, quotes)),
                        HighestOf(Collect(HIGH, quotes)), LowestOf(Collect(LOW, quotes)),
                        MedianOf(Collect(PREV_CLOSE, quotes)),
                        HighestOf(Collect(VOLUME, quotes)), quotes[0].currency, AllRealTime(quotes)))
  }

  lemma {:induction false} CollectEvery(field: Quote -> Option<real>, quotes: seq<Quote>)
    requires forall i :: 0 <= i < |quotes| ==> field(quotes[i]).Some?
    ensures |Collect(field, quotes)| == |quotes|
    ensures forall i :: 0 <= i < |quotes| ==> Collect(field, quotes)[i] == field(quotes[i]).value
  {
    if quotes != [] {
      CollectEvery(field, quotes[1..]);
      var all := Collect(field, quotes);
      assert all[1..] == Collect(field, quotes[1..]);
      forall i | 0 <= i < |quotes| ensures all[i] == field(quotes[i]).value {
        assert i > 0 ==> all[i] == all[1..][i - 1] && quotes[i] == quotes[1..][i - 1];
      }
    }
  }

  lemma {:induction false} OutsideSnoc(xs: seq<real>, x: real, lo: real, hi: real)
    ensures Outside(xs + [x], lo, hi) == Outside(xs, lo, hi) + if lo <= x <= hi then 0 else 1
  {
    if xs == [] {
      assert [] + [x] == [x] && [x][1..] == [];
    } else {
      assert (xs + [x])[1..] == xs[1..] + [x];
      OutsideSnoc(xs[1..], x, lo, hi);
    }
  }

  lemma {:induction false} OutsideWithin(xs: seq<real>, bad: set<nat>, lo: real, hi: real)
    requires forall i: nat :: i < |xs| && i !in bad ==> lo <= xs[i] <= hi
    ensures Outside(xs, lo, hi) <= |bad|
    decreases |xs|
  {
    if xs != [] {
      var n: nat := |xs| - 1;
      var fewer := bad - {n};
      OutsideWithin(xs[..n], fewer, lo, hi);
      OutsideSnoc(xs[..n], xs[n], lo, hi);
      assert xs == xs[..n] + [xs[n]];
      assert n in bad ==> |fewer| + 1 == |bad|;
      assert n !in bad ==> fewer == bad;
    }
  }

  /** Robustness: when fewer than half of the quotes are arbitrary and every other price lies between
      `lo` and `hi`, the merged price does too, for odd and even numbers of quotes. */
  lemma MergedPriceIsRobust(cfg: MedianAggregation, quotes: seq<Quote>, arbitrary: set<nat>, lo: real, hi: real)
    requires lo <= hi && 2 * |arbitrary| < |quotes|
    requires forall i: nat :: i < |quotes| && i !in arbitrary ==> lo <= quotes[i].last <= hi
    requires Aggregate(cfg, quotes).Merged?
    ensures lo <= Aggregate(cfg, quotes).quote.last <= hi
  {
    CollectEvery(LAST, quotes);
    var prices := Collect(LAST, quotes);
    forall i: nat | i < |prices| && i !in arbitrary ensures lo <= prices[i] <= hi {
      assert prices[i] == LAST(quotes[i]).value;
    }
    OutsideWithin(prices, arbitrary, lo, hi);
    MedianInside(prices, lo, hi);
  }

  /** If every quote has a bid no higher than its ask, so has the merged quote. */
  lemma MergedQuoteIsUncrossed(cfg: MedianAggregation, quotes: seq<Quote>)
    requires forall i :: 0 <= i < |quotes| ==>
             quotes[i].bid.Some? && quotes[i].ask.Some? && quotes[i].bid.value <= quotes[i].ask.value
    requires Aggregate(cfg, quotes).Merged?
    ensures var q := Aggregate(cfg, quotes).quote; q.bid.Some? && q.ask.Some? && q.bid.value <= q.ask.value
  {
    CollectEvery(BID, quotes);
    CollectEvery(ASK, quotes);
    var bids, asks := Collect(BID, quotes), Collect(ASK, quotes);
    forall i | 0 <= i < |bids| ensures bids[i] <= asks[i] {
      assert bids[i] == BID(quotes[i]).value && asks[i] == ASK(quotes[i]).value;
    }
    MedianMonotone(bids, asks);
  }

  /** There is a merged quote exactly when enough providers answered, at least one did, and the spread check,
      where it runs, does not divide by a zero median; too few answers are no consensus, the rest an error. */
  lemma MergesIff(cfg: MedianAggregation, quotes: seq<Quote>)
    ensures Aggregate(cfg, quotes).NoConsensus? <==> |quotes| < cfg.minProviders
    ensures Aggregate(cfg, quotes).Merged? <==>
            && |quotes| >= cfg.minProviders && |quotes| >= 1
            && !(cfg.checkDisagreement && |quotes| >= 2 && IsMiddle((q: Quote) => Some(q.last), quotes, Some(0.0)))
  {
    hide Collect, MedianOf, IsMiddle;
    if quotes != [] {
      EveryoneSupplies(quotes);
      MiddleOf(LAST, quotes);
      MiddleIsUnique(LAST, quotes, MedianOf(Collect(LAST, quotes)), Some(0.0));
    }
  }

  lemma EveryoneSupplies(quotes: seq<Quote>)
    requires quotes != []
    ensures MedianOf(Collect(LAST, quotes)).Some? && Suppliers(LAST, quotes) == |quotes|
  {
    CollectEvery(LAST, quotes);
    CollectCounts(LAST, quotes, 0.0);
  }

  lemma MiddleIsUnique(field: Quote -> Option<real>, quotes: seq<Quote>, m: Option<real>, m': Option<real>)
    requires IsMiddle(field, quotes, m) && m.Some? && m'.Some?
    ensures IsMiddle(field, quotes, m') <==> m == m'
  {
    hide SupplyingAtMost;
    if IsMiddle(field, quotes, m') && Suppliers(field, quotes) > 0 {
      var n := Suppliers(field, quotes);
      var lo, hi :| Midway(field, quotes, lo, hi, m.value);
      var lo', hi' :| Midway(field, quotes, lo', hi', m'.value);
      SuppliedRankIsUnique(field, quotes, (n - 1) / 2, lo, lo');
      SuppliedRankIsUnique(field, quotes, n / 2, hi, hi');
    }
  }

  lemma SuppliedRankIsUnique(field: Quote -> Option<real>, quotes: seq<Quote>, k: nat, v: real, w: real)
    requires SuppliedRank(field, quotes, k, v) && SuppliedRank(field, quotes, k, w)
    ensures v == w
  {
  }

  /** How many quotes supply the field. */
  function Suppliers(field: Quote -> Option<real>, quotes: seq<Quote>): nat {
    if quotes == [] then 0 else (if field(quotes[0]).Some? then 1 else 0) + Suppliers(field, quotes[1..])
  }

  /** How many supply at most `x`. */
  function SupplyingAtMost(field: Quote -> Option<real>, quotes: seq<Quote>, x: real): nat {
    if quotes == [] then 0
    else (if field(quotes[0]).Some? && field(quotes[0]).value <= x then 1 else 0)
         + SupplyingAtMost(field, quotes[1..], x)
  }

  lemma {:induction false} CollectCounts(field: Quote -> Option<real>, quotes: seq<Quote>, x: real)
    ensures |Collect(field, quotes)| == Suppliers(field, quotes)
    ensures AtMost(Collect(field, quotes), x) == SupplyingAtMost(field, quotes, x)
  {
    if quotes != [] {
      CollectCounts(field, quotes[1..], x);
      var all, rest := Collect(field, quotes), Collect(field, quotes[1..]);
      assert field(quotes[0]).Some? ==> all == [field(quotes[0]).value] + rest && all[1..] == rest;
    }
  }

  /** More than `k` quotes supply at most `v`, and no more than `k` at most anything less. */
  ghost predicate SuppliedRank(field: Quote -> Option<real>, quotes: seq<Quote>, k: nat, v: real) {
    SupplyingAtMost(field, quotes, v) > k && forall x :: x < v ==> SupplyingAtMost(field, quotes, x) <= k
  }

  /** `m` is midway between `lo` and `hi`, the middle ones of the values the quotes supply. */
  ghost predicate Midway(field: Quote -> Option<real>, quotes: seq<Quote>, lo: real, hi: real, m: real)
    requires Suppliers(field, quotes) > 0
  {
    var n := Suppliers(field, quotes);
    SuppliedRank(field, quotes, (n - 1) / 2, lo) && SuppliedRank(field, quotes, n / 2, hi) && m == (lo + hi) / 2.0
  }

  /** `m` is the middle of the values the quotes supply, absent only when none does. */
  ghost predicate IsMiddle(field: Quote -> Option<real>, quotes: seq<Quote>, m: Option<real>) {
    if Suppliers(field, quotes) == 0 then m.None?
    else m.Some? && exists lo, hi :: Midway(field, quotes, lo, hi, m.value)
  }

  lemma MiddleOf(field: Quote -> Option<real>, quotes: seq<Quote>)
    ensures IsMiddle(field, quotes, MedianOf(Collect(field, quotes)))
  {
    hide Collect, Sort, AtMost, Median;
    var xs := Collect(field, quotes);
    CollectCounts(field, quotes, 0.0);
    if xs != [] {
      var lo, hi := MedianIsMidway(xs);
      SuppliedHere(field, quotes, (|xs| - 1) / 2, lo);
      SuppliedHere(field, quotes, |xs| / 2, hi);
      assert Midway(field, quotes, lo, hi, Median(Sort(xs)));
    }
  }

  lemma SuppliedHere(field: Quote -> Option<real>, quotes: seq<Quote>, k: nat, v: real)
    requires HasRank(Collect(field, quotes), k, v)
    ensures SuppliedRank(field, quotes, k, v)
  {
    hide Collect, AtMost, SupplyingAtMost;
    CollectCounts(field, quotes, v);
    forall x | x < v ensures SupplyingAtMost(field, quotes, x) <= k {
      CollectCounts(field, quotes, x);
    }
  }

  /** Last price, bid, ask, open and previous close of the merged quote are each the middle of the like
      figures supplied, whoever supplies them; the currency is the first quote's. */
  lemma MergedMiddles(cfg: MedianAggregation, quotes: seq<Quote>)
    requires Aggregate(cfg, quotes).Merged?
    ensures var m := Aggregate(cfg, quotes).quote;
            && IsMiddle((q: Quote) => Some(q.last), quotes, Some(m.last))
            && IsMiddle((q: Quote) => q.bid, quotes, m.bid) && IsMiddle((q: Quote) => q.ask, quotes, m.ask)
            && IsMiddle((q: Quote) => q.open, quotes, m.open)
            && IsMiddle((q: Quote) => q.prevClose, quotes, m.prevClose)
            && quotes != [] && m.currency == quotes[0].currency
  {
    hide Collect, MedianOf, HighestOf, LowestOf, IsMiddle;
    MiddleOf(LAST, quotes);
    MiddleOf(BID, quotes);
    MiddleOf(ASK, quotes);
    MiddleOf(OPEN, quotes);
    MiddleOf(PREV_CLOSE, quotes);
  }

  lemma {:induction false} CollectExact(field: Quote -> Option<real>, quotes: seq<Quote>, x: real)
    ensures x in Collect(field, quotes) <==> exists q :: q in quotes && field(q) == Some(x)
  {
    if quotes != [] {
      CollectExact(field, quotes[1..], x);
      var rest := Collect(field, quotes[1..]);
      assert forall q :: q in quotes <==> q == quotes[0] || q in quotes[1..];
      assert field(quotes[0]).Some? ==> Collect(field, quotes) == [field(quotes[0]).value] + rest;
    }
  }

  /** `m` is the greatest (or least) of the values the quotes supply, and absent only when none does. */
  ghost predicate IsExtreme(field: Quote -> Option<real>, quotes: seq<Quote>, m: Option<real>, greatest: bool) {
    match m
    case None => forall q :: q in quotes ==> field(q).None?
    case Some(x) =>
      && (exists q :: q in quotes && field(q) == Some(x))
      && forall q :: q in quotes && field(q).Some? ==> if greatest then field(q).value <= x else x <= field(q).value
  }

  lemma ExtremeOf(field: Quote -> Option<real>, quotes: seq<Quote>)
    ensures IsExtreme(field, quotes, HighestOf(Collect(field, quotes)), true)
    ensures IsExtreme(field, quotes, LowestOf(Collect(field, quotes)), false)
  {
    var xs := Collect(field, quotes);
    forall q | q in quotes && field(q).Some? ensures field(q).value in xs {
      CollectExact(field, quotes, field(q).value);
    }
    if xs != [] {
      CollectExact(field, quotes, Highest(xs));
      CollectExact(field, quotes, Lowest(xs));
    }
  }

  /** Volume, high and timestamp are the greatest supplied, low the least, and the merged quote is
      real-time only when every input is. */
  lemma MergedExtremes(cfg: MedianAggregation, quotes: seq<Quote>)
    requires Aggregate(cfg, quotes).Merged?
    ensures var q := Aggregate(cfg, quotes).quote;
            && IsExtreme(VOLUME, quotes, q.volume, true) && IsExtreme(HIGH, quotes, q.high, true)
            && IsExtreme(TIMESTAMP, quotes, Some(q.timestamp), true) && IsExtreme(LOW, quotes, q.low, false)
            && (q.isRealTime <==> forall i :: 0 <= i < |quotes| ==> quotes[i].isRealTime)
  {
    hide Collect, HighestOf, LowestOf, MedianOf;
    ExtremeOf(VOLUME, quotes);
    ExtremeOf(HIGH, quotes);
    ExtremeOf(TIMESTAMP, quotes);
    ExtremeOf(LOW, quotes);
    assert quotes[0] in quotes && TIMESTAMP(quotes[0]).Some?;
  }

  // ----- fan-out, in whatever order the providers answer -----

  function Live(answers: seq<Option<Quote>>): seq<Quote> {
    if answers == [] then []
    else
      var before := Live(answers[..|answers| - 1]);
      match answers[|answers| - 1] case Some(q) => before + [q] case None => before
  }

  /** Collects the answers in the order they come; a provider that raised answers `None`. */
  method FanOut(answers: seq<Option<Quote>>) returns (quotes: seq<Quote>)
    ensures quotes == Live(answers)
  {
    quotes := [];
    assert answers[..|answers|] == answers;
    for k := 0 to |answers|
      invariant quotes == Live(answers[..k])
    {
      assert answers[..k + 1][..k] == answers[..k];
      if answers[k].Some? {
        quotes := quotes + [answers[k].value];
      }
    }
  }

  /** The default strategy stops at the first provider with a quote. */
  method FirstWins(answers: seq<Option<Quote>>) returns (quote: Option<Quote>)
    ensures quote == if Live(answers) == [] then None else Some(Live(answers)[0])
    ensures quote.None? ==> forall k :: 0 <= k < |answers| ==> answers[k].None?
    ensures quote.Some? ==>
              exists k :: 0 <= k < |answers| && answers[k] == quote && forall j :: 0 <= j < k ==> answers[j].None?
  {
    assert answers[..|answers|] == answers;
    for k := 0 to |answers|
      invariant Live(answers[..k]) == [] && forall j :: 0 <= j < k ==> answers[j].None?
    {
      assert answers[..k + 1][..k] == answers[..k];
      if answers[k].Some? {
        LivePrefix(answers, k + 1);
        return answers[k];
      }
    }
    quote := None;
  }

  lemma {:induction false} LivePrefix(answers: seq<Option<Quote>>, k: nat)
    requires k <= |answers|
    ensures Live(answers[..k]) <= Live(answers)
    decreases |answers|
  {
    if k < |answers| {
      LivePrefix(answers[..|answers| - 1], k);
      assert answers[..|answers| - 1][..k] == answers[..k];
    } else {
      assert answers[..k] == answers;
    }
  }

  // ----- permutations -----

  lemma SplitAt<T>(xs: seq<T>, ys: seq<T>) returns (k: nat)
    requires xs != [] && multiset(xs) == multiset(ys)
    ensures k < |ys| && ys[k] == xs[0] && ys == ys[..k] + [xs[0]] + ys[k + 1..]
    ensures multiset(xs[1..]) == multiset(ys[..k] + ys[k + 1..])
  {
    assert xs[0] in multiset(xs);
    assert xs[0] in ys;
    k :| 0 <= k < |ys| && ys[k] == xs[0];
    assert ys == ys[..k] + [xs[0]] + ys[k + 1..];
    assert xs == [xs[0]] + xs[1..];
    assert multiset(xs) == multiset{xs[0]} + multiset(xs[1..]);
    assert multiset(ys) == multiset(ys[..k]) + multiset{xs[0]} + multiset(ys[k + 1..]);
    assert multiset(ys[..k] + ys[k + 1..]) == multiset(ys[..k]) + multiset(ys[k + 1..]);
    assert multiset(xs[1..]) == multiset(xs) - multiset{xs[0]};
    assert multiset(ys[..k] + ys[k + 1..]) == multiset(ys) - multiset{xs[0]};
  }

  lemma {:induction false} CollectJoins(field: Quote -> Option<real>, a: seq<Quote>, b: seq<Quote>)
    ensures Collect(field, a + b) == Collect(field, a) + Collect(field, b)
  {
    if a == [] {
      assert a + b == b;
    } else {
      assert (a + b)[1..] == a[1..] + b;
      CollectJoins(field, a[1..], b);
    }
  }

  lemma {:induction false} CollectPermutes(field: Quote -> Option<real>, quotes: seq<Quote>, quotes': seq<Quote>)
    requires multiset(quotes) == multiset(quotes')
    ensures multiset(Collect(field, quotes)) == multiset(Collect(field, quotes'))
    decreases |quotes|
  {
    if quotes == [] {
      assert multiset(quotes') == multiset{};
      assert |quotes'| == |multiset(quotes')|;
    } else {
      var k := SplitAt(quotes, quotes');
      var front, back := quotes'[..k], quotes'[k + 1..];
      CollectPermutes(field, quotes[1..], front + back);
      CollectJoins(field, front, back);
      CollectJoins(field, front + [quotes[0]], back);
      CollectJoins(field, front, [quotes[0]]);
      CollectJoins(field, [quotes[0]], quotes[1..]);
      assert quotes == [quotes[0]] + quotes[1..];
    }
  }

  lemma SameLeast(s: seq<real>, t: seq<real>)
    requires Ascending(s) && Ascending(t) && multiset(s) == multiset(t) && s != []
    ensures t != [] && s[0] == t[0]
  {
    assert s[0] in multiset(t);
    assert t[0] in multiset(s);
    assert s[0] in t && t[0] in s;
  }

  lemma SameRest(s: seq<real>, t: seq<real>)
    requires multiset(s) == multiset(t) && s != [] && t != [] && s[0] == t[0]
    ensures multiset(s[1..]) == multiset(t[1..])
  {
    assert s == [s[0]] + s[1..] && t == [t[0]] + t[1..];
    assert multiset(s[1..]) == multiset(s) - multiset{s[0]};
    assert multiset(t[1..]) == multiset(t) - multiset{s[0]};
  }

  lemma {:induction false} SortedIsUnique(s: seq<real>, t: seq<real>)
    requires Ascending(s) && Ascending(t) && multiset(s) == multiset(t)
    ensures s == t
  {
    hide Ascending;
    if s == [] {
      assert |t| == |multiset(t)| == 0;
    } else {
      AscendingTail(s);
      SameLeast(s, t);
      AscendingTail(t);
      SameRest(s, t);
      SortedIsUnique(s[1..], t[1..]);
      assert s == [s[0]] + s[1..] && t == [t[0]] + t[1..];
    }
  }

  lemma SameMembers<T>(xs: seq<T>, ys: seq<T>)
    requires multiset(xs) == multiset(ys)
    ensures |xs| == |ys| && forall x :: x in xs <==> x in ys
  {
    assert |xs| == |multiset(xs)| && |ys| == |multiset(ys)|;
    forall x ensures x in xs <==> x in ys {
      assert x in xs <==> x in multiset(xs);
      assert x in ys <==> x in multiset(ys);
    }
  }

  lemma StatisticsPermute(xs: seq<real>, ys: seq<real>)
    requires multiset(xs) == multiset(ys)
    ensures MedianOf(xs) == MedianOf(ys) && HighestOf(xs) == HighestOf(ys) && LowestOf(xs) == LowestOf(ys)
  {
    hide Sort, Highest, Lowest;
    SameMembers(xs, ys);
    SortExact(xs);
    SortExact(ys);
    SortedIsUnique(Sort(xs), Sort(ys));
  }

  lemma FieldPermutes(field: Quote -> Option<real>, quotes: seq<Quote>, quotes': seq<Quote>)
    requires multiset(quotes) == multiset(quotes')
    ensures MedianOf(Collect(field, quotes)) == MedianOf(Collect(field, quotes'))
    ensures HighestOf(Collect(field, quotes)) == HighestOf(Collect(field, quotes'))
    ensures LowestOf(Collect(field, quotes)) == LowestOf(Collect(field, quotes'))
  {
    CollectPermutes(field, quotes, quotes');
    StatisticsPermute(Collect(field, quotes), Collect(field, quotes'));
  }

  /** The merged quote does not depend on the order of its inputs, but for the currency label, which
      is the first input's. */
  lemma MergeIgnoresOrder(cfg: MedianAggregation, quotes: seq<Quote>, quotes': seq<Quote>)
    requires multiset(quotes) == multiset(quotes')
    ensures var m, m' := Aggregate(cfg, quotes), Aggregate(cfg, quotes');
            if m.Merged? then quotes' != [] && m' == Merged(m.quote.(currency := quotes'[0].currency)) else m' == m
  {
    hide Collect, MedianOf, HighestOf, LowestOf;
    SameMembers(quotes, quotes');
    FieldPermutes(LAST, quotes, quotes');
    FieldPermutes(TIMESTAMP, quotes, quotes');
    FieldPermutes(BID, quotes, quotes');
    FieldPermutes(ASK, quotes, quotes');
    FieldPermutes(OPEN, quotes, quotes');
    FieldPermutes(HIGH, quotes, quotes');
    FieldPermutes(LOW, quotes, quotes');
    FieldPermutes(PREV_CLOSE, quotes, quotes');
    FieldPermutes(VOLUME, quotes, quotes');
    assert AllRealTime(quotes) == AllRealTime(quotes');
  }

  lemma {:induction false} LiveExact(answers: seq<Option<Quote>>, q: Quote)
    ensures multiset(Live(answers))[q] == multiset(answers)[Some(q)]
  {
    if answers != [] {
      var n := |answers| - 1;
      LiveExact(answers[..n], q);
      CountSnoc(answers[..n], answers[n], Some(q));
      assert answers == answers[..n] + [answers[n]];
      if answers[n].Some? {
        CountSnoc(Live(answers[..n]), answers[n].value, q);
      }
    }
  }

  lemma CountSnoc<T>(xs: seq<T>, x: T, y: T)
    ensures multiset(xs + [x])[y] == multiset(xs)[y] + if x == y then 1 else 0
  {
  }

  /** The thread pool's completion order does not matter: the same answers arriving in any two orders
      merge to the same prices, volume, timestamp and real-time flag. */
  lemma {:induction false} CompletionOrderIsIrrelevant(cfg: MedianAggregation, answers: seq<Option<Quote>>,
                                                       answers': seq<Option<Quote>>)
    requires multiset(answers) == multiset(answers')
    ensures var m, m' := Aggregate(cfg, Live(answers)), Aggregate(cfg, Live(answers'));
            if m.Merged? then m'.Merged? && m'.quote == m.quote.(currency := m'.quote.currency) else m' == m
  {
    forall q ensures multiset(Live(answers))[q] == multiset(Live(answers'))[q] {
      LiveExact(answers, q);
      LiveExact(answers', q);
    }
    assert multiset(Live(answers)) == multiset(Live(answers'));
    MergeIgnoresOrder(cfg, Live(answers), Live(answers'));
  }
}
