/** Snapping prices to the exchange's tick grid. */
module Ticks {
  import opened Wrappers

  function Grid(n: int, tick: real): real {
    n as real * tick
  }

  function NearestStep(price: real, tick: real): int
    requires tick > 0.0
  {
    (price / tick + 0.5).Floor
  }

  /** Nearest multiple of `tick`, ties upward; 0 when the tick or the price is not positive. */
  function RoundToTick(price: real, tick: real): real {
    if tick <= 0.0 || price <= 0.0 then 0.0 else Grid(NearestStep(price, tick), tick)
  }

  // ----- products with a positive tick keep their order -----

  lemma ScaleStrict(x: real, y: real, t: real, p: real, q: real)
    requires t > 0.0 && x < y && p == x * t && q == y * t
    ensures p < q
  {
    assert (y - x) * t > 0.0;
  }

  lemma ScaleWeak(x: real, y: real, t: real, p: real, q: real)
    requires t > 0.0 && x <= y && p == x * t && q == y * t
    ensures p <= q
  {
    if x < y {
      ScaleStrict(x, y, t, p, q);
    }
  }

  lemma Shift(n: real, h: real, t: real)
    ensures (n + h) * t == n * t + h * t
  {
  }

  lemma ScaledBounds(price: real, x: real, n: real, tick: real)
    requires tick > 0.0 && n - 0.5 <= x < n + 0.5 && x * tick == price
    ensures n * tick - 0.5 * tick <= price < n * tick + 0.5 * tick
  {
    Shift(n, 0.5, tick);
    Shift(n, -0.5, tick);
    ScaleStrict(x, n + 0.5, tick, price, n * tick + 0.5 * tick);
    ScaleWeak(n + -0.5, x, tick, n * tick + -0.5 * tick, price);
  }

  /** A price is within half a tick of its step, the lower end included. */
  lemma StepBounds(price: real, tick: real)
    requires tick > 0.0
    ensures var n := NearestStep(price, tick); Grid(n, tick) - 0.5 * tick <= price < Grid(n, tick) + 0.5 * tick
  {
    QuotientTimes(price, tick);
    ScaledBounds(price, price / tick, NearestStep(price, tick) as real, tick);
  }

  lemma NextGrid(m: int, n: int, tick: real)
    requires tick > 0.0 && m < n
    ensures Grid(n, tick) >= Grid(m, tick) + tick
  {
    Shift(m as real, 1.0, tick);
    ScaleWeak(m as real + 1.0, n as real, tick, m as real * tick + tick, Grid(n, tick));
  }

  lemma GridEnds(tick: real)
    ensures Grid(0, tick) == 0.0 && Grid(1, tick) == tick
  {
  }

  // ----- what snapping promises -----

  /** The snapped price lies on the grid, and no other grid price is nearer. */
  lemma SnapsToNearest(price: real, tick: real, n: int)
    requires price > 0.0 && tick > 0.0
    ensures RoundToTick(price, tick) == Grid(NearestStep(price, tick), tick)
    ensures Abs(RoundToTick(price, tick) - price) <= Abs(Grid(n, tick) - price)
  {
    hide NearestStep, Grid;
    var m := NearestStep(price, tick);
    StepBounds(price, tick);
    if n > m {
      NextGrid(m, n, tick);
    } else if n < m {
      NextGrid(n, m, tick);
    }
  }

  lemma PositiveStep(price: real, tick: real)
    requires price > 0.0 && tick > 0.0
    ensures NearestStep(price, tick) >= 0 && RoundToTick(price, tick) >= 0.0
  {
    hide NearestStep, Grid;
    var m := NearestStep(price, tick);
    StepBounds(price, tick);
    GridEnds(tick);
    if m < 0 {
      NextGrid(m, 0, tick);
    } else if m > 0 {
      NextGrid(0, m, tick);
    }
  }

  lemma SnapIsMonotone(p: real, q: real, tick: real)
    requires p <= q
    ensures 0.0 <= RoundToTick(p, tick) <= RoundToTick(q, tick)
  {
    hide NearestStep, Grid;
    if tick > 0.0 && q > 0.0 {
      PositiveStep(q, tick);
      if p > 0.0 {
        PositiveStep(p, tick);
        StepBounds(p, tick);
        StepBounds(q, tick);
        if NearestStep(p, tick) > NearestStep(q, tick) {
          NextGrid(NearestStep(q, tick), NearestStep(p, tick), tick);
        } else if NearestStep(p, tick) < NearestStep(q, tick) {
          NextGrid(NearestStep(p, tick), NearestStep(q, tick), tick);
        }
      }
    }
  }

  /** A positive price snaps to zero exactly when it is below half a tick, and otherwise to at least one tick. */
  lemma SnapsToZeroIffBelowHalf(price: real, tick: real)
    requires price > 0.0 && tick > 0.0
    ensures RoundToTick(price, tick) == 0.0 <==> 2.0 * price < tick
    ensures RoundToTick(price, tick) == 0.0 || RoundToTick(price, tick) >= tick
  {
    hide NearestStep, Grid;
    PositiveStep(price, tick);
    StepBounds(price, tick);
    GridEnds(tick);
    if NearestStep(price, tick) > 0 {
      NextGrid(0, NearestStep(price, tick), tick);
    }
  }
}
