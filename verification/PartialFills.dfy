/** The per-tick fill cap, and what repeating it does to a whole order. */
module PartialFills {
  import opened Wrappers

  datatype PartialFillConfig = PartialFillConfig(enabled: bool, maxPerTick: Option<int>,
                                                 maxPctPerTick: Option<real>, minFillQty: int)

  /** The broker's default: a quarter of what remains, at least one share. */
  const QUARTER_PER_TICK := PartialFillConfig(true, None, Some(0.25), 1)

  /** What both caps allow, before rounding. */
  function Capped(config: PartialFillConfig, remaining: real): real {
    var byShares := if config.maxPerTick.Some? then Min(remaining, config.maxPerTick.value as real) else remaining;
    if config.maxPctPerTick.Some? then Min(byShares, remaining * config.maxPctPerTick.value) else byShares
  }

  function FillQty(config: PartialFillConfig, remaining: real): real {
    if !config.enabled || remaining <= 0.0 then remaining
    else if remaining <= config.minFillQty as real then remaining
    else
      var cap := Capped(config, remaining).Floor;
      if cap < config.minFillQty then
        (if config.minFillQty <= remaining.Floor then config.minFillQty else remaining.Floor) as real
      else cap as real
  }

  /** Every slice is at least the floor (or all that is left) and never more than what is left. */
  lemma SliceInRange(config: PartialFillConfig, remaining: real)
    requires config.minFillQty >= 1 && remaining > 0.0
    ensures Min(config.minFillQty as real, remaining) <= FillQty(config, remaining) <= remaining
    ensures FillQty(config, remaining) > 0.0
  {
    assert remaining.Floor as real <= remaining;
  }

  lemma CappedExact(config: PartialFillConfig, remaining: real)
    ensures var c := Capped(config, remaining);
            && c <= remaining && (config.maxPerTick.Some? ==> c <= config.maxPerTick.value as real)
            && (config.maxPctPerTick.Some? ==> c <= remaining * config.maxPctPerTick.value)
            && (|| c == remaining || (config.maxPerTick.Some? && c == config.maxPerTick.value as real)
                || (config.maxPctPerTick.Some? && c == remaining * config.maxPctPerTick.value))
  {
  }

  /** An enabled cap on an order larger than the floor takes whole shares: the most that both caps
      allow, or the floor when they allow less. A disabled cap takes everything. */
  lemma SliceIsLargestAllowed(config: PartialFillConfig, remaining: real)
    requires config.minFillQty >= 1 && remaining > config.minFillQty as real
    ensures !config.enabled ==> FillQty(config, remaining) == remaining
    ensures config.enabled ==>
              exists n: int {:trigger WholeShares(n, remaining)} :: WholeShares(n, remaining)
                && FillQty(config, remaining) == n as real
                && n >= config.minFillQty
                && (n == config.minFillQty || (
                      && (config.maxPerTick.Some? ==> n <= config.maxPerTick.value)
                      && (config.maxPctPerTick.Some? ==> n as real <= remaining * config.maxPctPerTick.value)))
                && (|| n as real + 1.0 > remaining
                    || (config.maxPerTick.Some? && n + 1 > config.maxPerTick.value)
                    || (config.maxPctPerTick.Some? && n as real + 1.0 > remaining * config.maxPctPerTick.value))
  {
    var n := FillQty(config, remaining).Floor;
    CappedExact(config, remaining);
    assert config.enabled ==> WholeShares(n, remaining);
    assert remaining.Floor >= config.minFillQty;
  }

  predicate WholeShares(n: int, remaining: real) {
    1 <= n && n as real <= remaining
  }

  ghost function TicksLeft(remaining: real): nat {
    if remaining <= 0.0 then 0 else remaining.Floor + 1
  }

  /** The slices of an order that crosses on every tick, until nothing remains. */
  ghost function Slices(config: PartialFillConfig, remaining: real): seq<real>
    requires config.minFillQty >= 1
    decreases TicksLeft(remaining)
  {
    if remaining <= 0.0 then []
    else
      SliceInRange(config, remaining);
      var slice := FillQty(config, remaining);
      [slice] + Slices(config, remaining - slice)
  }

  lemma SliceDetail(config: PartialFillConfig, qty: real) returns (slice: real)
    requires config.minFillQty >= 1 && qty > 0.0
    ensures Slices(config, qty) == [slice] + Slices(config, qty - slice)
    ensures slice == qty || config.minFillQty as real <= slice < qty
    ensures TicksLeft(qty - slice) < TicksLeft(qty)
  {
    SliceInRange(config, qty);
    slice := FillQty(config, qty);
  }

  /** The slices add up to the order exactly. */
  lemma {:induction false} SlicesAddUp(config: PartialFillConfig, qty: real)
    requires config.minFillQty >= 1 && qty >= 0.0
    ensures Sum(Slices(config, qty)) == qty
    decreases TicksLeft(qty)
  {
    if qty > 0.0 {
      var slice := SliceDetail(config, qty);
      var later := Slices(config, qty - slice);
      assert ([slice] + later)[1..] == later;
      SlicesAddUp(config, qty - slice);
    }
  }

  /** All but the last slice reach the floor, and no slice is empty. */
  lemma {:induction false} SlicesReachFloor(config: PartialFillConfig, qty: real)
    requires config.minFillQty >= 1 && qty > 0.0
    ensures var xs := Slices(config, qty);
            && |xs| >= 1
            && (forall i :: 0 <= i < |xs| ==> xs[i] > 0.0)
            && (forall i :: 0 <= i < |xs| - 1 ==> xs[i] >= config.minFillQty as real)
    decreases TicksLeft(qty)
  {
    var slice := SliceDetail(config, qty);
    var later := Slices(config, qty - slice);
    if qty - slice > 0.0 {
      SlicesReachFloor(config, qty - slice);
      var xs := [slice] + later;
      assert forall i :: 1 <= i < |xs| ==> xs[i] == later[i - 1];
    }
  }

  lemma {:induction false} SumOverFloor(xs: seq<real>, floor: int)
    requires |xs| >= 1 && forall i :: 0 <= i < |xs| ==> xs[i] > 0.0
    requires forall i :: 0 <= i < |xs| - 1 ==> xs[i] >= floor as real
    ensures ((|xs| - 1) * floor) as real < Sum(xs)
  {
    if |xs| == 1 {
      assert xs[1..] == [];
    } else {
      SumOverFloor(xs[1..], floor);
      assert (|xs| - 2) * floor + floor == (|xs| - 1) * floor;
    }
  }

  /** An order of `qty` shares needs at most ceil(qty / minFillQty) crossing ticks. */
  lemma {:induction false} TicksWithinFloorCount(config: PartialFillConfig, qty: real)
    requires config.minFillQty >= 1 && qty > 0.0
    ensures ((|Slices(config, qty)| - 1) * config.minFillQty) as real < qty
  {
    SlicesReachFloor(config, qty);
    SlicesAddUp(config, qty);
    SumOverFloor(Slices(config, qty), config.minFillQty);
  }

  ghost function AfterTick(remaining: int): int {
    remaining - FillQty(QUARTER_PER_TICK, remaining as real).Floor
  }

  lemma QuarterTick(remaining: int)
    requires remaining >= 1
    ensures FillQty(QUARTER_PER_TICK, remaining as real) == (remaining - AfterTick(remaining)) as real
    ensures AfterTick(remaining) == if remaining < 8 then remaining - 1 else remaining - remaining / 4
  {
    var quarter := remaining as real * 0.25;
    assert quarter.Floor == remaining / 4 by {
      assert (remaining / 4) as real <= quarter < (remaining / 4) as real + 1.0;
    }
  }

  /** Three ticks of the default cap at least halve what exceeds three shares. */
  lemma ThreeTicksHalve(remaining: int)
    requires remaining > 3
    ensures AfterTick(remaining) >= 1 && AfterTick(AfterTick(remaining)) >= 1
    ensures 2 * (AfterTick(AfterTick(AfterTick(remaining))) - 3) <= remaining - 3
  {
    QuarterTick(remaining);
    var r1 := AfterTick(remaining);
    QuarterTick(r1);
    var r2 := AfterTick(r1);
    QuarterTick(r2);
  }

  ghost function Pow2(k: nat): nat {
    if k == 0 then 1 else 2 * Pow2(k - 1)
  }

  lemma SlicesStep(remaining: int)
    requires remaining >= 1
    ensures |Slices(QUARTER_PER_TICK, remaining as real)| ==
            1 + |Slices(QUARTER_PER_TICK, AfterTick(remaining) as real)|
  {
    QuarterTick(remaining);
    assert remaining as real - (remaining - AfterTick(remaining)) as real == AfterTick(remaining) as real;
  }

  /** The default cap completes an order of up to 3 + 2^k shares in at most 3k + 4 ticks. */
  lemma {:induction false} LogarithmicCompletion(qty: int, k: nat)
    requires 0 <= qty <= 3 + Pow2(k)
    ensures |Slices(QUARTER_PER_TICK, qty as real)| <= 3 * k + 4
    decreases k, qty
  {
    if qty == 0 {
    } else if k == 0 || qty <= 3 {
      SlicesStep(qty);
      QuarterTick(qty);
      SmallOrder(qty);
    } else {
      var r1 := AfterTick(qty);
      var r2 := AfterTick(r1);
      var r3 := AfterTick(r2);
      ThreeTicksHalve(qty);
      SlicesStep(qty);
      SlicesStep(r1);
      SlicesStep(r2);
      QuarterTick(r2);
      LogarithmicCompletion(r3, k - 1);
    }
  }

  lemma {:induction false} SmallOrder(qty: int)
    requires 0 <= qty <= 4
    ensures |Slices(QUARTER_PER_TICK, qty as real)| == qty
  {
    if qty > 0 {
      SlicesStep(qty);
      QuarterTick(qty);
      SmallOrder(qty - 1);
    }
  }
}
