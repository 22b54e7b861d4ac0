/** A limit order worked through the partial-fill cap, tick after tick. */
module Slicing {
  import opened Domain
  import opened Wrappers
  import opened PartialFills
  import opened Store

  /** A tick on which the order's price is reached and its slice commits. */
  datatype Tick = Tick(price: real, fees: real, realizedPl: real)

  lemma SliceFits(config: PartialFillConfig, o: Order)
    requires config.minFillQty >= 1 && Remaining(o) > 0.0
    ensures SliceQty(o, Some(FillQty(config, Remaining(o)))) == FillQty(config, Remaining(o)) > 0.0
  {
    SliceInRange(config, Remaining(o));
  }

  /** The order's row after the given ticks; one with nothing left is not filled again. */
  ghost function AfterTicks(config: PartialFillConfig, o: Order, ticks: seq<Tick>): Order
    requires config.minFillQty >= 1 && o.filledQty >= 0.0
    decreases |ticks|
  {
    if ticks == [] || Remaining(o) <= 0.0 then o
    else
      SliceFits(config, o);
      var t := ticks[0];
      AfterTicks(config, FilledRow(o, o, Some(FillQty(config, Remaining(o))), t.price, t.fees, t.realizedPl),
                 ticks[1..])
  }

  lemma SliceOfRow(config: PartialFillConfig, o: Order, t: Tick) returns (row: Order, slice: real)
    requires config.minFillQty >= 1 && o.filledQty >= 0.0 && Remaining(o) > 0.0
    ensures slice > 0.0 && slice == SliceQty(o, Some(FillQty(config, Remaining(o))))
    ensures row == FilledRow(o, o, Some(FillQty(config, Remaining(o))), t.price, t.fees, t.realizedPl)
    ensures row.qty == o.qty && row.filledQty >= 0.0 && Remaining(row) == Remaining(o) - slice
    ensures row.status == if Remaining(row) <= 0.0 then Filled else PartiallyFilled
    ensures Slices(config, Remaining(o)) == [slice] + Slices(config, Remaining(row))
  {
    SliceFits(config, o);
    slice := FillQty(config, Remaining(o));
    row := FilledRow(o, o, Some(slice), t.price, t.fees, t.realizedPl);
  }

  /** The order is filled, in full and in no excess, exactly once it has had as many crossing ticks
      as the cap has slices for what remained; before that it is still open. */
  lemma {:induction false} FilledExactlyAfterItsSlices(config: PartialFillConfig, o: Order, ticks: seq<Tick>)
    requires config.minFillQty >= 1 && o.filledQty >= 0.0 && Open(o) && Remaining(o) > 0.0
    ensures var row := AfterTicks(config, o, ticks);
            && (row.status == Filled <==> |ticks| >= |Slices(config, Remaining(o))|)
            && (row.status == Filled ==> row.filledQty == o.qty)
            && (row.status != Filled ==> Open(row) && o.filledQty <= row.filledQty < o.qty)
    decreases |ticks|
  {
    if ticks == [] {
      var row, slice := SliceOfRow(config, o, Tick(0.0, 0.0, 0.0));
    } else {
      hide FilledRow, FillQty;
      var row, slice := SliceOfRow(config, o, ticks[0]);
      if Remaining(row) > 0.0 {
        FilledExactlyAfterItsSlices(config, row, ticks[1..]);
      } else {
        assert Slices(config, Remaining(row)) == [];
        assert AfterTicks(config, row, ticks[1..]) == row;
        SliceInRange(config, Remaining(o));
      }
    }
  }
}
