/** The simulated fill price: last price moved against the trader by a few basis points,
    never past the order's own limit. */
module Slippage {
  import opened Domain
  import opened Wrappers

  datatype SlippageConfig = SlippageConfig(bps: real, perSymbolBps: map<string, real>, applyToLimits: bool) {
    function BpsFor(symbol: string): real {
      if symbol in perSymbolBps then perSymbolBps[symbol] else bps
    }
  }

  /** `None` stands for the ValueError raised on a non-positive last price. */
  function ApplySlippage(config: SlippageConfig, side: Side, orderType: OrderType, lastPrice: real,
                         limitPrice: Option<real>, symbol: string): Option<real>
  {
    if lastPrice <= 0.0 then None
    else if orderType == Limit && !config.applyToLimits then Some(lastPrice)
    else
      var bps := Max(0.0, config.BpsFor(symbol)) / 10000.0;
      var slipped := if side == Buy then lastPrice * (1.0 + bps) else lastPrice * (1.0 - bps);
      if orderType == Limit && limitPrice.Some? then
        Some(if side == Buy then Min(slipped, limitPrice.value) else Max(slipped, limitPrice.value))
      else Some(slipped)
  }

  predicate NoWorse(side: Side, price: real, limit: real) {
    if side == Buy then price <= limit else price >= limit
  }

  /** The price moved against the trader by the symbol's basis points, never fewer than none. */
  ghost function Moved(config: SlippageConfig, side: Side, symbol: string, last: real): real {
    var bps := if symbol in config.perSymbolBps then config.perSymbolBps[symbol] else config.bps;
    var move := if bps < 0.0 then 0.0 else last * (bps / 10000.0);
    if side == Buy then last + move else last - move
  }

  lemma MovedBySlippage(config: SlippageConfig, side: Side, symbol: string, last: real)
    ensures var bps := Max(0.0, config.BpsFor(symbol)) / 10000.0;
            Moved(config, side, symbol, last) == if side == Buy then last * (1.0 + bps) else last * (1.0 - bps)
  {
    var bps := Max(0.0, config.BpsFor(symbol)) / 10000.0;
    MovedBy(last, bps, last * bps);
    if config.BpsFor(symbol) < 0.0 {
      MovedBy(last, 0.0, 0.0);
    }
  }

  lemma MovedBy(last: real, part: real, move: real)
    requires move == last * part || (part == 0.0 && move == 0.0)
    ensures last * (1.0 + part) == last + move && last * (1.0 - part) == last - move
  {
  }

  /** What a limit order pays at `last`: exactly that; or, when limit orders pay slippage, `last` moved against
      the trader, but its own limit where the move would pass it. */
  ghost predicate LimitPays(config: SlippageConfig, side: Side, symbol: string, last: real, limit: real, price: real) {
    if !config.applyToLimits then price == last
    else if side == Buy then price == Min(limit, Moved(config, side, symbol, last))
    else price == Max(limit, Moved(config, side, symbol, last))
  }

  lemma LimitPaysExactly(config: SlippageConfig, side: Side, last: real, limit: real, symbol: string, price: real)
    ensures ApplySlippage(config, side, Limit, last, Some(limit), symbol) == Some(price) <==>
            last > 0.0 && LimitPays(config, side, symbol, last, limit, price)
  {
    hide Moved;
    MovedBySlippage(config, side, symbol, last);
  }

  /** A market order pays all of the move. */
  lemma MarketPaysExactly(config: SlippageConfig, side: Side, last: real, symbol: string, price: real)
    ensures ApplySlippage(config, side, Market, last, None, symbol) == Some(price) <==>
            last > 0.0 && price == Moved(config, side, symbol, last)
  {
    hide Moved;
    MovedBySlippage(config, side, symbol, last);
  }

  /** A limit order that fills because the market reached its limit is filled inside that limit,
      whether or not limit orders pay slippage, and stays positive when the limit is. */
  lemma CrossedFillStaysInsideLimit(config: SlippageConfig, side: Side, lastPrice: real, limit: real, symbol: string)
    requires lastPrice > 0.0 && NoWorse(side, lastPrice, limit)
    ensures var price := ApplySlippage(config, side, Limit, lastPrice, Some(limit), symbol);
            price.Some? && NoWorse(side, price.value, limit) && (limit > 0.0 ==> price.value > 0.0)
  {
    var bps := Max(0.0, config.BpsFor(symbol)) / 10000.0;
    if side == Buy {
      assert lastPrice * (1.0 + bps) == lastPrice + lastPrice * bps;
      assert lastPrice * bps >= 0.0;
    }
  }

  /** Slippage never helps: a market buy pays at least the last price, a market sell gets at most it. */
  lemma SlippageNeverHelps(config: SlippageConfig, side: Side, lastPrice: real, limit: Option<real>, symbol: string)
    requires lastPrice > 0.0
    ensures var price := ApplySlippage(config, side, Market, lastPrice, limit, symbol);
            price.Some? && NoWorse(Opposite(side), price.value, lastPrice)
  {
    var bps := Max(0.0, config.BpsFor(symbol)) / 10000.0;
    assert lastPrice * (1.0 + bps) == lastPrice + lastPrice * bps;
    assert lastPrice * (1.0 - bps) == lastPrice - lastPrice * bps;
    assert lastPrice * bps >= 0.0;
  }
}
