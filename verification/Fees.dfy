/** The Indian fee engine: seven charges on a turnover, each rounded to paise. */
module Fees {
  import opened Domain
  import opened Wrappers

  datatype FeeConfig = FeeConfig(
    brokerageFlat: real, brokeragePct: real, brokerageMax: real,
    sttPctBuy: real, sttPctSell: real,
    exchangeChargeNse: real, exchangeChargeBse: real,
    gstPct: real, sebiChargesPct: real, stampDutyPct: real, dpChargePerSell: real)
  {
    predicate NonNegative() {
      && brokerageFlat >= 0.0 && brokeragePct >= 0.0 && brokerageMax >= 0.0
      && sttPctBuy >= 0.0 && sttPctSell >= 0.0
      && exchangeChargeNse >= 0.0 && exchangeChargeBse >= 0.0
      && gstPct >= 0.0 && sebiChargesPct >= 0.0 && stampDutyPct >= 0.0 && dpChargePerSell >= 0.0
    }
  }

  datatype FeeBreakdown = FeeBreakdown(brokerage: real, stt: real, exchangeCharge: real, gst: real,
                                       sebiCharges: real, stampDuty: real, dpCharges: real, total: real)

  const NO_FEES := FeeBreakdown(0.0, 0.0, 0.0, 0.0, 0.0, 0.0, 0.0, 0.0)

  const HALF_PAISA := 0.005

  /** Nearest paisa, ties away from zero. */
  function RoundPaise(x: real): real {
    if x >= 0.0 then (x * 100.0 + 0.5).Floor as real / 100.0
    else -((-x * 100.0 + 0.5).Floor as real / 100.0)
  }

  lemma RoundWithinHalfPaisa(x: real)
    ensures -HALF_PAISA <= RoundPaise(x) - x <= HALF_PAISA
    ensures x >= 0.0 ==> RoundPaise(x) >= 0.0
  {
  }

  lemma RoundMonotone(x: real, y: real)
    requires x <= y
    ensures RoundPaise(x) <= RoundPaise(y)
  {
    if x >= 0.0 {
      assert (x * 100.0 + 0.5).Floor <= (y * 100.0 + 0.5).Floor;
    } else if y < 0.0 {
      assert (-y * 100.0 + 0.5).Floor <= (-x * 100.0 + 0.5).Floor;
    }
  }

  /** A rounded amount is a whole number of paise, none is nearer, and of two as near it is the one further
      from zero. */
  lemma RoundsToNearestPaisa(x: real, n: int) returns (m: int)
    ensures RoundPaise(x) == m as real / 100.0
    ensures Abs(RoundPaise(x) - x) <= Abs(n as real / 100.0 - x)
    ensures Abs(RoundPaise(x) - x) == Abs(n as real / 100.0 - x) ==> Abs(n as real / 100.0) <= Abs(RoundPaise(x))
  {
    m := if x >= 0.0 then (x * 100.0 + 0.5).Floor else -(-x * 100.0 + 0.5).Floor;
    if n < m {
      assert n as real <= m as real - 1.0;
    } else if n > m {
      assert n as real >= m as real + 1.0;
    }
  }

  // ----- the charges before rounding -----

  function Brokerage(cfg: FeeConfig, turnover: real): real {
    Max(0.0,
        if cfg.brokerageMax > 0.0 && cfg.brokeragePct > 0.0 then Min(turnover * cfg.brokeragePct, cfg.brokerageMax)
        else if cfg.brokeragePct > 0.0 then turnover * cfg.brokeragePct
        else cfg.brokerageFlat)
  }

  function ExchangePct(cfg: FeeConfig, exchange: Exchange): real {
    if exchange == NSE then cfg.exchangeChargeNse else cfg.exchangeChargeBse
  }

  function SttPct(cfg: FeeConfig, side: Side): real {
    if side == Buy then cfg.sttPctBuy else cfg.sttPctSell
  }

  function StampPct(cfg: FeeConfig, side: Side): real {
    if side == Buy then cfg.stampDutyPct else 0.0
  }

  function Exact(cfg: FeeConfig, side: Side, exchange: Exchange, turnover: real): FeeBreakdown {
    var brokerage := Brokerage(cfg, turnover);
    var stt := turnover * SttPct(cfg, side);
    var exchangeCharge := turnover * ExchangePct(cfg, exchange);
    var gst := (brokerage + exchangeCharge) * cfg.gstPct;
    var sebi := turnover * cfg.sebiChargesPct;
    var stamp := turnover * StampPct(cfg, side);
    var dp := if side == Sell then cfg.dpChargePerSell else 0.0;
    FeeBreakdown(brokerage, stt, exchangeCharge, gst, sebi, stamp, dp,
                 brokerage + stt + exchangeCharge + gst + sebi + stamp + dp)
  }

  function Rounded(f: FeeBreakdown): FeeBreakdown {
    FeeBreakdown(RoundPaise(f.brokerage), RoundPaise(f.stt), RoundPaise(f.exchangeCharge), RoundPaise(f.gst),
                 RoundPaise(f.sebiCharges), RoundPaise(f.stampDuty), RoundPaise(f.dpCharges), RoundPaise(f.total))
  }

  function Calculate(cfg: FeeConfig, side: Side, qty: real, price: real, exchange: Exchange): FeeBreakdown {
    if qty <= 0.0 || price <= 0.0 then NO_FEES else Rounded(Exact(cfg, side, exchange, qty * price))
  }

  /** Brokerage is the flat fee when no percentage is set; else the percentage of turnover, but never more than
      the cap when there is one. */
  lemma BrokerageTerms(cfg: FeeConfig, turnover: real)
    requires cfg.NonNegative() && turnover >= 0.0
    ensures var b, share := Brokerage(cfg, turnover), turnover * cfg.brokeragePct;
            && (cfg.brokeragePct == 0.0 ==> b == cfg.brokerageFlat)
            && (cfg.brokeragePct > 0.0 && cfg.brokerageMax == 0.0 ==> b == share)
            && (cfg.brokeragePct > 0.0 && cfg.brokerageMax > 0.0 ==>
                  b <= share && b <= cfg.brokerageMax && (b == share || b == cfg.brokerageMax))
  {
    assert turnover * cfg.brokeragePct >= 0.0;
  }

  /** Who pays what. Both sides pay brokerage, the exchange's charge, GST on those two and the SEBI charge;
      securities tax goes by the rate of the side; a buyer pays stamp duty besides, a seller the depository's
      charge. Each line of the note is rounded on its own, and the total is rounded from the exact sum. */
  lemma ChargesBySide(cfg: FeeConfig, qty: real, price: real, t: real, exchange: Exchange)
    requires qty > 0.0 && price > 0.0 && t == qty * price
    ensures var b := Brokerage(cfg, t);
            var x := t * (if exchange == NSE then cfg.exchangeChargeNse else cfg.exchangeChargeBse);
            var both := b + x + (b + x) * cfg.gstPct + t * cfg.sebiChargesPct;
            var buy, sell := Calculate(cfg, Buy, qty, price, exchange), Calculate(cfg, Sell, qty, price, exchange);
            && buy.total == RoundPaise(both + t * cfg.sttPctBuy + t * cfg.stampDutyPct)
            && sell.total == RoundPaise(both + t * cfg.sttPctSell + cfg.dpChargePerSell)
            && buy.stt == RoundPaise(t * cfg.sttPctBuy) && sell.stt == RoundPaise(t * cfg.sttPctSell)
            && buy.stampDuty == RoundPaise(t * cfg.stampDutyPct) && sell.stampDuty == 0.0
            && buy.dpCharges == 0.0 && sell.dpCharges == RoundPaise(cfg.dpChargePerSell)
            && buy.brokerage == sell.brokerage == RoundPaise(b)
            && buy.exchangeCharge == sell.exchangeCharge == RoundPaise(x)
            && buy.gst == sell.gst == RoundPaise((b + x) * cfg.gstPct)
            && buy.sebiCharges == sell.sebiCharges == RoundPaise(t * cfg.sebiChargesPct)
  {
    hide RoundPaise, Brokerage, Exact;
    BuyerCharges(cfg, exchange, t);
    SellerCharges(cfg, exchange, t);
    NothingRounds();
  }

  lemma BuyerCharges(cfg: FeeConfig, exchange: Exchange, t: real)
    ensures var b := Brokerage(cfg, t);
            var x := t * (if exchange == NSE then cfg.exchangeChargeNse else cfg.exchangeChargeBse);
            var both := b + x + (b + x) * cfg.gstPct + t * cfg.sebiChargesPct;
            Exact(cfg, Buy, exchange, t) ==
            FeeBreakdown(b, t * cfg.sttPctBuy, x, (b + x) * cfg.gstPct, t * cfg.sebiChargesPct, t * cfg.stampDutyPct,
                         0.0, both + t * cfg.sttPctBuy + t * cfg.stampDutyPct)
  {
  }

  lemma SellerCharges(cfg: FeeConfig, exchange: Exchange, t: real)
    ensures var b := Brokerage(cfg, t);
            var x := t * (if exchange == NSE then cfg.exchangeChargeNse else cfg.exchangeChargeBse);
            var both := b + x + (b + x) * cfg.gstPct + t * cfg.sebiChargesPct;
            Exact(cfg, Sell, exchange, t) ==
            FeeBreakdown(b, t * cfg.sttPctSell, x, (b + x) * cfg.gstPct, t * cfg.sebiChargesPct, 0.0,
                         cfg.dpChargePerSell, both + t * cfg.sttPctSell + cfg.dpChargePerSell)
  {
  }

  lemma NothingRounds()
    ensures RoundPaise(0.0) == 0.0
  {
  }

  // ----- rounding against the parts -----

  function PartsSum(f: FeeBreakdown): real {
    f.brokerage + f.stt + f.exchangeCharge + f.gst + f.sebiCharges + f.stampDuty + f.dpCharges
  }

  /** The rounded total and the sum of the rounded charges never differ by more than four paise. */
  lemma TotalWithinFourPaise(cfg: FeeConfig, side: Side, qty: real, price: real, exchange: Exchange)
    ensures var f := Calculate(cfg, side, qty, price, exchange); -0.04 <= f.total - PartsSum(f) <= 0.04
  {
    if qty > 0.0 && price > 0.0 {
      var e := Exact(cfg, side, exchange, qty * price);
      RoundingDrift(e);
    }
  }

  lemma RoundingDrift(e: FeeBreakdown)
    requires e.total == PartsSum(e)
    ensures -0.04 <= Rounded(e).total - PartsSum(Rounded(e)) <= 0.04
  {
    RoundWithinHalfPaisa(e.brokerage);
    RoundWithinHalfPaisa(e.stt);
    RoundWithinHalfPaisa(e.exchangeCharge);
    RoundWithinHalfPaisa(e.gst);
    RoundWithinHalfPaisa(e.sebiCharges);
    RoundWithinHalfPaisa(e.stampDuty);
    RoundWithinHalfPaisa(e.dpCharges);
    RoundWithinHalfPaisa(e.total);
  }

  // ----- the exact total as one function of turnover -----

  /** The rate on turnover of everything but brokerage. */
  function LinearRate(cfg: FeeConfig, side: Side, exchange: Exchange): real {
    SttPct(cfg, side) + ExchangePct(cfg, exchange) * (1.0 + cfg.gstPct) + cfg.sebiChargesPct + StampPct(cfg, side)
  }

  function DpCharge(cfg: FeeConfig, side: Side): real {
    if side == Sell then cfg.dpChargePerSell else 0.0
  }

  /** The unrounded total in closed form: capped brokerage with GST, a rate on turnover, and the DP charge. */
  function ClosedTotal(cfg: FeeConfig, side: Side, exchange: Exchange, turnover: real): real {
    Brokerage(cfg, turnover) * (1.0 + cfg.gstPct) + turnover * LinearRate(cfg, side, exchange) + DpCharge(cfg, side)
  }

  lemma TotalInClosedForm(cfg: FeeConfig, side: Side, exchange: Exchange, turnover: real)
    ensures Exact(cfg, side, exchange, turnover).total == ClosedTotal(cfg, side, exchange, turnover)
  {
    var b, g, x := Brokerage(cfg, turnover), cfg.gstPct, ExchangePct(cfg, exchange);
    Distribute(b, turnover, x, g);
    DistributeFour(turnover, SttPct(cfg, side), x * (1.0 + g), cfg.sebiChargesPct, StampPct(cfg, side));
  }

  lemma Distribute(b: real, t: real, x: real, g: real)
    ensures b + t * x + (b + t * x) * g == b * (1.0 + g) + t * (x * (1.0 + g))
  {
  }

  lemma DistributeFour(t: real, a: real, b: real, c: real, d: real)
    ensures t * (a + b + c + d) == t * a + t * b + t * c + t * d
  {
  }

  lemma MulMonotone(a: real, b: real, c: real)
    requires a <= b && c >= 0.0
    ensures a * c <= b * c
  {
    assert (b - a) * c >= 0.0;
  }

  lemma BrokerageMonotone(cfg: FeeConfig, t: real, u: real)
    requires cfg.NonNegative() && t <= u
    ensures Brokerage(cfg, t) <= Brokerage(cfg, u)
  {
    MulMonotone(t, u, cfg.brokeragePct);
  }

  lemma BrokerageSubadditive(cfg: FeeConfig, t: real, u: real)
    requires cfg.NonNegative() && t >= 0.0 && u >= 0.0
    ensures Brokerage(cfg, t + u) <= Brokerage(cfg, t) + Brokerage(cfg, u)
  {
    assert (t + u) * cfg.brokeragePct == t * cfg.brokeragePct + u * cfg.brokeragePct;
    MulMonotone(0.0, t, cfg.brokeragePct);
    MulMonotone(0.0, u, cfg.brokeragePct);
  }

  lemma RateNonNegative(cfg: FeeConfig, side: Side, exchange: Exchange)
    requires cfg.NonNegative()
    ensures LinearRate(cfg, side, exchange) >= 0.0
  {
    MulMonotone(0.0, ExchangePct(cfg, exchange), 1.0 + cfg.gstPct);
  }

  lemma AffineMonotone(b: real, b': real, g: real, t: real, t': real, r: real, d: real)
    requires b <= b' && t <= t' && g >= 0.0 && r >= 0.0
    ensures b * g + t * r + d <= b' * g + t' * r + d
  {
    MulMonotone(b, b', g);
    MulMonotone(t, t', r);
  }

  lemma AffineSubadditive(b: real, b1: real, b2: real, g: real, t1: real, t2: real, r: real, d: real)
    requires b <= b1 + b2 && g >= 0.0 && d >= 0.0
    ensures b * g + (t1 + t2) * r + d <= (b1 * g + t1 * r + d) + (b2 * g + t2 * r + d)
  {
    MulMonotone(b, b1 + b2, g);
    var x, y := (b1 + b2) * g, (t1 + t2) * r;
    assert x == b1 * g + b2 * g;
    assert y == t1 * r + t2 * r;
    assert b * g <= x;
  }

  lemma ClosedMonotone(cfg: FeeConfig, side: Side, exchange: Exchange, t: real, u: real)
    requires cfg.NonNegative() && t <= u
    ensures ClosedTotal(cfg, side, exchange, t) <= ClosedTotal(cfg, side, exchange, u)
  {
    hide Brokerage, LinearRate;
    BrokerageMonotone(cfg, t, u);
    RateNonNegative(cfg, side, exchange);
    AffineMonotone(Brokerage(cfg, t), Brokerage(cfg, u), 1.0 + cfg.gstPct, t, u,
                   LinearRate(cfg, side, exchange), DpCharge(cfg, side));
  }

  lemma ClosedSubadditive(cfg: FeeConfig, side: Side, exchange: Exchange, t: real, u: real)
    requires cfg.NonNegative() && t >= 0.0 && u >= 0.0
    ensures ClosedTotal(cfg, side, exchange, t + u) <=
            ClosedTotal(cfg, side, exchange, t) + ClosedTotal(cfg, side, exchange, u)
  {
    hide Brokerage, LinearRate;
    BrokerageSubadditive(cfg, t, u);
    RateNonNegative(cfg, side, exchange);
    AffineSubadditive(Brokerage(cfg, t + u), Brokerage(cfg, t), Brokerage(cfg, u), 1.0 + cfg.gstPct, t, u,
                      LinearRate(cfg, side, exchange), DpCharge(cfg, side));
  }

  lemma ClosedNonNegative(cfg: FeeConfig, side: Side, exchange: Exchange, t: real)
    requires cfg.NonNegative() && t >= 0.0
    ensures ClosedTotal(cfg, side, exchange, t) >= 0.0
  {
    RateNonNegative(cfg, side, exchange);
    AffineMonotone(0.0, Brokerage(cfg, t), 1.0 + cfg.gstPct, 0.0, t, LinearRate(cfg, side, exchange),
                   DpCharge(cfg, side));
  }

  /** What one executed leg is charged in all. */
  function TotalCharge(cfg: FeeConfig, side: Side, exchange: Exchange, turnover: real): real {
    RoundPaise(ClosedTotal(cfg, side, exchange, turnover))
  }

  lemma TotalChargeIsCalculated(cfg: FeeConfig, side: Side, qty: real, price: real, exchange: Exchange)
    requires qty > 0.0 && price > 0.0
    ensures Calculate(cfg, side, qty, price, exchange).total == TotalCharge(cfg, side, exchange, qty * price)
    ensures qty * price > 0.0
  {
    TotalInClosedForm(cfg, side, exchange, qty * price);
  }

  lemma TotalChargeMonotone(cfg: FeeConfig, side: Side, exchange: Exchange, t: real, u: real)
    requires cfg.NonNegative() && 0.0 <= t <= u
    ensures 0.0 <= TotalCharge(cfg, side, exchange, t) <= TotalCharge(cfg, side, exchange, u)
  {
    ClosedNonNegative(cfg, side, exchange, t);
    RoundMonotone(0.0, ClosedTotal(cfg, side, exchange, t));
    ClosedMonotone(cfg, side, exchange, t, u);
    RoundMonotone(ClosedTotal(cfg, side, exchange, t), ClosedTotal(cfg, side, exchange, u));
  }

  /** The charged total never falls as turnover grows, and is never negative. */
  lemma TotalMonotoneInTurnover(cfg: FeeConfig, side: Side, exchange: Exchange, qty: real, price: real, qty': real,
                                price': real)
    requires cfg.NonNegative()
    requires qty' > 0.0 && price' > 0.0 && qty * price <= qty' * price'
    ensures 0.0 <= Calculate(cfg, side, qty, price, exchange).total <=
            Calculate(cfg, side, qty', price', exchange).total
  {
    TotalChargeIsCalculated(cfg, side, qty', price', exchange);
    if qty > 0.0 && price > 0.0 {
      TotalChargeIsCalculated(cfg, side, qty, price, exchange);
      TotalChargeMonotone(cfg, side, exchange, qty * price, qty' * price');
    } else {
      TotalChargeMonotone(cfg, side, exchange, 0.0, qty' * price');
    }
  }

  // ----- slicing an order -----

  function SumCharges(cfg: FeeConfig, side: Side, exchange: Exchange, turnovers: seq<real>): real {
    if turnovers == [] then 0.0
    else TotalCharge(cfg, side, exchange, turnovers[0]) + SumCharges(cfg, side, exchange, turnovers[1..])
  }

  lemma {:induction false} ChargesCoverWhole(cfg: FeeConfig, side: Side, exchange: Exchange, turnovers: seq<real>)
    requires cfg.NonNegative() && |turnovers| >= 1
    requires forall i :: 0 <= i < |turnovers| ==> turnovers[i] > 0.0
    ensures Sum(turnovers) > 0.0
    ensures SumCharges(cfg, side, exchange, turnovers) >=
            ClosedTotal(cfg, side, exchange, Sum(turnovers)) - |turnovers| as real * HALF_PAISA
  {
    RoundWithinHalfPaisa(ClosedTotal(cfg, side, exchange, turnovers[0]));
    if |turnovers| == 1 {
      assert turnovers[1..] == [];
    } else {
      ChargesCoverWhole(cfg, side, exchange, turnovers[1..]);
      ClosedSubadditive(cfg, side, exchange, turnovers[0], Sum(turnovers[1..]));
    }
  }

  /** Slicing saves nothing but rounding: n slices cost at least the fee of one order with their
      combined turnover, less (n + 1) half-paise. */
  lemma {:induction false} SlicingSavesOnlyRounding(cfg: FeeConfig, side: Side, exchange: Exchange,
                                                    turnovers: seq<real>)
    requires cfg.NonNegative() && |turnovers| >= 1
    requires forall i :: 0 <= i < |turnovers| ==> turnovers[i] > 0.0
    ensures SumCharges(cfg, side, exchange, turnovers) >=
            TotalCharge(cfg, side, exchange, Sum(turnovers)) - (|turnovers| + 1) as real * HALF_PAISA
  {
    ChargesCoverWhole(cfg, side, exchange, turnovers);
    RoundWithinHalfPaisa(ClosedTotal(cfg, side, exchange, Sum(turnovers)));
  }
}

/** Fee configurations that change on given dates. */
module FeeSchedules {
  import opened Wrappers
  import opened Fees

  // ----- the date-versioned schedule -----

  datatype FeeSchedule = FeeSchedule(default: FeeConfig, effectiveFrom: map<int, FeeConfig>)

  lemma {:induction false} Latest(dates: set<int>) returns (m: int)
    requires dates != {}
    ensures m in dates && forall d :: d in dates ==> d <= m
  {
    m := SomeMember(dates);
    if dates != {m} {
      var later := Latest(dates - {m});
      assert forall d :: d in dates ==> d in dates - {m} || d == m;
      m := if m <= later then later else m;
    }
  }

  /** `d` is the latest effective date that is not after `when`. */
  ghost predicate InForce(schedule: FeeSchedule, when: int, d: int) {
    && d in schedule.effectiveFrom && d <= when
    && forall e :: e in schedule.effectiveFrom && e <= when ==> e <= d
  }

  /** Walks the effective dates from the latest down and takes the first one already in force. */
  method ConfigOn(schedule: FeeSchedule, when: int) returns (cfg: FeeConfig)
    ensures (forall d :: d in schedule.effectiveFrom ==> d > when) ==> cfg == schedule.default
    ensures forall d :: InForce(schedule, when, d) ==> cfg == schedule.effectiveFrom[d]
  {
    var dates := schedule.effectiveFrom.Keys;
    while dates != {}
      invariant dates <= schedule.effectiveFrom.Keys
      invariant forall d :: d in schedule.effectiveFrom && d !in dates ==> d > when
      decreases dates
    {
      var latest := Latest(dates);
      var d :| d in dates && forall e :: e in dates ==> e <= d;
      if d <= when {
        forall f | InForce(schedule, when, f) ensures f == d {
          assert f in dates;
        }
        return schedule.effectiveFrom[d];
      }
      dates := dates - {d};
    }
    cfg := schedule.default;
  }
}
