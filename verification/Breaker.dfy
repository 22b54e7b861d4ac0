/** The circuit breaker around one data provider: lock-protected steps, interleaved by any number
    of callers, on a monotone clock. */
module Breaker {
  import opened Wrappers

  datatype Mode = Closed | Open | HalfOpen

  datatype Config = Config(failureThreshold: int, rateThreshold: real, windowSize: nat, openSeconds: real)

  datatype Health = Health(state: Mode, consecutiveFailures: nat, totalCalls: nat, totalFailures: nat,
                           openedAt: Option<real>, recentResults: seq<bool>)

  const FRESH := Health(Closed, 0, 0, 0, None, [])

  // ----- the rolling window -----

  function Failures(results: seq<bool>): nat {
    if results == [] then 0 else Failures(results[..|results| - 1]) + if results[|results| - 1] then 0 else 1
  }

  function FailureRate(results: seq<bool>): real {
    if results == [] then 0.0 else Failures(results) as real / |results| as real
  }

  function Suffix(results: seq<bool>, size: nat): seq<bool> {
    if |results| <= size then results else results[|results| - size..]
  }

  predicate Tripped(h: Health, cfg: Config) {
    h.consecutiveFailures >= cfg.failureThreshold || FailureRate(h.recentResults) > cfg.rateThreshold
  }

  // ----- the atomic steps -----

  datatype Event = Ask(now: real) | Succeed | Fail(now: real) | Reset

  predicate Admits(h: Health, cfg: Config, now: real) {
    h.state == Closed || (h.state == Open && now - h.openedAt.GetOr(0.0) >= cfg.openSeconds)
  }

  function AfterAsk(h: Health, cfg: Config, now: real): Health {
    if h.state == Open && Admits(h, cfg, now) then h.(state := HalfOpen) else h
  }

  function AfterSuccess(h: Health, cfg: Config): Health {
    h.(state := Closed, openedAt := None, consecutiveFailures := 0, totalCalls := h.totalCalls + 1,
       recentResults := Suffix(h.recentResults + [true], cfg.windowSize))
  }

  function AfterFailure(h: Health, cfg: Config, now: real): Health {
    var counted := h.(consecutiveFailures := h.consecutiveFailures + 1, totalCalls := h.totalCalls + 1,
                      totalFailures := h.totalFailures + 1,
                      recentResults := Suffix(h.recentResults + [false], cfg.windowSize));
    if Tripped(counted, cfg) && h.state != Open then counted.(state := Open, openedAt := Some(now)) else counted
  }

  function AfterReset(h: Health): Health {
    h.(state := Closed, consecutiveFailures := 0, openedAt := None, recentResults := [])
  }

  function Step(h: Health, cfg: Config, e: Event): Health {
    match e
    case Ask(now) => AfterAsk(h, cfg, now)
    case Succeed => AfterSuccess(h, cfg)
    case Fail(now) => AfterFailure(h, cfg, now)
    case Reset => AfterReset(h)
  }

  function Run(h: Health, cfg: Config, events: seq<Event>): Health {
    if events == [] then h else Step(Run(h, cfg, events[..|events| - 1]), cfg, events[|events| - 1])
  }

  /** What the wrapped provider did with a call. */
  datatype Outcome<T> = Raised | Nothing | Quoted(quote: T)

  function Report<T>(outcome: Outcome<T>, now: real): seq<Event> {
    match outcome
    case Raised => [Fail(now)]
    case Nothing => []
    case Quoted(_) => [Succeed]
  }

  // ----- the breaker object -----

  class CircuitBreakerProvider {
    const cfg: Config
    var state: Mode
    var consecutiveFailures: nat
    var totalCalls: nat
    var totalFailures: nat
    var openedAt: Option<real>
    var recentResults: seq<bool>

    function Snapshot(): Health
      reads this
    {
      Health(state, consecutiveFailures, totalCalls, totalFailures, openedAt, recentResults)
    }

    constructor (cfg: Config)
      ensures Snapshot() == FRESH && this.cfg == cfg
    {
      this.cfg := cfg;
      state, openedAt, recentResults := Closed, None, [];
      consecutiveFailures, totalCalls, totalFailures := 0, 0, 0;
    }

    method AllowCall(now: real) returns (allowed: bool)
      modifies this
      ensures Snapshot() == Step(old(Snapshot()), cfg, Ask(now))
      ensures allowed == Admits(old(Snapshot()), cfg, now)
    {
      if state == Closed {
        return true;
      }
      if state == HalfOpen {
        return false;
      }
      if now - openedAt.GetOr(0.0) >= cfg.openSeconds {
        state := HalfOpen;
        return true;
      }
      allowed := false;
    }

    method Remember(ok: bool)
      modifies this`recentResults
      ensures recentResults == Suffix(old(recentResults) + [ok], cfg.windowSize)
    {
      recentResults := recentResults + [ok];
      if |recentResults| > cfg.windowSize {
        recentResults := recentResults[|recentResults| - cfg.windowSize..];
      }
    }

    method RecordSuccess()
      modifies this
      ensures Snapshot() == Step(old(Snapshot()), cfg, Succeed)
    {
      totalCalls := totalCalls + 1;
      consecutiveFailures := 0;
      Remember(true);
      state := Closed;
      openedAt := None;
    }

    method RecordFailure(now: real)
      modifies this
      ensures Snapshot() == Step(old(Snapshot()), cfg, Fail(now))
    {
      totalCalls := totalCalls + 1;
      totalFailures := totalFailures + 1;
      consecutiveFailures := consecutiveFailures + 1;
      Remember(false);
      var shouldOpen := consecutiveFailures >= cfg.failureThreshold || FailureRate(recentResults) > cfg.rateThreshold;
      if shouldOpen && state != Open {
        state := Open;
        openedAt := Some(now);
      }
    }

    method ResetBreaker()
      modifies this
      ensures Snapshot() == Step(old(Snapshot()), cfg, Reset)
    {
      state := Closed;
      consecutiveFailures := 0;
      openedAt := None;
      recentResults := [];
    }

    /** One call with nobody else in between: the provider is asked only if the breaker admits it,
        and what it did is reported. A refused call comes back empty. */
    method GetQuote<T>(outcome: Outcome<T>, asked: real, answered: real) returns (quote: Option<T>)
      modifies this
      ensures var before := old(Snapshot());
              Snapshot() == Run(before, cfg,
                                [Ask(asked)] + if Admits(before, cfg, asked) then Report(outcome, answered) else [])
      ensures quote == if Admits(old(Snapshot()), cfg, asked) && outcome.Quoted? then Some(outcome.quote) else None
    {
      ghost var before := Snapshot();
      var allowed := AllowCall(asked);
      RunPair(before, cfg, Ask(asked), Report(outcome, answered));
      if !allowed {
        return None;
      }
      match outcome {
        case Raised =>
          RecordFailure(answered);
          quote := None;
        case Nothing =>
          quote := None;
        case Quoted(q) =>
          RecordSuccess();
          quote := Some(q);
      }
    }
  }

  lemma RunPair(h: Health, cfg: Config, e: Event, more: seq<Event>)
    requires |more| <= 1
    ensures Run(h, cfg, [e] + []) == Step(h, cfg, e)
    ensures Run(h, cfg, [e] + more) == if more == [] then Step(h, cfg, e) else Step(Step(h, cfg, e), cfg, more[0])
  {
    assert [e][..0] == [];
    assert Run(h, cfg, [e]) == Step(h, cfg, e);
    if more != [] {
      assert ([e] + more)[..1] == [e];
    } else {
      assert [e] + more == [e];
    }
  }

  // ----- a failure never lowers the window's failure rate -----

  lemma {:induction false} FailuresDropFirst(results: seq<bool>)
    requires results != []
    ensures Failures(results) == (if results[0] then 0 else 1) + Failures(results[1..])
  {
    var last := |results| - 1;
    if last > 0 {
      FailuresDropFirst(results[..last]);
      assert results[..last][1..] == results[1..][..last - 1];
    } else {
      assert results[..0] == [] && results[1..] == [];
    }
  }

  lemma {:induction false} FailuresBounded(results: seq<bool>)
    ensures Failures(results) <= |results|
  {
    if results != [] {
      FailuresBounded(results[..|results| - 1]);
    }
  }

  lemma QuotientOrder(a: nat, n: nat, b: nat, m: nat)
    requires n > 0 && m > 0 && a * m <= b * n
    ensures a as real / n as real <= b as real / m as real
  {
    var x, y := a as real / n as real, b as real / m as real;
    assert x * n as real == a as real && y * m as real == b as real;
    assert (a * m) as real <= (b * n) as real;
    assert x * (n as real * m as real) == a as real * m as real;
    assert y * (n as real * m as real) == b as real * n as real;
    assert x > y ==> (x - y) * (n as real * m as real) > 0.0;
  }

  lemma FailuresSnoc(window: seq<bool>)
    ensures Failures(window + [false]) == Failures(window) + 1
  {
    assert (window + [false])[..|window|] == window;
  }

  lemma {:induction false} FullWindowSlides(window: seq<bool>)
    requires window != []
    ensures Failures(Suffix(window + [false], |window|)) >= Failures(window)
  {
    hide Failures;
    var longer := window + [false];
    FailuresSnoc(window);
    FailuresDropFirst(longer);
    assert longer[1..] == Suffix(longer, |window|);
  }

  /** Appending a failure to a bounded window, with or without pushing the oldest result out, never
      lowers its failure rate. */
  lemma FailureNeverLowersRate(window: seq<bool>, size: nat)
    requires |window| <= size
    ensures FailureRate(Suffix(window + [false], size)) >= FailureRate(window)
  {
    hide Failures;
    if window == [] {
      FailuresBounded(Suffix([] + [false], size));
    } else if |window| < size {
      FailuresBounded(window);
      FailuresSnoc(window);
      assert Failures(window) * (|window| + 1) <= (Failures(window) + 1) * |window|;
      QuotientOrder(Failures(window), |window|, Failures(window) + 1, |window| + 1);
    } else {
      FullWindowSlides(window);
      QuotientOrder(Failures(window), size, Failures(Suffix(window + [false], size)), size);
    }
  }

  // ----- whenever the breaker is not closed, the trip condition holds -----

  predicate Sound(h: Health, cfg: Config) {
    && |h.recentResults| <= cfg.windowSize
    && (h.state != Closed ==> Tripped(h, cfg))
    && (h.state == Open ==> h.openedAt.Some?)
  }

  lemma SoundStep(h: Health, cfg: Config, e: Event)
    requires Sound(h, cfg)
    ensures Sound(Step(h, cfg, e), cfg)
  {
    hide FailureRate;
    FailureNeverLowersRate(h.recentResults, cfg.windowSize);
  }

  /** Under any interleaving of calls, results and resets, an open or half-open breaker has its trip
      condition true: enough consecutive failures, or a window rate above the limit. */
  lemma {:induction false} NotClosedMeansTripped(cfg: Config, events: seq<Event>)
    ensures Sound(Run(FRESH, cfg, events), cfg)
  {
    if events != [] {
      NotClosedMeansTripped(cfg, events[..|events| - 1]);
      SoundStep(Run(FRESH, cfg, events[..|events| - 1]), cfg, events[|events| - 1]);
    }
  }

  /** So every failure recorded while half-open re-opens the breaker and restarts its clock. */
  lemma HalfOpenFailureReopens(cfg: Config, events: seq<Event>, now: real)
    requires Run(FRESH, cfg, events).state == HalfOpen
    ensures var h := AfterFailure(Run(FRESH, cfg, events), cfg, now); h.state == Open && h.openedAt == Some(now)
  {
    hide FailureRate;
    NotClosedMeansTripped(cfg, events);
    FailureNeverLowersRate(Run(FRESH, cfg, events).recentResults, cfg.windowSize);
  }

  // ----- probe spacing -----

  predicate Timed(e: Event) {
    e.Ask? || e.Fail?
  }

  ghost predicate MonotoneClock(events: seq<Event>) {
    forall i, j :: 0 <= i < j < |events| && Timed(events[i]) && Timed(events[j]) ==> events[i].now <= events[j].now
  }

  function At(cfg: Config, events: seq<Event>, k: nat): Health
    requires k <= |events|
  {
    Run(FRESH, cfg, events[..k])
  }

  lemma AtNext(cfg: Config, events: seq<Event>, k: nat)
    requires k < |events|
    ensures At(cfg, events, k + 1) == Step(At(cfg, events, k), cfg, events[k])
    ensures Sound(At(cfg, events, k), cfg)
  {
    assert events[..k + 1][..k] == events[..k];
    NotClosedMeansTripped(cfg, events[..k]);
  }

  /** Between `i` and `j` nothing closed the breaker. */
  ghost predicate Unresolved(events: seq<Event>, i: nat, j: nat) {
    forall k :: i < k < j && k < |events| ==> !events[k].Succeed? && !events[k].Reset?
  }

  /** The breaker is not closed, and if it is open it opened no earlier than `since`. */
  predicate HeldSince(h: Health, since: real) {
    h.state == HalfOpen || (h.state == Open && h.openedAt.Some? && h.openedAt.value >= since)
  }

  lemma HeldStep(h: Health, cfg: Config, e: Event, since: real)
    requires Sound(h, cfg) && HeldSince(h, since)
    requires !e.Succeed? && !e.Reset? && (Timed(e) ==> e.now >= since)
    ensures HeldSince(Step(h, cfg, e), since)
  {
    hide FailureRate;
    FailureNeverLowersRate(h.recentResults, cfg.windowSize);
  }

  lemma {:induction false} HeldUntil(cfg: Config, events: seq<Event>, i: nat, k: nat)
    requires MonotoneClock(events) && i < k <= |events| && Timed(events[i])
    requires HeldSince(At(cfg, events, i + 1), events[i].now)
    requires Unresolved(events, i, k)
    ensures HeldSince(At(cfg, events, k), events[i].now)
    decreases k
  {
    if k > i + 1 {
      HeldUntil(cfg, events, i, k - 1);
      AtNext(cfg, events, k - 1);
      HeldStep(At(cfg, events, k - 1), cfg, events[k - 1], events[i].now);
    }
  }

  /** Fail fast: once a failure has opened the breaker, no call is admitted for `openSeconds`
      unless a success or a reset comes first. */
  lemma OpenFailsFast(cfg: Config, events: seq<Event>, i: nat, j: nat)
    requires MonotoneClock(events) && i < j < |events|
    requires events[i].Fail? && At(cfg, events, i).state != Open && At(cfg, events, i + 1).state == Open
    requires events[j].Ask? && Admits(At(cfg, events, j), cfg, events[j].now)
    requires Unresolved(events, i, j) && At(cfg, events, j).state == Open
    ensures events[j].now - events[i].now >= cfg.openSeconds
  {
    AtNext(cfg, events, i);
    HeldUntil(cfg, events, i, j);
  }

  /** Between `i` and `j` nobody was admitted. */
  ghost predicate NoProbe(cfg: Config, events: seq<Event>, i: nat, j: nat) {
    forall k :: i < k < j && k < |events| && events[k].Ask? ==> !Admits(At(cfg, events, k), cfg, events[k].now)
  }

  lemma {:induction false} StaysOpen(cfg: Config, events: seq<Event>, i: nat, k: nat)
    requires i < k <= |events| && events[i].Fail?
    requires At(cfg, events, i).state != Open && At(cfg, events, i + 1).state == Open
    requires Unresolved(events, i, k) && NoProbe(cfg, events, i, k)
    ensures At(cfg, events, k).state == Open && At(cfg, events, k).openedAt == Some(events[i].now)
    decreases k
  {
    hide FailureRate, Run;
    AtNext(cfg, events, k - 1);
    if k > i + 1 {
      StaysOpen(cfg, events, i, k - 1);
    }
  }

  /** Recovery on time: once a failure has opened the breaker, and as long as no success, no reset and no probe
      comes in between, a call is admitted exactly when `openSeconds` have passed since that failure, whatever
      failures late calls record meanwhile. */
  lemma AdmittedOnTimeIff(cfg: Config, events: seq<Event>, i: nat, j: nat)
    requires i < j < |events| && events[i].Fail? && events[j].Ask?
    requires At(cfg, events, i).state != Open && At(cfg, events, i + 1).state == Open
    requires Unresolved(events, i, j) && NoProbe(cfg, events, i, j)
    ensures Admits(At(cfg, events, j), cfg, events[j].now) <==> events[j].now - events[i].now >= cfg.openSeconds
  {
    StaysOpen(cfg, events, i, j);
  }

  /** A minute after the failure that opened it this breaker admits a probe, although a late failure came a
      second before. */
  lemma LateFailureDelaysNothing(cfg: Config)
    requires cfg == Config(1, 1.0, 10, 60.0)
    ensures Admits(Run(FRESH, cfg, [Fail(0.0), Fail(59.0)]), cfg, 60.0)
    ensures !Admits(Run(FRESH, cfg, [Fail(0.0), Fail(59.0)]), cfg, 59.5)
  {
    var events := [Fail(0.0), Fail(59.0)];
    assert events[..1] == [Fail(0.0)] && events[..0] == [] && [Fail(0.0)][..0] == [];
    assert Run(FRESH, cfg, [Fail(0.0)][..0]) == FRESH;
    assert Run(FRESH, cfg, [Fail(0.0)]) == AfterFailure(FRESH, cfg, 0.0);
    assert At(cfg, events, 0) == FRESH && At(cfg, events, 1).state == Open;
    StaysOpen(cfg, events, 0, 2);
    assert events[..2] == events;
  }

  /** Probe spacing: with no success or reset in between, two calls admitted while the breaker is
      not closed are at least `openSeconds` apart, even when late in-flight calls record failures. */
  lemma ProbesAreSpaced(cfg: Config, events: seq<Event>, i: nat, j: nat)
    requires MonotoneClock(events) && i < j < |events|
    requires events[i].Ask? && At(cfg, events, i).state != Closed && Admits(At(cfg, events, i), cfg, events[i].now)
    requires events[j].Ask? && Admits(At(cfg, events, j), cfg, events[j].now)
    requires Unresolved(events, i, j)
    ensures events[j].now - events[i].now >= cfg.openSeconds
  {
    AtNext(cfg, events, i);
    HeldUntil(cfg, events, i, j);
  }

  // ----- what a probe that reports nothing does -----

  lemma {:induction false} HalfOpenRefusesEveryone(h: Health, cfg: Config, events: seq<Event>)
    requires h.state == HalfOpen && forall k :: 0 <= k < |events| ==> events[k].Ask?
    ensures Run(h, cfg, events) == h
    ensures forall now :: !Admits(Run(h, cfg, events), cfg, now)
  {
    if events != [] {
      HalfOpenRefusesEveryone(h, cfg, events[..|events| - 1]);
    }
  }

  ghost predicate AllAsks(events: seq<Event>) {
    forall k :: 0 <= k < |events| ==> events[k].Ask?
  }

  /** Some later call is admitted although nobody reports anything in the meantime. */
  ghost predicate Recovers(h: Health, cfg: Config) {
    exists asks, later :: AllAsks(asks) && Admits(Run(h, cfg, asks), cfg, later)
  }

  lemma AdmitsLater(h: Health, cfg: Config, later: real)
    requires Admits(h, cfg, later)
    ensures Recovers(h, cfg)
  {
    assert AllAsks([]) && Run(h, cfg, []) == h;
  }

  lemma RunOfReport<T>(h: Health, cfg: Config, outcome: Outcome<T>, now: real)
    ensures Run(h, cfg, Report(outcome, now)) ==
            match outcome
            case Raised => AfterFailure(h, cfg, now)
            case Nothing => h
            case Quoted(_) => AfterSuccess(h, cfg)
  {
    var report := Report(outcome, now);
    if report != [] {
      assert report[..|report| - 1] == [];
      assert Run(h, cfg, report[..|report| - 1]) == h;
    }
  }

  /** A half-open breaker whose probe has answered admits some later call, with no further report,
      exactly when the probe returned a quote or raised. A probe that returns nothing leaves it
      refusing every call for good. */
  lemma RecoversIffProbeReports<T>(cfg: Config, events: seq<Event>, outcome: Outcome<T>, now: real)
    requires Run(FRESH, cfg, events).state == HalfOpen
    ensures Recovers(Run(Run(FRESH, cfg, events), cfg, Report(outcome, now)), cfg) <==> !outcome.Nothing?
  {
    var half := Run(FRESH, cfg, events);
    RunOfReport(half, cfg, outcome, now);
    match outcome {
      case Nothing =>
        forall asks | AllAsks(asks) ensures forall later :: !Admits(Run(half, cfg, asks), cfg, later) {
          HalfOpenRefusesEveryone(half, cfg, asks);
        }
      case Raised =>
        HalfOpenFailureReopens(cfg, events, now);
        AdmitsLater(AfterFailure(half, cfg, now), cfg, now + cfg.openSeconds);
      case Quoted(_) =>
        AdmitsLater(AfterSuccess(half, cfg), cfg, now);
    }
  }

  /** One failure opens this breaker, and a minute later a call is admitted as a probe: when the probe
      returns nothing, no call is ever admitted again. */
  lemma SilentProbeHangs(cfg: Config, asks: seq<Event>, later: real)
    requires cfg == Config(1, 1.0, 10, 60.0) && AllAsks(asks)
    ensures var half := Run(FRESH, cfg, [Fail(0.0), Ask(60.0)]);
            && half.state == HalfOpen
            && !Admits(Run(Run(half, cfg, Report(Outcome<int>.Nothing, 60.0)), cfg, asks), cfg, later)
  {
    var events := [Fail(0.0), Ask(60.0)];
    assert events[..1] == [Fail(0.0)] && [Fail(0.0)][..0] == [];
    assert Run(FRESH, cfg, [Fail(0.0)][..0]) == FRESH;
    assert Run(FRESH, cfg, events[..1]) == AfterFailure(FRESH, cfg, 0.0);
    var half := Run(FRESH, cfg, events);
    RecoversIffProbeReports(cfg, events, Outcome<int>.Nothing, 60.0);
    if Admits(Run(Run(half, cfg, Report(Outcome<int>.Nothing, 60.0)), cfg, asks), cfg, later) {
      assert Recovers(Run(half, cfg, Report(Outcome<int>.Nothing, 60.0)), cfg);
    }
  }

  // ----- when it opens -----

  lemma RateOfOne()
    ensures FailureRate([false]) == 1.0
  {
    assert [false][..0] == [];
    assert Failures([false]) == 1;
  }

  /** A fresh breaker opens on its very first failure exactly when its threshold is at most one, or
      its window holds anything at all and its rate limit is below one. */
  lemma FirstFailureOpensIff(cfg: Config, now: real)
    requires cfg.rateThreshold >= 0.0
    ensures AfterFailure(FRESH, cfg, now).state == Open <==>
            cfg.failureThreshold <= 1 || (cfg.windowSize >= 1 && cfg.rateThreshold < 1.0)
  {
    RateOfOne();
    assert [] + [false] == [false];
    assert cfg.windowSize == 0 ==> Suffix([false], 0) == [];
  }

  lemma RateAtMostOne(results: seq<bool>)
    ensures FailureRate(results) <= 1.0
  {
    FailuresBounded(results);
    if results != [] {
      QuotientOrder(Failures(results), |results|, 1, 1);
    }
  }

  lemma ThresholdStep(h: Health, cfg: Config, e: Event)
    requires cfg.rateThreshold >= 1.0 && cfg.failureThreshold >= 1
    requires h.state != Closed <==> h.consecutiveFailures >= cfg.failureThreshold
    ensures var d := Step(h, cfg, e); d.state != Closed <==> d.consecutiveFailures >= cfg.failureThreshold
  {
    hide FailureRate;
    RateAtMostOne(Suffix(h.recentResults + [false], cfg.windowSize));
  }

  /** With the rate rule switched off (a limit of one or more) the breaker is not closed exactly
      while the last `failureThreshold` results were failures. */
  lemma {:induction false} OpenExactlyAtThreshold(cfg: Config, events: seq<Event>)
    requires cfg.rateThreshold >= 1.0 && cfg.failureThreshold >= 1
    ensures var h := Run(FRESH, cfg, events); h.state != Closed <==> h.consecutiveFailures >= cfg.failureThreshold
  {
    if events != [] {
      OpenExactlyAtThreshold(cfg, events[..|events| - 1]);
      ThresholdStep(Run(FRESH, cfg, events[..|events| - 1]), cfg, events[|events| - 1]);
    }
  }

  // ----- the counters against the whole history -----

  /** Results recorded in all, and those of them that were failures. */
  function Recorded(events: seq<Event>, failuresOnly: bool): nat {
    if events == [] then 0
    else
      var last := events[|events| - 1];
      Recorded(events[..|events| - 1], failuresOnly) + if last.Fail? || (last.Succeed? && !failuresOnly) then 1 else 0
  }

  /** The lifetime totals count every result, across resets; and the opening time is kept exactly while the
      breaker is not closed. */
  lemma {:induction false} TotalsCountEveryResult(cfg: Config, events: seq<Event>)
    ensures var h := Run(FRESH, cfg, events);
            && h.totalCalls == Recorded(events, false) && h.totalFailures == Recorded(events, true)
            && (h.state == Closed <==> h.openedAt.None?)
  {
    hide Tripped;
    if events != [] {
      TotalsCountEveryResult(cfg, events[..|events| - 1]);
    }
  }

  /** Every result recorded since the last reset. */
  function Results(events: seq<Event>): seq<bool> {
    if events == [] then []
    else
      var before := Results(events[..|events| - 1]);
      match events[|events| - 1]
      case Ask(_) => before
      case Succeed => before + [true]
      case Fail(_) => before + [false]
      case Reset => []
  }

  function TrailingFailures(results: seq<bool>): nat {
    if results == [] || results[|results| - 1] then 0 else 1 + TrailingFailures(results[..|results| - 1])
  }

  lemma SuffixOfSuffix(results: seq<bool>, size: nat, ok: bool)
    ensures Suffix(Suffix(results, size) + [ok], size) == Suffix(results + [ok], size)
  {
  }

  lemma TrailingSnoc(results: seq<bool>, ok: bool)
    ensures TrailingFailures(results + [ok]) == if ok then 0 else 1 + TrailingFailures(results)
  {
    assert (results + [ok])[..|results|] == results;
  }

  ghost predicate Summarises(h: Health, cfg: Config, results: seq<bool>) {
    h.recentResults == Suffix(results, cfg.windowSize) && h.consecutiveFailures == TrailingFailures(results)
  }

  lemma ResultSummarised(h: Health, cfg: Config, results: seq<bool>, now: real)
    requires Summarises(h, cfg, results)
    ensures Summarises(AfterSuccess(h, cfg), cfg, results + [true])
    ensures Summarises(AfterFailure(h, cfg, now), cfg, results + [false])
  {
    hide FailureRate;
    hide Suffix;
    hide TrailingFailures;
    SuffixOfSuffix(results, cfg.windowSize, true);
    SuffixOfSuffix(results, cfg.windowSize, false);
    TrailingSnoc(results, true);
    TrailingSnoc(results, false);
  }

  /** The bounded state forgets nothing it needs: the window is the last results since the last
      reset, and the counter is the unbroken run of failures at their end. */
  lemma {:induction false} StateSummarisesHistory(cfg: Config, events: seq<Event>)
    ensures Summarises(Run(FRESH, cfg, events), cfg, Results(events))
  {
    if events != [] {
      hide FailureRate;
      var init, last := events[..|events| - 1], events[|events| - 1];
      StateSummarisesHistory(cfg, init);
      ResultSummarised(Run(FRESH, cfg, init), cfg, Results(init), if last.Fail? then last.now else 0.0);
    }
  }
}
