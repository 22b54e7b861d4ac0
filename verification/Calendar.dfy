/** The exchange calendar: trading days, session phases, and the next opening. Dates are ordinals
    with day 1 a Monday; times are microseconds since midnight, local to the exchange. */
module Calendar {
  import opened Settlement

  datatype Moment = Moment(day: int, time: int)

  datatype SessionPhase = Closed | PreOpen | Regular | PostClose

  function Clock(hour: int, minute: int): int {
    (hour * 60 + minute) * 60_000_000
  }

  const DAY_LENGTH := Clock(24, 0)
  const OPENING := Clock(9, 15)
  const CLOSING := Clock(15, 30)
  const PRE_OPEN_START := Clock(9, 0)
  const PRE_OPEN_END := Clock(9, 8)
  const POST_CLOSE_START := Clock(15, 40)
  const POST_CLOSE_END := Clock(16, 0)

  const CANDIDATES := 20

  predicate Earlier(a: Moment, b: Moment) {
    a.day < b.day || (a.day == b.day && a.time < b.time)
  }

  predicate IsMoment(m: Moment) {
    0 <= m.time < DAY_LENGTH
  }

  predicate IsTradingDay(holidays: set<int>, d: int) {
    Weekday(d) < 5 && d !in holidays
  }

  function CurrentPhase(holidays: set<int>, m: Moment): SessionPhase {
    if !IsTradingDay(holidays, m.day) then Closed
    else if OPENING <= m.time <= CLOSING then Regular
    else if PRE_OPEN_START <= m.time <= PRE_OPEN_END then PreOpen
    else if POST_CLOSE_START <= m.time <= POST_CLOSE_END then PostClose
    else Closed
  }

  /** A microsecond time of day as its parts. */
  predicate IsTime(time: int, hour: int, minute: int, second: int, rest: int) {
    0 <= hour < 24 && 0 <= minute < 60 && 0 <= second < 60 && 0 <= rest < 1_000_000
      && time == ((hour * 60 + minute) * 60 + second) * 1_000_000 + rest
  }

  /** The phases by the clock: on a weekday that is no holiday the session runs from 09:15 to 15:30 to the
      microsecond, both ends included, pre-open from 09:00 to 09:08 and post-close from 15:40 to 16:00; at any
      other time, and all day on other days, the exchange is closed. */
  lemma PhaseByTheClock(holidays: set<int>, m: Moment, hour: int, minute: int, second: int, rest: int)
    requires IsTime(m.time, hour, minute, second, rest)
    ensures var open, phase, exact := Weekday(m.day) < 5 && m.day !in holidays, CurrentPhase(holidays, m),
              second == 0 && rest == 0;
            && (phase == Regular <==>
                open && ((hour == 9 && minute >= 15) || 10 <= hour <= 14 || (hour == 15 && minute < 30)
                         || (hour == 15 && minute == 30 && exact)))
            && (phase == PreOpen <==> open && hour == 9 && (minute < 8 || (minute == 8 && exact)))
            && (phase == PostClose <==>
                open && ((hour == 15 && minute >= 40) || (hour == 16 && minute == 0 && exact)))
  {
  }

  /** The first day whose opening is still to come. */
  function FirstOpening(m: Moment): int {
    if m.time >= OPENING then m.day + 1 else m.day
  }

  /** An opening on the first trading day among the candidates, or on the day after the last of them. */
  ghost predicate IsNextOpen(holidays: set<int>, m: Moment, next: Moment) {
    && next.time == OPENING
    && FirstOpening(m) <= next.day <= FirstOpening(m) + CANDIDATES
    && (forall d :: FirstOpening(m) <= d < next.day ==> !IsTradingDay(holidays, d))
    && (IsTradingDay(holidays, next.day) || next.day == FirstOpening(m) + CANDIDATES)
  }

  class NseCalendar {
    var holidays: set<int>

    constructor (holidays: set<int>)
      ensures this.holidays == holidays
    {
      this.holidays := holidays;
    }

    /** Walks forward from the first opening still to come, rejecting at most `CANDIDATES` days. */
    method NextOpen(m: Moment) returns (next: Moment)
      ensures IsNextOpen(holidays, m, next)
    {
      var day := m.day;
      if m.time >= OPENING {
        day := day + 1;
      }
      ghost var first := day;
      for k := 0 to CANDIDATES
        invariant day == first + k
        invariant forall d :: first <= d < day ==> !IsTradingDay(holidays, d)
      {
        if IsTradingDay(holidays, day) {
          return Moment(day, OPENING);
        }
        day := day + 1;
      }
      next := Moment(day, OPENING);
    }
  }

  /** The answer is always strictly later, and it is a regular-session instant exactly when some
      trading day lies within reach: the twenty days tried, or the one after them. */
  lemma NextOpenIsRegularIff(holidays: set<int>, m: Moment, next: Moment)
    requires IsMoment(m) && IsNextOpen(holidays, m, next)
    ensures Earlier(m, next)
    ensures CurrentPhase(holidays, next) == Regular <==>
            exists d :: FirstOpening(m) <= d <= FirstOpening(m) + CANDIDATES && IsTradingDay(holidays, d)
  {
    assert CurrentPhase(holidays, next) == Regular <==> IsTradingDay(holidays, next.day);
  }

  /** And then it is the least opening after `m`. */
  lemma NextOpenIsLeast(holidays: set<int>, m: Moment, next: Moment, other: Moment)
    requires IsMoment(m) && IsNextOpen(holidays, m, next) && CurrentPhase(holidays, next) == Regular
    requires other.time == OPENING && IsTradingDay(holidays, other.day) && Earlier(m, other)
    ensures !Earlier(other, next)
  {
  }

  /** Between now and the next opening the regular session never runs, exactly when it is not
      running now. */
  lemma ClosedUntilNextOpenIff(holidays: set<int>, m: Moment, next: Moment)
    requires IsMoment(m) && IsNextOpen(holidays, m, next)
    ensures CurrentPhase(holidays, m) != Regular <==>
            forall x :: IsMoment(x) && !Earlier(x, m) && Earlier(x, next) ==> CurrentPhase(holidays, x) != Regular
  {
    NextOpenIsRegularIff(holidays, m, next);
    if CurrentPhase(holidays, m) != Regular {
      forall x | IsMoment(x) && !Earlier(x, m) && Earlier(x, next) ensures CurrentPhase(holidays, x) != Regular {
        if x.day < FirstOpening(m) {
          assert x.day == m.day && m.time >= OPENING && x.time >= m.time;
        } else if x.day < next.day {
          assert !IsTradingDay(holidays, x.day);
        }
      }
    } else {
      assert !Earlier(m, m) && Earlier(m, next);
    }
  }
}
