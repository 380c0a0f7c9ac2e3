/**
  The time windows of app/periods.py. An instant is a count of microseconds since
  0001-01-01T00:00 UTC, which was a Monday.
 */
module Periods {
  import opened Arithmetic

  type Instant = nat

  const DAY: nat := 86_400_000_000
  const WEEK: nat := 7 * DAY

  /** 2000-01-01T00:00 UTC, the fixed start of the all-time window. */
  const SENTINEL: Instant := 730_119 * DAY

  datatype Period = AllTime | Daily | Weekly

  const PERIODS: seq<Period> := [AllTime, Daily, Weekly]

  /** Days since Monday. */
  function Weekday(at: Instant): nat {
    (at / DAY) % 7
  }

  function Midnight(at: Instant): Instant {
    at / DAY * DAY
  }

  /** `get_period_start`. */
  function PeriodStart(period: Period, at: Instant): Instant {
    match period
    case AllTime => SENTINEL
    case Daily => Midnight(at)
    case Weekly =>
      var monday := at - Weekday(at) * DAY;
      if monday >= 0 then Midnight(monday) else 0
  }

  /** The weekly window starts on the Monday of the instant's own week. */
  lemma WeekStartsMonday(at: Instant)
    ensures PeriodStart(Weekly, at) == at / WEEK * WEEK
    ensures Weekday(PeriodStart(Weekly, at)) == 0
  {
    var day, week := at / DAY, at / DAY / 7;
    DivMod(at, DAY);
    DivMod(day, 7);
    assert at / WEEK == week by {
      assert week * WEEK == week * 7 * DAY;
      assert day * DAY == week * 7 * DAY + Weekday(at) * DAY;
      assert Weekday(at) * DAY <= 6 * DAY;
      QuotientUnique(at, WEEK, week);
    }
    var monday := at - Weekday(at) * DAY;
    assert monday == week * 7 * DAY + at % DAY;
    QuotientUnique(monday, DAY, week * 7);
    QuotientUnique(week * 7 * DAY, DAY, week * 7);
  }

  /** Two instants share a day exactly when they share a midnight, and a week likewise. */
  lemma WindowsPartitionTime(a: Instant, b: Instant)
    ensures PeriodStart(Daily, a) == PeriodStart(Daily, b) <==> a / DAY == b / DAY
    ensures PeriodStart(Weekly, a) == PeriodStart(Weekly, b) <==> a / WEEK == b / WEEK
  {
    WeekStartsMonday(a);
    WeekStartsMonday(b);
    QuotientUnique(a / DAY * DAY, DAY, a / DAY);
    QuotientUnique(b / DAY * DAY, DAY, b / DAY);
    QuotientUnique(a / WEEK * WEEK, WEEK, a / WEEK);
    QuotientUnique(b / WEEK * WEEK, WEEK, b / WEEK);
  }

  /** An instant lies in the window it is bucketed by. */
  lemma InOwnWindow(at: Instant)
    ensures PeriodStart(Daily, at) <= at < PeriodStart(Daily, at) + DAY
    ensures PeriodStart(Weekly, at) <= at < PeriodStart(Weekly, at) + WEEK
  {
    WeekStartsMonday(at);
    DivMod(at, DAY);
    DivMod(at, WEEK);
  }

  /** Exactly one day of the week starting at `w` holds an instant of that week, and none any other. */
  lemma DaysTileWeek(at: Instant, week: nat, d: nat)
    requires d < 7
    ensures PeriodStart(Daily, at) == week * WEEK + d * DAY <==> at / WEEK == week && Weekday(at) == d
  {
    var day := at / DAY;
    DivMod(day, 7);
    WeekStartsMonday(at);
    DivMod(at, DAY);
    assert at / WEEK == day / 7 by {
      assert day * DAY == day / 7 * 7 * DAY + day % 7 * DAY;
      assert day % 7 * DAY <= 6 * DAY;
      QuotientUnique(at, WEEK, day / 7);
    }
    if day * DAY == week * WEEK + d * DAY {
      assert day == week * 7 + d;
      QuotientUnique(day, 7, week);
    }
  }
}
