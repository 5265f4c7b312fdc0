/** The tribute-minimum gauge: the current London week or month, and how well it is paid. */
module Tribute {
  import opened Calendar
  import opened Rounding
  import opened Wrappers

  datatype Period = Weekly | Monthly
  datatype Color = Red | Amber | Green

  /** `fold` of the wall reading of an instant: set in the second pass of a repeated hour. */
  predicate Fold(z: Zone, t: int) {
    ToUtc(z, Local(z, t), false) != t
  }

  /** First and one-past-last London day of the period that holds `day`. */
  function PeriodDays(period: Period, day: nat): (int, int) {
    match period
    case Weekly => (Monday(day), Monday(day) + 7)
    case Monthly =>
      var month := MonthNumber(CivilOf(day));
      CivilPosition(day);
      (MonthStart(month), MonthStart(month + 1))
  }

  /**
   The bounds in UTC.  The month's bounds come from `replace`, which keeps the fold of the
   current reading; the week's come from adding a `timedelta`, which clears it.
   */
  function PeriodBounds(z: Zone, period: Period, now: nat): (int, int) {
    var days := PeriodDays(period, LondonDay(z, now));
    var fold := period.Monthly? && Fold(z, now);
    (ToUtc(z, DAY * days.0, fold), ToUtc(z, DAY * days.1, fold))
  }

  predicate Within(bounds: (int, int), t: int) {
    bounds.0 <= t < bounds.1
  }

  lemma PlainBounds(z: Zone, period: Period, now: nat, days: (int, int))
    requires days == PeriodDays(period, LondonDay(z, now))
    ensures PeriodBounds(z, period, now) == (ToUtc(z, DAY * days.0, false), ToUtc(z, DAY * days.1, false))
  {
    FoldAtMidnight(z, days.0);
    FoldAtMidnight(z, days.1);
  }

  lemma SamePeriod(period: Period, day: nat, other: nat)
    ensures PeriodDays(period, day).0 <= other < PeriodDays(period, day).1
      <==> PeriodDays(period, other) == PeriodDays(period, day)
  {
    hide CivilOf, MonthNumber, MonthStart;
    if period.Monthly? {
      SameMonth(day, other);
    }
  }

  lemma SameMonth(day: nat, other: nat)
    ensures PeriodDays(Monthly, day).0 <= other < PeriodDays(Monthly, day).1 <==> PeriodDays(Monthly, other) == PeriodDays(Monthly, day)
  {
    hide CivilOf, MonthNumber, MonthStart, CivilMonth;
    var m, n := MonthNumber(CivilOf(day)), MonthNumber(CivilOf(other));
    CivilPosition(day);
    CivilPosition(other);
    MonthSpan(other, m);
    MonthSpan(other, n);
  }

  lemma WithinByDay(z: Zone, period: Period, now: nat, t: int, days: (int, int))
    requires days == PeriodDays(period, LondonDay(z, now))
    ensures Within(PeriodBounds(z, period, now), t) <==> days.0 <= LondonDay(z, t) < days.1
  {
    PlainBounds(z, period, now, days);
    DaySpan(z, t, days.0, days.1, false);
  }

  /** An instant is in the period of `now` exactly when its own period is the same one. */
  lemma PeriodsPartitionTime(z: Zone, period: Period, now: nat, t: nat)
    ensures Within(PeriodBounds(z, period, now), t)
      <==> PeriodBounds(z, period, t) == PeriodBounds(z, period, now)
    ensures Within(PeriodBounds(z, period, now), now)
  {
    hide CivilOf, MonthStart, PeriodDays, PeriodBounds;
    var days, own := PeriodDays(period, LondonDay(z, now)), PeriodDays(period, LondonDay(z, t));
    SamePeriod(period, LondonDay(z, now), LondonDay(z, t));
    SamePeriod(period, LondonDay(z, now), LondonDay(z, now));
    SamePeriod(period, LondonDay(z, t), LondonDay(z, t));
    WithinByDay(z, period, now, t, days);
    WithinByDay(z, period, now, now, days);
    WithinByDay(z, period, t, t, own);
    PlainBounds(z, period, now, days);
    PlainBounds(z, period, t, own);
  }

  /** The period of `now` is its London week, from Monday on, or its London calendar month. */
  lemma PeriodIs(z: Zone, period: Period, now: nat, t: nat)
    ensures Within(PeriodBounds(z, period, now), t)
      <==> match period
           case Weekly => LondonDay(z, t) / 7 == LondonDay(z, now) / 7
           case Monthly => CivilOf(LondonDay(z, t)).year == CivilOf(LondonDay(z, now)).year
                           && CivilOf(LondonDay(z, t)).month == CivilOf(LondonDay(z, now)).month
  {
    hide CivilOf, MonthStart, PeriodBounds, CivilMonth;
    var day, own := LondonDay(z, now), LondonDay(z, t);
    WithinByDay(z, period, now, t, PeriodDays(period, day));
    if period.Monthly? {
      CivilPosition(day);
      MonthSpan(own, MonthNumber(CivilOf(day)));
    }
  }

  /** Where one period ends the next begins, over the turn of the year and clock changes too. */
  lemma PeriodsAbut(z: Zone, period: Period, now: nat)
    ensures var end := PeriodBounds(z, period, now).1; 0 <= end && PeriodBounds(z, period, end).0 == end
  {
    hide CivilOf, MonthStart, PeriodDays, PeriodBounds;
    var days := PeriodDays(period, LondonDay(z, now));
    var end := PeriodBounds(z, period, now).1;
    PlainBounds(z, period, now, days);
    MidnightDay(z, days.1);
    assert 0 <= end by {
      SamePeriod(period, LondonDay(z, now), LondonDay(z, now));
    }
    NextPeriodStarts(period, LondonDay(z, now));
    PlainBounds(z, period, end, PeriodDays(period, days.1));
  }

  lemma MidnightDay(z: Zone, day: int)
    ensures LondonDay(z, ToUtc(z, DAY * day, false)) == day
  {
    var t := ToUtc(z, DAY * day, false);
    SettledCut(z, t, DAY * day, false) by {
      MidnightSettled(day);
    }
    assert Local(z, t) == DAY * day;
    DivCut(Local(z, t), day);
  }

  lemma NextPeriodStarts(period: Period, day: nat)
    ensures var next := PeriodDays(period, day).1; 0 <= next && PeriodDays(period, next).0 == next
  {
    hide CivilOf, MonthNumber, MonthStart;
    if period.Monthly? {
      var m := MonthNumber(CivilOf(day));
      assert 0 <= m by {
        CivilPosition(day);
      }
      MonthStartMonotone(m + 1, m + 2);
      MonthSpan(MonthStart(m + 1), m + 1);
    }
  }

  // ---------------------------------------------------------------- the gauge

  /** Paid over target in ten-thousandths; money is in pence. */
  function Ratio(paid: int, target: Option<int>): Option<int> {
    if target.Some? && 0 < target.value then Some(RoundHalfEven(10_000 * paid, target.value)) else None
  }

  function ComputeColor(ratio: Option<int>, graceBelow: int): Color {
    if ratio.None? then Green
    else if ratio.value < graceBelow then Red
    else if ratio.value < 10_000 then Amber
    else Green
  }

  function Rank(c: Color): nat {
    match c case Red => 0 case Amber => 1 case Green => 2
  }

  /** Paying more never worsens the colour. */
  lemma ColorMonotone(paid: int, more: int, target: Option<int>, graceBelow: int)
    requires paid <= more
    ensures Rank(ComputeColor(Ratio(paid, target), graceBelow)) <= Rank(ComputeColor(Ratio(more, target), graceBelow))
  {
    if target.Some? && 0 < target.value {
      RoundMonotone(10_000 * paid, 10_000 * more, target.value);
    }
  }

  /**
   Green without a positive target; with one it starts below the target, at 99.995 percent of
   it: the tie there rounds up to 1.0000 because 9999 is odd.
   */
  lemma GreenIff(paid: int, target: Option<int>, graceBelow: int)
    requires 0 <= graceBelow <= 10_000
    ensures ComputeColor(Ratio(paid, target), graceBelow) == Green
      <==> target.None? || target.value <= 0 || 99_995 * target.value <= 100_000 * paid
  {
    if target.Some? && 0 < target.value {
      RoundCut(10_000 * paid, target.value, 10_000);
    }
  }

  /** Red ends half a ten-thousandth below the grace ratio; on the half itself an odd grace is still red. */
  lemma RedIff(paid: int, target: Option<int>, graceBelow: int)
    requires 0 <= graceBelow <= 10_000
    ensures ComputeColor(Ratio(paid, target), graceBelow) == Red
      <==> (target.Some? && 0 < target.value
            && (20_000 * paid < (2 * graceBelow - 1) * target.value
                || (20_000 * paid == (2 * graceBelow - 1) * target.value && graceBelow % 2 == 1)))
  {
    if target.Some? && 0 < target.value {
      RoundCut(10_000 * paid, target.value, graceBelow);
    }
  }
}
