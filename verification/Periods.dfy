/** Payment periods of a debt contract. */
module Periods {
  import opened Calendar
  import opened Wrappers

  datatype Frequency = Weekly | Biweekly | Monthly

  function MonthsBetween(start: Civil, current: Civil): int {
    var months := 12 * (current.year - start.year) + (current.month - start.month);
    if current.day < start.day then months - 1 else months
  }

  /** How many full periods have elapsed since the signature. */
  function CurrentPeriodIndex(z: Zone, signedAt: Option<nat>, freq: Frequency, now: nat): (index: nat) {
    if signedAt.None? then 0
    else
      var start, current := LondonDay(z, signedAt.value), LondonDay(z, now);
      if current <= start then 0
      else match freq
        case Weekly => (current - start) / 7
        case Biweekly => (current - start) / 14
        case Monthly =>
          var months := MonthsBetween(CivilOf(start), CivilOf(current));
          if months < 0 then 0 else months
  }

  function PeriodLengthDays(freq: Frequency): nat {
    match freq case Weekly => 7 case Biweekly => 14 case Monthly => 30
  }

  function PeriodStart(z: Zone, signedAt: nat, freq: Frequency, now: nat): nat {
    signedAt + DAY * (CurrentPeriodIndex(z, Some(signedAt), freq, now) * PeriodLengthDays(freq))
  }

  /** `(now.date() - period_start.date()).days`, on UTC dates. */
  function DaysIntoPeriod(z: Zone, signedAt: nat, freq: Frequency, now: nat): int {
    UtcDay(now) - UtcDay(PeriodStart(z, signedAt, freq, now))
  }

  /**
   The London day `day` is on or after the `k`-th due date counted from `start`: `k` weeks or
   fortnights later, or the same day number `k` months later.  A month too short to have that
   day number passes the due date on to the first day of the next month.
   */
  predicate Reached(freq: Frequency, start: nat, k: nat, day: nat) {
    match freq
    case Weekly => start + 7 * k <= day
    case Biweekly => start + 14 * k <= day
    case Monthly =>
      var due := MonthNumber(CivilOf(start)) + k;
      var month := MonthNumber(CivilOf(day));
      due < month || (due == month && CivilOf(start).day <= CivilOf(day).day)
  }

  /** The index is the number of due dates reached. */
  lemma PeriodIndexCounts(z: Zone, signedAt: nat, freq: Frequency, now: nat, k: nat)
    requires 1 <= k
    ensures k <= CurrentPeriodIndex(z, Some(signedAt), freq, now)
      <==> Reached(freq, LondonDay(z, signedAt), k, LondonDay(z, now))
  {
    CivilOrder(LondonDay(z, now), LondonDay(z, signedAt));
  }

  /** A clock that does not go back never reopens a period. */
  lemma PeriodIndexMonotone(z: Zone, signedAt: Option<nat>, freq: Frequency, now: nat, later: nat)
    requires now <= later
    ensures CurrentPeriodIndex(z, signedAt, freq, now) <= CurrentPeriodIndex(z, signedAt, freq, later)
  {
    if signedAt.Some? {
      var k := CurrentPeriodIndex(z, signedAt, freq, now);
      if 1 <= k {
        LondonDayMonotone(z, now, later);
        CivilOrder(LondonDay(z, now), LondonDay(z, later));
        PeriodIndexCounts(z, signedAt.value, freq, now, k);
        PeriodIndexCounts(z, signedAt.value, freq, later, k);
      }
    }
  }

  // ---------------------------------------------------------------- the first day of a period

  /** London is already in the next day: the hour before midnight UTC, in summer. */
  function Ahead(z: Zone, t: int): (days: int)
    ensures 0 <= days <= 1
  {
    assert t <= Local(z, t) <= t + HOUR;
    LondonDay(z, t) - UtcDay(t)
  }

  /** `now` is on the London day on which its period begins. */
  predicate OnFirstDay(z: Zone, signedAt: nat, freq: Frequency, now: nat) {
    var start, day := LondonDay(z, signedAt), LondonDay(z, now);
    var k := CurrentPeriodIndex(z, Some(signedAt), freq, now);
    if k == 0 then day == start else !Reached(freq, start, k, day - 1)
  }

  lemma UtcDayLater(t: int, days: int)
    ensures UtcDay(t + DAY * days) == UtcDay(t) + days
  {
    assert t + DAY * days == DAY * (UtcDay(t) + days) + t % DAY;
  }

  /** The days into a period count UTC dates from a start that is `length` days a period after the signature. */
  lemma DaysInto(z: Zone, signedAt: nat, freq: Frequency, now: nat)
    ensures
      var k := CurrentPeriodIndex(z, Some(signedAt), freq, now);
      DaysIntoPeriod(z, signedAt, freq, now)
        == (LondonDay(z, now) - Ahead(z, now)) - (LondonDay(z, signedAt) - Ahead(z, signedAt)) - k * PeriodLengthDays(freq)
  {
    hide CurrentPeriodIndex;
    var k := CurrentPeriodIndex(z, Some(signedAt), freq, now);
    UtcDayLater(signedAt, k * PeriodLengthDays(freq));
  }

  /**
   On the London day its period begins a weekly or fortnightly contract counts as past the start
   exactly when it was signed in the summer hour before midnight UTC and it is not that hour now.
   */
  lemma FirstDayIff(z: Zone, signedAt: nat, freq: Frequency, now: nat)
    requires signedAt <= now && freq != Monthly && OnFirstDay(z, signedAt, freq, now)
    ensures 0 < DaysIntoPeriod(z, signedAt, freq, now) <==> (Ahead(z, signedAt) == 1 && Ahead(z, now) == 0)
  {
    DaysInto(z, signedAt, freq, now);
    LondonDayMonotone(z, signedAt, now);
  }

  /**
   A month is thirty days for the start of the period and a calendar month for its number. So a
   monthly contract counts as past the start of its period, on its first day or any other, exactly
   when the UTC dates since the signature are more than thirty for each month counted.
   */
  lemma MonthlyPastStartIff(z: Zone, signedAt: nat, now: nat)
    ensures
      var k := CurrentPeriodIndex(z, Some(signedAt), Monthly, now);
      0 < DaysIntoPeriod(z, signedAt, Monthly, now) <==> 30 * k < UtcDay(now) - UtcDay(signedAt)
  {
    hide CurrentPeriodIndex;
    DaysInto(z, signedAt, Monthly, now);
  }

  /** Signed on the first of January: a year later, on the first day of month 12, five days count as passed. */
  lemma YearLater()
    ensures
      var z: Zone := _ => false;
      && CurrentPeriodIndex(z, Some(0), Monthly, DAY * 365) == 12 && OnFirstDay(z, 0, Monthly, DAY * 365)
      && DaysIntoPeriod(z, 0, Monthly, DAY * 365) == 5
  {
    hide CivilOf;
    var z: Zone := _ => false;
    assert LondonDay(z, 0) == 0 && LondonDay(z, DAY * 365) == 365;
    FirstYear();
    assert CivilOf(0) == Civil(1, 1, 1) by {
      DayZero();
    }
    assert !Reached(Monthly, 0, 12, 364);
    UtcDayLater(0, 360);
  }

  lemma DayZero()
    ensures CivilOf(0) == Civil(1, 1, 1)
  {
  }

  // The first month of year 2 begins on day 365.
  lemma FirstMonths()
    ensures MonthStart(11) == 334 && MonthStart(12) == 365 && MonthStart(13) == 396
  {
    assert MonthStart(2) == 59;
    assert MonthStart(4) == 120;
    assert MonthStart(6) == 181;
    assert MonthStart(8) == 243;
    assert MonthStart(10) == 304;
    assert MonthStart(12) == 365;
  }

  lemma FirstYear()
    ensures CivilOf(365) == Civil(2, 1, 1) && MonthNumber(CivilOf(364)) == 11
  {
    hide CivilOf, MonthStart, MonthLength;
    FirstMonths();
    MonthSpan(364, 11);
    MonthSpan(365, 12);
    CivilPosition(365);
  }
}
