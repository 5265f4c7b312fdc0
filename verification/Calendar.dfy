/**
 London local time and the Gregorian calendar.

 An instant is a number of microseconds since 0001-01-01T00:00 UTC, which is where Python's
 own ordinals start; that day is a Monday, so `day % 7` is `date.weekday()`.

 London is UTC or UTC plus one hour, and it changes only at 01:00 UTC on a Sunday.  A `Zone`
 says, for each stretch between two such Sundays, whether it is summer time.  Nothing else is
 assumed, so what is proved holds for every schedule of changes of that kind.
 */
module Calendar {
  const HOUR := 3_600_000_000
  const DAY := 24 * HOUR
  const WEEK := 7 * DAY
  // The first Sunday, 01:00 UTC.
  const CHANGE := 6 * DAY + HOUR

  type Zone = int -> bool

  function Offset(z: Zone, t: int): int {
    if z((t - CHANGE) / WEEK) then HOUR else 0
  }

  /** `utc.astimezone(LONDON)`, as a wall-clock reading. */
  function Local(z: Zone, t: int): int {
    t + Offset(z, t)
  }

  /**
   `wall.astimezone(UTC)`.  zoneinfo lets a change take effect at the later of the two wall
   readings of the change (02:00) when fold is 0 and at the earlier one (01:00) when fold is 1.
   */
  function ToUtc(z: Zone, wall: int, fold: bool): int {
    wall - if z((wall - CHANGE - (if fold then 0 else HOUR)) / WEEK) then HOUR else 0
  }

  function LondonDay(z: Zone, t: int): int {
    Local(z, t) / DAY
  }

  function UtcDay(t: int): int {
    t / DAY
  }

  function Monday(day: int): int {
    day - day % 7
  }

  /** The wall reading is outside the hour of a Sunday that a change can skip or repeat. */
  predicate Settled(wall: int) {
    HOUR <= (wall - CHANGE) % WEEK
  }

  /** A settled wall reading cuts the time line the same way in UTC and in local time. */
  lemma SettledCut(z: Zone, t: int, wall: int, fold: bool)
    requires Settled(wall)
    ensures ToUtc(z, wall, fold) <= t <==> wall <= Local(z, t)
    ensures t <= ToUtc(z, wall, fold) <==> Local(z, t) <= wall
  {
    var i, j := (t - CHANGE) / WEEK, (wall - CHANGE) / WEEK;
    assert (wall - CHANGE - HOUR) / WEEK == j;
    if i < j {
      assert t < CHANGE + WEEK * (i + 1) <= CHANGE + WEEK * j <= wall - HOUR;
    } else if j < i {
      assert wall < CHANGE + WEEK * (j + 1) <= CHANGE + WEEK * i <= t;
    }
  }

  lemma MidnightSettled(day: int)
    ensures Settled(DAY * day) && Settled(DAY * (day + 1) - 1)
  {
    var q, r := day / 7, day % 7;
    assert DAY * day - CHANGE == WEEK * (q - 1) + (DAY * r - CHANGE + WEEK);
    assert (DAY * day - CHANGE) / WEEK == q - 1;
    assert (DAY * (day + 1) - 1 - CHANGE) / WEEK == if r < 6 then q - 1 else q;
  }

  lemma DivCut(x: int, day: int)
    ensures DAY * day <= x <==> day <= x / DAY
    ensures x <= DAY * (day + 1) - 1 <==> x / DAY <= day
  {
  }

  /** The local day of an instant is found by comparing the instant with midnights in UTC. */
  lemma DayCut(z: Zone, t: int, day: int, fold: bool)
    ensures ToUtc(z, DAY * day, fold) <= t <==> day <= LondonDay(z, t)
    ensures t <= ToUtc(z, DAY * (day + 1) - 1, fold) <==> LondonDay(z, t) <= day
  {
    MidnightSettled(day);
    DivCut(Local(z, t), day);
    SettledCut(z, t, DAY * day, fold);
    SettledCut(z, t, DAY * (day + 1) - 1, fold);
  }

  /** A run of whole local days is one stretch of UTC time. */
  lemma DaySpan(z: Zone, t: int, lo: int, hi: int, fold: bool)
    ensures ToUtc(z, DAY * lo, fold) <= t < ToUtc(z, DAY * hi, fold) <==> lo <= LondonDay(z, t) < hi
  {
    DayCut(z, t, lo, fold);
    DayCut(z, t, hi, fold);
  }

  /** Midnight is never repeated, so its fold does not matter. */
  lemma FoldAtMidnight(z: Zone, day: int)
    ensures ToUtc(z, DAY * day, true) == ToUtc(z, DAY * day, false)
  {
    var early, late := ToUtc(z, DAY * day, false), ToUtc(z, DAY * day, true);
    DayCut(z, early, day, true);
    DayCut(z, early, day, false);
    DayCut(z, late, day, false);
    DayCut(z, late, day, true);
  }

  lemma LondonDayMonotone(z: Zone, s: int, t: int)
    requires s <= t
    ensures LondonDay(z, s) <= LondonDay(z, t)
  {
    DayCut(z, s, LondonDay(z, s), false);
    DayCut(z, t, LondonDay(z, s), false);
  }

  // ---------------------------------------------------------------- civil dates

  datatype Civil = Civil(year: int, month: int, day: int)

  predicate Leap(year: int) {
    year % 4 == 0 && (year % 100 != 0 || year % 400 == 0)
  }

  function MonthLength(year: int, month: int): (n: int)
    ensures 28 <= n <= 31
  {
    if month == 2 then (if Leap(year) then 29 else 28)
    else if month in {4, 6, 9, 11} then 30
    else 31
  }

  function NextDay(c: Civil): Civil {
    if c.day < MonthLength(c.year, c.month) then c.(day := c.day + 1)
    else if c.month < 12 then Civil(c.year, c.month + 1, 1)
    else Civil(c.year + 1, 1, 1)
  }

  /** The civil date of a day number: `date.fromordinal(day + 1)`. */
  function CivilOf(day: nat): (c: Civil)
    ensures 1 <= c.month <= 12 && 1 <= c.day <= MonthLength(c.year, c.month) && 1 <= c.year
  {
    if day == 0 then Civil(1, 1, 1) else NextDay(CivilOf(day - 1))
  }

  /** Months since January of year 1. */
  function MonthNumber(c: Civil): int {
    12 * (c.year - 1) + c.month - 1
  }

  function CivilMonth(m: nat): (int, int) {
    (m / 12 + 1, m % 12 + 1)
  }

  /** Day number of the first day of month `m`, by adding up whole months. */
  function MonthStart(m: nat): (d: nat) {
    if m == 0 then 0
    else MonthStart(m - 1) + MonthLength(CivilMonth(m - 1).0, CivilMonth(m - 1).1)
  }

  lemma CivilMonthOf(c: Civil)
    requires 1 <= c.year && 1 <= c.month <= 12
    ensures 0 <= MonthNumber(c) && CivilMonth(MonthNumber(c)) == (c.year, c.month)
  {
  }

  lemma NextDayPosition(c: Civil, day: nat)
    requires 1 <= c.year && 1 <= c.month <= 12 && 1 <= c.day <= MonthLength(c.year, c.month)
    requires 0 <= MonthNumber(c) && CivilMonth(MonthNumber(c)) == (c.year, c.month)
    requires day == MonthStart(MonthNumber(c)) + c.day - 1
    ensures 0 <= MonthNumber(NextDay(c)) && day + 1 == MonthStart(MonthNumber(NextDay(c))) + NextDay(c).day - 1
  {
    hide Leap, MonthLength, CivilMonth;
    var m := MonthNumber(c);
    assert MonthStart(m + 1) == MonthStart(m) + MonthLength(CivilMonth(m).0, CivilMonth(m).1);
  }

  /** Counting days and adding up months describe the same calendar. */
  lemma {:induction false} CivilPosition(day: nat)
    ensures MonthNumber(CivilOf(day)) >= 0
    ensures CivilMonth(MonthNumber(CivilOf(day))) == (CivilOf(day).year, CivilOf(day).month)
    ensures day == MonthStart(MonthNumber(CivilOf(day))) + CivilOf(day).day - 1
  {
    hide Leap, MonthLength, NextDay, CivilMonth;
    CivilMonthOf(CivilOf(day));
    if day == 0 {
    } else {
      CivilPosition(day - 1);
      NextDayPosition(CivilOf(day - 1), day - 1);
    }
  }

  lemma {:induction false} MonthStartMonotone(m: nat, n: nat)
    requires m < n
    ensures MonthStart(m) + 28 <= MonthStart(n)
    ensures MonthStart(m + 1) <= MonthStart(n)
    decreases n
  {
    if m + 1 == n {
    } else {
      MonthStartMonotone(m, n - 1);
    }
  }

  /** A day lies in month `m` exactly when it lies between two month starts. */
  lemma MonthCut(day: nat, m: nat)
    ensures MonthStart(m) <= day <==> m <= MonthNumber(CivilOf(day))
  {
    CivilPosition(day);
    var n := MonthNumber(CivilOf(day));
    assert MonthStart(n) <= day < MonthStart(n + 1);
    if m < n {
      MonthStartMonotone(m, n);
    } else if n < m {
      MonthStartMonotone(n, m);
    }
  }

  lemma MonthSpan(day: nat, m: nat)
    ensures MonthStart(m) <= day < MonthStart(m + 1) <==> MonthNumber(CivilOf(day)) == m
  {
    MonthCut(day, m);
    MonthCut(day, m + 1);
  }

  /** Comparing civil dates field by field compares their day numbers. */
  lemma CivilOrder(a: nat, b: nat)
    ensures a <= b <==>
      MonthNumber(CivilOf(a)) < MonthNumber(CivilOf(b))
      || (MonthNumber(CivilOf(a)) == MonthNumber(CivilOf(b)) && CivilOf(a).day <= CivilOf(b).day)
  {
    CivilPosition(a);
    CivilPosition(b);
    MonthCut(a, MonthNumber(CivilOf(b)));
    MonthCut(b, MonthNumber(CivilOf(a)));
  }
}
