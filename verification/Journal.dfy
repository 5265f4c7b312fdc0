/** The journal streak: consecutive London days with an entry, ending today. */
module Journal {
  import opened Calendar

  const LOOKBACK_DAYS := 90

  function Cutoff(now: int): int {
    now - DAY * LOOKBACK_DAYS
  }

  predicate Descending(ts: seq<int>) {
    forall i, j | 0 <= i < j < |ts| :: ts[i] >= ts[j]
  }

  predicate StrictlyDescending(days: seq<int>) {
    forall i, j | 0 <= i < j < |days| :: days[i] > days[j]
  }

  /** Some entry of the look-back window falls on London day `day`. */
  predicate HasEntry(z: Zone, timestamps: seq<int>, day: int) {
    exists i | 0 <= i < |timestamps| :: LondonDay(z, timestamps[i]) == day
  }

  /** Each of the `n` London days that end with `today` has an entry. */
  ghost predicate Covers(z: Zone, timestamps: seq<int>, today: int, n: nat) {
    forall day | today - n < day <= today :: HasEntry(z, timestamps, day)
  }

  /** One London date per entry day, newest first. */
  method DistinctDays(z: Zone, timestamps: seq<int>) returns (dates: seq<int>)
    requires Descending(timestamps)
    ensures StrictlyDescending(dates)
    ensures forall day :: day in dates <==> HasEntry(z, timestamps, day)
  {
    hide LondonDay;
    var seen: set<int> := {};
    dates := [];
    for n := 0 to |timestamps|
      invariant StrictlyDescending(dates)
      invariant forall day :: day in seen <==> day in dates
      invariant forall day :: day in dates <==> HasEntry(z, timestamps[..n], day)
      invariant n == 0 ==> dates == []
      invariant 0 < n ==> dates != [] && dates[|dates| - 1] == LondonDay(z, timestamps[n - 1])
    {
      var d := LondonDay(z, timestamps[n]);
      if 0 < n {
        LondonDayMonotone(z, timestamps[n], timestamps[n - 1]);
      }
      assert timestamps[..n + 1] == timestamps[..n] + [timestamps[n]];
      forall day ensures HasEntry(z, timestamps[..n + 1], day) <==> HasEntry(z, timestamps[..n], day) || day == d {
        HasEntrySnoc(z, timestamps[..n], timestamps[n], day);
      }
      if d !in seen {
        assert dates != [] ==> dates[|dates| - 1] in dates && d < dates[|dates| - 1];
        seen := seen + {d};
        dates := dates + [d];
      } else {
        assert 0 < n;
        var i :| 0 <= i < |dates| && dates[i] == d;
        assert dates[|dates| - 1] == d;
      }
    }
    assert timestamps[..|timestamps|] == timestamps;
  }

  lemma HasEntrySnoc(z: Zone, ts: seq<int>, t: int, day: int)
    ensures HasEntry(z, ts + [t], day) <==> HasEntry(z, ts, day) || day == LondonDay(z, t)
  {
    if HasEntry(z, ts, day) {
      var i :| 0 <= i < |ts| && LondonDay(z, ts[i]) == day;
      assert (ts + [t])[i] == ts[i];
    }
    assert (ts + [t])[|ts|] == t;
  }

  /**
   The streak is the largest number of days, ending today, that all have an entry in the window.
   A window that reaches past today (an entry stamped later than the clock) gives 0.
   */
  method CurrentStreakDays(z: Zone, timestamps: seq<int>, now: int) returns (streak: nat)
    requires Descending(timestamps)
    ensures timestamps != [] && LondonDay(z, timestamps[0]) > LondonDay(z, now) ==> streak == 0
    ensures timestamps == [] || LondonDay(z, timestamps[0]) <= LondonDay(z, now) ==>
      && Covers(z, timestamps, LondonDay(z, now), streak)
      && !Covers(z, timestamps, LondonDay(z, now), streak + 1)
  {
    var today := LondonDay(z, now);
    if timestamps == [] {
      assert !HasEntry(z, timestamps, today);
      return 0;
    }
    var dates := DistinctDays(z, timestamps);
    assert HasEntry(z, timestamps, LondonDay(z, timestamps[0]));
    if dates[0] != today {
      FirstDay(z, timestamps, dates, today);
      return 0;
    }
    FirstDay(z, timestamps, dates, today);
    streak := 1;
    while streak < |dates| && dates[streak - 1] - dates[streak] == 1
      invariant 1 <= streak <= |dates|
      invariant forall i | 0 <= i < streak :: dates[i] == today - i
    {
      streak := streak + 1;
    }
    forall day | today - streak < day <= today
      ensures HasEntry(z, timestamps, day)
    {
      assert dates[today - day] == day;
    }
    assert today - streak !in dates;
  }

  lemma FirstDay(z: Zone, timestamps: seq<int>, dates: seq<int>, today: int)
    requires Descending(timestamps) && timestamps != []
    requires StrictlyDescending(dates) && dates != []
    requires forall day :: day in dates <==> HasEntry(z, timestamps, day)
    ensures dates[0] == LondonDay(z, timestamps[0])
    ensures dates[0] < today ==> !HasEntry(z, timestamps, today)
  {
    assert HasEntry(z, timestamps, LondonDay(z, timestamps[0])) && dates[0] in dates;
    var i :| 0 <= i < |timestamps| && LondonDay(z, timestamps[i]) == dates[0];
    LondonDayMonotone(z, timestamps[i], timestamps[0]);
  }

  /**
   A window of 90 times 24 hours touches at most 92 London days, so no streak is longer; the
   result is not cut off at 90.
   */
  lemma StreakBound(z: Zone, timestamps: seq<int>, now: int, streak: nat)
    requires forall i | 0 <= i < |timestamps| :: Cutoff(now) <= timestamps[i]
    requires Covers(z, timestamps, LondonDay(z, now), streak)
    ensures streak <= 92
  {
    if 92 < streak {
      var day := LondonDay(z, now) - 92;
      assert HasEntry(z, timestamps, day);
      var i :| 0 <= i < |timestamps| && LondonDay(z, timestamps[i]) == day;
      LondonDayMonotone(z, Cutoff(now), timestamps[i]);
      WindowDays(z, now);
    }
  }

  lemma WindowDays(z: Zone, now: int)
    ensures LondonDay(z, now) <= LondonDay(z, Cutoff(now)) + 91
  {
    assert Local(z, now) <= Local(z, Cutoff(now)) + DAY * 90 + HOUR;
    DivCut(Local(z, now), LondonDay(z, now));
    DivCut(Local(z, Cutoff(now)), LondonDay(z, now) - 91);
  }

  /** 92 is reached: just past midnight by summer time, with the window opening in winter time. */
  lemma StreakBoundIsTight()
    ensures exists z: Zone, timestamps, now ::
      && Descending(timestamps)
      && (forall i | 0 <= i < |timestamps| :: Cutoff(now) <= timestamps[i] <= now)
      && Covers(z, timestamps, LondonDay(z, now), 92)
  {
    // The clock reads 00:30 summer time on day 191, and the window opens at 23:30 on day 100.
    var now := DAY * 191 - HOUR / 2;
    var z: Zone := k => k == (now - CHANGE) / WEEK;
    var timestamps := seq(92, i requires 0 <= i < 92 =>
      if i == 0 then now else if i < 91 then DAY * (191 - i) + 12 * HOUR else Cutoff(now));
    assert Offset(z, now) == HOUR && Offset(z, Cutoff(now)) == 0;
    assert Cutoff(now) == DAY * 101 - HOUR / 2;
    forall day | 191 - 92 < day <= 191
      ensures HasEntry(z, timestamps, day)
    {
      assert LondonDay(z, timestamps[191 - day]) == day;
    }
    assert Covers(z, timestamps, LondonDay(z, now), 92);
  }
}
