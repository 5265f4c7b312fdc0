/** The goddess's weekly totals and the list of payments behind one week. */
module Weeks {
  import opened Calendar
  import opened Sums
  import opened Wrappers

  datatype Payment = Payment(goddess: int, validated: bool, validatedAt: Option<int>, amount: int)
  datatype Bucket = Bucket(weekStart: int, weekEnd: int, total: int, count: nat)

  const SECOND := 1_000_000

  function WeekBounds(z: Zone, weekStart: int): (int, int) {
    (ToUtc(z, DAY * weekStart, false), ToUtc(z, DAY * (weekStart + 7) - 1, false))
  }

  predicate InWeek(z: Zone, weekStart: int, t: int) {
    WeekBounds(z, weekStart).0 <= t <= WeekBounds(z, weekStart).1
  }

  lemma MondayCut(day: int, monday: int)
    requires monday % 7 == 0
    ensures monday <= day <= monday + 6 <==> monday == Monday(day)
  {
  }

  /** Every instant is in the bounds of the week of its London Monday and of no other Monday. */
  lemma WeeksTile(z: Zone, monday: int, t: int)
    requires monday % 7 == 0
    ensures InWeek(z, monday, t) <==> monday == Monday(LondonDay(z, t))
  {
    DayCut(z, t, monday, false);
    DayCut(z, t, monday + 6, false);
    MondayCut(LondonDay(z, t), monday);
  }

  predicate Selected(p: Payment, goddess: int, lo: int, hi: int) {
    p.goddess == goddess && p.validated && p.validatedAt.Some? && lo <= p.validatedAt.value <= hi
  }

  function Filter(ps: seq<Payment>, keep: Payment -> bool): (r: seq<Payment>) {
    if ps == [] then []
    else Filter(ps[..|ps| - 1], keep) + if keep(ps[|ps| - 1]) then [ps[|ps| - 1]] else []
  }

  function Total(ps: seq<Payment>): int {
    if ps == [] then 0 else Total(ps[..|ps| - 1]) + ps[|ps| - 1].amount
  }

  lemma {:induction false} FilterAgree(ps: seq<Payment>, f: Payment -> bool, g: Payment -> bool)
    requires forall p | p in ps :: f(p) == g(p)
    ensures Filter(ps, f) == Filter(ps, g)
  {
    if ps == [] {
    } else {
      FilterAgree(ps[..|ps| - 1], f, g);
    }
  }

  lemma FilterSnoc(ps: seq<Payment>, p: Payment, keep: Payment -> bool)
    ensures Filter(ps + [p], keep) == Filter(ps, keep) + if keep(p) then [p] else []
  {
    assert (ps + [p])[..|ps|] == ps;
  }

  lemma TotalSnoc(ps: seq<Payment>, p: Payment)
    ensures Total(ps + [p]) == Total(ps) + p.amount
  {
    assert (ps + [p])[..|ps|] == ps;
  }

  lemma TallySnoc(ps: seq<Payment>, p: Payment, keep: Payment -> bool)
    ensures Total(Filter(ps + [p], keep)) == Total(Filter(ps, keep)) + if keep(p) then p.amount else 0
    ensures |Filter(ps + [p], keep)| == |Filter(ps, keep)| + if keep(p) then 1 else 0
  {
    var rows := Filter(ps, keep);
    FilterSnoc(ps, p, keep);
    TotalSnoc(rows, p);
    assert rows + [] == rows;
  }

  lemma FilterOne(p: Payment, keep: Payment -> bool)
    ensures Filter([p], keep) == if keep(p) then [p] else []
  {
    assert [p][..0] == [];
  }

  function WeekStarts(z: Zone, now: int): (starts: seq<int>) {
    seq(8, i => Monday(LondonDay(z, now)) - 7 * i)
  }

  datatype Window = Window(start: int, end: int)

  /**
   The aggregate's window: midnight on the oldest Monday to 23:59:59 on the last Sunday, taken
   as UTC without converting from London time.
   */
  function QueryWindow(z: Zone, now: int): Window {
    Window(DAY * WeekStarts(z, now)[7], DAY * (WeekStarts(z, now)[0] + 7) - SECOND)
  }

  predicate InBucket(z: Zone, w: Window, goddess: int, monday: int, p: Payment) {
    Selected(p, goddess, w.start, w.end) && Monday(LondonDay(z, p.validatedAt.value)) == monday
  }

  predicate InDrillDown(z: Zone, goddess: int, weekStart: int, p: Payment) {
    Selected(p, goddess, WeekBounds(z, weekStart).0, WeekBounds(z, weekStart).1)
  }

  function BucketRows(z: Zone, table: seq<Payment>, goddess: int, w: Window, monday: int): seq<Payment> {
    Filter(table, p => InBucket(z, w, goddess, monday, p))
  }

  /** The payments listed for one week. */
  function WeekPayments(z: Zone, table: seq<Payment>, goddess: int, weekStart: int): seq<Payment> {
    Filter(table, p => InDrillDown(z, goddess, weekStart, p))
  }

  function Tally(rows: seq<Payment>): (int, nat) {
    (Total(rows), |rows|)
  }

  /** What one more row does to one bucket. */
  lemma BucketStep(z: Zone, table: seq<Payment>, p: Payment, goddess: int, w: Window, monday: int)
    ensures
      var before := Tally(BucketRows(z, table, goddess, w, monday));
      Tally(BucketRows(z, table + [p], goddess, w, monday)) ==
      if InBucket(z, w, goddess, monday, p) then (before.0 + p.amount, before.1 + 1) else before
  {
    TallySnoc(table, p, q => InBucket(z, w, goddess, monday, q));
  }

  ghost predicate BucketsHold(z: Zone, table: seq<Payment>, goddess: int, w: Window, starts: seq<int>,
        buckets: map<int, (int, nat)>)
  {
    && (forall monday :: monday in buckets <==> monday in starts)
    && forall monday | monday in buckets :: buckets[monday] == Tally(BucketRows(z, table, goddess, w, monday))
  }

  lemma NoRows(z: Zone, table: seq<Payment>, goddess: int, w: Window, starts: seq<int>)
    ensures BucketsHold(z, table[..0], goddess, w, starts, map monday | monday in starts :: (0, 0))
  {
  }

  // Adding one row to the bucket of its own week, if it has one, is right for every bucket.
  lemma BucketsNext(z: Zone, table: seq<Payment>, n: nat, goddess: int, w: Window, starts: seq<int>,
        buckets: map<int, (int, nat)>, after: map<int, (int, nat)>)
    requires n < |table| && BucketsHold(z, table[..n], goddess, w, starts, buckets)
    requires after.Keys == buckets.Keys
    requires forall monday | monday in buckets ::
      after[monday] == if InBucket(z, w, goddess, monday, table[n]) then (buckets[monday].0 + table[n].amount, buckets[monday].1 + 1) else buckets[monday]
    ensures BucketsHold(z, table[..n + 1], goddess, w, starts, after)
  {
    hide InBucket, BucketRows, Tally;
    assert table[..n + 1] == table[..n] + [table[n]];
    forall monday | monday in after
      ensures after[monday] == Tally(BucketRows(z, table[..n + 1], goddess, w, monday))
    {
      BucketStep(z, table[..n], table[n], goddess, w, monday);
    }
  }

  /** One pass over the selected rows, adding each to its week's bucket. */
  method FillBuckets(z: Zone, table: seq<Payment>, goddess: int, w: Window, starts: seq<int>)
    returns (buckets: map<int, (int, nat)>)
    ensures BucketsHold(z, table, goddess, w, starts, buckets)
  {
    hide BucketsHold, LondonDay;
    buckets := map monday | monday in starts :: (0, 0);
    NoRows(z, table, goddess, w, starts);
    var n := 0;
    while n < |table|
      invariant n <= |table|
      invariant BucketsHold(z, table[..n], goddess, w, starts, buckets)
    {
      var p := table[n];
      ghost var before := buckets;
      if Selected(p, goddess, w.start, w.end) {
        var monday := Monday(LondonDay(z, p.validatedAt.value));
        if monday in buckets {
          buckets := buckets[monday := (buckets[monday].0 + p.amount, buckets[monday].1 + 1)];
        }
      }
      assert buckets.Keys == before.Keys;
      BucketsNext(z, table, n, goddess, w, starts, before, buckets);
      n := n + 1;
    }
    assert table[..n] == table;
  }

  /** The aggregate, newest week first. */
  method WeeklyPaymentBuckets(z: Zone, table: seq<Payment>, goddess: int, now: int) returns (r: seq<Bucket>)
    ensures |r| == 8
    ensures forall i :: 0 <= i < 8 ==>
      var monday := WeekStarts(z, now)[i];
      var rows := BucketRows(z, table, goddess, QueryWindow(z, now), monday);
      r[i] == Bucket(monday, monday + 6, Total(rows), |rows|)
  {
    var starts := WeekStarts(z, now);
    var buckets := FillBuckets(z, table, goddess, QueryWindow(z, now), starts);
    r := seq(8, i requires 0 <= i < 8 && starts[i] in buckets =>
      Bucket(starts[i], starts[i] + 6, buckets[starts[i]].0, buckets[starts[i]].1));
  }

  /** The bucket of a week and the list behind it give the same total and the same count. */
  ghost predicate Reconciles(z: Zone, table: seq<Payment>, goddess: int, w: Window, monday: int) {
    Tally(BucketRows(z, table, goddess, w, monday)) == Tally(WeekPayments(z, table, goddess, monday))
  }

  /** They do whenever every payment of the week is inside the aggregate's window. */
  lemma ReconcilesInsideWindow(z: Zone, table: seq<Payment>, goddess: int, w: Window, monday: int)
    requires monday % 7 == 0
    requires forall p | p in table && InDrillDown(z, goddess, monday, p) :: w.start <= p.validatedAt.value <= w.end
    ensures Reconciles(z, table, goddess, w, monday)
  {
    forall p | p in table
      ensures InBucket(z, w, goddess, monday, p) == InDrillDown(z, goddess, monday, p)
    {
      if p.validatedAt.Some? {
        WeeksTile(z, monday, p.validatedAt.value);
      }
    }
    FilterAgree(table, p => InBucket(z, w, goddess, monday, p), p => InDrillDown(z, goddess, monday, p));
  }

  /** The six weeks strictly between the oldest and the current one always reconcile. */
  lemma MiddleWeeksReconcile(z: Zone, table: seq<Payment>, goddess: int, now: int, i: int)
    requires 1 <= i <= 6
    ensures Reconciles(z, table, goddess, QueryWindow(z, now), WeekStarts(z, now)[i])
  {
    ReconcilesInsideWindow(z, table, goddess, QueryWindow(z, now), WeekStarts(z, now)[i]);
  }

  /** A payment in the week but outside the window is listed and not counted. */
  lemma OutsideWindowBreaks(z: Zone, goddess: int, w: Window, monday: int, t: int)
    requires InWeek(z, monday, t)
    requires !(w.start <= t <= w.end)
    ensures !Reconciles(z, [Payment(goddess, true, Some(t), 1)], goddess, w, monday)
  {
    var p := Payment(goddess, true, Some(t), 1);
    FilterOne(p, q => InDrillDown(z, goddess, monday, q));
    FilterOne(p, q => InBucket(z, w, goddess, monday, q));
  }

  // The week is inside the window if it starts at UTC midnight; otherwise its first instant is not.
  lemma OldestWeekWindow(z: Zone, now: int)
    ensures
      var monday, w := WeekStarts(z, now)[7], QueryWindow(z, now);
      && monday % 7 == 0 && InWeek(z, monday, WeekBounds(z, monday).0)
      && (WeekBounds(z, monday).0 == DAY * monday ==> forall t | InWeek(z, monday, t) :: w.start <= t <= w.end)
      && (WeekBounds(z, monday).0 != DAY * monday ==> WeekBounds(z, monday).0 < w.start)
  {
    hide LondonDay, ToUtc;
    var monday := WeekStarts(z, now)[7];
    UtcNear(z, DAY * monday);
    UtcNear(z, DAY * (monday + 7) - 1);
  }

  lemma UtcNear(z: Zone, wall: int)
    ensures ToUtc(z, wall, false) in {wall, wall - HOUR}
  {
  }

  /** The oldest week reconciles for every payment table exactly when it starts in winter time. */
  lemma OldestWeekReconcilesIff(z: Zone, goddess: int, now: int)
    ensures (forall table :: Reconciles(z, table, goddess, QueryWindow(z, now), WeekStarts(z, now)[7]))
      <==> WeekBounds(z, WeekStarts(z, now)[7]).0 == DAY * WeekStarts(z, now)[7]
  {
    hide Reconciles, WeekBounds, QueryWindow, LondonDay, ToUtc;
    var monday := WeekStarts(z, now)[7];
    var start := WeekBounds(z, monday).0;
    OldestWeekWindow(z, now);
    if start == DAY * monday {
      forall table ensures Reconciles(z, table, goddess, QueryWindow(z, now), monday) {
        assert forall p | p in table && InDrillDown(z, goddess, monday, p) :: InWeek(z, monday, p.validatedAt.value);
        ReconcilesInsideWindow(z, table, goddess, QueryWindow(z, now), monday);
      }
    } else {
      OutsideWindowBreaks(z, goddess, QueryWindow(z, now), monday, start);
    }
  }

  predicate NothingAfter(table: seq<Payment>, now: int) {
    forall p | p in table && p.validatedAt.Some? :: p.validatedAt.value <= now
  }

  /**
   The current week reconciles, for every table that holds nothing later than `now`, exactly
   until the window closes.  It closes a second before the end of the week by UTC, so a London
   week in winter time has a last second that is listed and not counted.
   */
  lemma CurrentWeekReconcilesIff(z: Zone, goddess: int, now: int)
    ensures (forall table | NothingAfter(table, now) :: Reconciles(z, table, goddess, QueryWindow(z, now), WeekStarts(z, now)[0]))
      <==> now <= QueryWindow(z, now).end
  {
    var monday := WeekStarts(z, now)[0];
    WeeksTile(z, monday, now);
    if now <= QueryWindow(z, now).end {
      forall table | NothingAfter(table, now)
        ensures Reconciles(z, table, goddess, QueryWindow(z, now), monday)
      {
        ReconcilesInsideWindow(z, table, goddess, QueryWindow(z, now), monday);
      }
    } else {
      OutsideWindowBreaks(z, goddess, QueryWindow(z, now), monday, now);
    }
  }

  /** Summer time for three weeks: the payment made in the first hour of the oldest week is listed and not counted. */
  lemma OldestWeekMissesAnHour(goddess: int)
    ensures
      var z: Zone := k => k < 3;
      var now := DAY * 56 + 12 * HOUR;
      WeekStarts(z, now)[7] == 7
      && !Reconciles(z, [Payment(goddess, true, Some(DAY * 7 - HOUR), 1)], goddess, QueryWindow(z, now), 7)
  {
    var z: Zone := k => k < 3;
    var now := DAY * 56 + 12 * HOUR;
    assert LondonDay(z, now) == 56;
    assert ToUtc(z, DAY * 7, false) == DAY * 7 - HOUR;
    OutsideWindowBreaks(z, goddess, QueryWindow(z, now), 7, DAY * 7 - HOUR);
  }

  /** Winter time, the last microsecond of the week: a payment just made is listed and not counted. */
  lemma CurrentWeekMissesASecond(goddess: int)
    ensures
      var z: Zone := _ => false;
      var now, table := DAY * 7 - 1, [Payment(goddess, true, Some(DAY * 7 - 1), 1)];
      WeekStarts(z, now)[0] == 0 && NothingAfter(table, now) && !Reconciles(z, table, goddess, QueryWindow(z, now), 0)
  {
    var z: Zone := _ => false;
    var now := DAY * 7 - 1;
    assert LondonDay(z, now) == 6;
    OutsideWindowBreaks(z, goddess, QueryWindow(z, now), 0, now);
  }

  // ---------------------------------------------------------------- which payments are shown

  lemma {:induction false} FilterCounts(ps: seq<Payment>, keep: Payment -> bool, p: Payment)
    ensures multiset(Filter(ps, keep))[p] == if keep(p) then multiset(ps)[p] else 0
  {
    if ps == [] {
    } else {
      FilterCounts(ps[..|ps| - 1], keep, p);
      assert ps == ps[..|ps| - 1] + [ps[|ps| - 1]];
    }
  }

  /**
   The list of a week shows each payment as often as the table holds it if it is of the goddess,
   validated, and validated on a London day of that week; and no other payment.
   */
  lemma WeekListIs(z: Zone, table: seq<Payment>, goddess: int, monday: int, p: Payment)
    requires monday % 7 == 0
    ensures multiset(WeekPayments(z, table, goddess, monday))[p] ==
      if p.goddess == goddess && p.validated && p.validatedAt.Some? && monday <= LondonDay(z, p.validatedAt.value) < monday + 7
      then multiset(table)[p] else 0
  {
    hide LondonDay, Filter, WeekBounds;
    FilterCounts(table, q => InDrillDown(z, goddess, monday, q), p);
    if p.validatedAt.Some? {
      WeeksTile(z, monday, p.validatedAt.value);
      MondayCut(LondonDay(z, p.validatedAt.value), monday);
    }
  }

  /** The bucket of a week counts the same payments, as far as they were validated inside the aggregate's window. */
  lemma BucketIs(z: Zone, table: seq<Payment>, goddess: int, now: int, i: int, p: Payment)
    requires 0 <= i < 8
    ensures
      var monday := WeekStarts(z, now)[i];
      multiset(BucketRows(z, table, goddess, QueryWindow(z, now), monday))[p] ==
        if p.goddess == goddess && p.validated && p.validatedAt.Some? && monday <= LondonDay(z, p.validatedAt.value) < monday + 7
           && DAY * (Monday(LondonDay(z, now)) - 49) <= p.validatedAt.value <= DAY * (Monday(LondonDay(z, now)) + 7) - SECOND
        then multiset(table)[p] else 0
  {
    hide LondonDay, Filter;
    var monday := WeekStarts(z, now)[i];
    FilterCounts(table, q => InBucket(z, QueryWindow(z, now), goddess, monday, q), p);
    if p.validatedAt.Some? {
      MondayCut(LondonDay(z, p.validatedAt.value), monday);
    }
  }

  /** The eight weeks are the current one and the seven before it. */
  lemma EightWeeks(z: Zone, now: int, i: int)
    requires 0 <= i < 8
    ensures WeekStarts(z, now)[i] % 7 == 0 && InWeek(z, WeekStarts(z, now)[0], now)
    ensures WeekStarts(z, now)[i] == WeekStarts(z, now)[0] - 7 * i
  {
    hide LondonDay;
    WeeksTile(z, WeekStarts(z, now)[0], now);
  }

  /** A payment that is not validated, or another goddess's, changes no list and no bucket. */
  lemma OthersInvisible(z: Zone, table: seq<Payment>, goddess: int, w: Window, monday: int, p: Payment)
    requires !p.validated || p.goddess != goddess || p.validatedAt.None?
    ensures WeekPayments(z, table + [p], goddess, monday) == WeekPayments(z, table, goddess, monday)
    ensures BucketRows(z, table + [p], goddess, w, monday) == BucketRows(z, table, goddess, w, monday)
  {
    FilterSnoc(table, p, q => InDrillDown(z, goddess, monday, q));
    FilterSnoc(table, p, q => InBucket(z, w, goddess, monday, q));
  }

  lemma {:induction false} TotalIsSum(ps: seq<Payment>)
    ensures Total(ps) == Sum(seq(|ps|, i requires 0 <= i < |ps| => ps[i].amount))
  {
    var amounts := seq(|ps|, i requires 0 <= i < |ps| => ps[i].amount);
    if ps == [] {
    } else {
      var init := ps[..|ps| - 1];
      TotalIsSum(init);
      assert amounts[..|init|] == seq(|init|, i requires 0 <= i < |init| => init[i].amount);
    }
  }
}
