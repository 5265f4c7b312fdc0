/** The surfaces that say which contracts are late, and the bulk penalty fired from them. */
module LatePenalty {
  import opened Calendar
  import opened Cron
  import opened Ledger
  import opened Periods
  import opened Wrappers

  // ---------------------------------------------------------------- what late means

  predicate PastPeriodStart(z: Zone, t: Terms, now: nat) {
    t.signedAt.Some? && 0 < DaysIntoPeriod(z, t.signedAt.value, t.frequency, now)
  }

  /** Past the start of the current period, and no payment row carries that period. */
  predicate IsLate(z: Zone, log: seq<Event>, contract: int, t: Terms, now: nat) {
    PastPeriodStart(z, t, now) && !ExistsForPeriod(log, contract, IndexAt(z, t, now), PaymentApplied)
  }

  datatype Verdict = Unknown | NotLate | Already | Applied

  /** What the bulk penalty does with one contract id. */
  function Judge(z: Zone, log: seq<Event>, terms: map<int, Terms>, active: set<int>, goddess: int, c: int, now: nat): Verdict {
    if c !in terms || terms[c].goddess != goddess || c !in active || terms[c].signedAt.None? then Unknown
    else if !IsLate(z, log, c, terms[c], now) then NotLate
    else if ExistsForPeriod(log, c, IndexAt(z, terms[c], now), LatePenalty) then Already
    else Applied
  }

  // ---------------------------------------------------------------- the bulk penalty

  /** The distinct ids a predicate picks, in order of first appearance. */
  function Picked(ids: seq<int>, pick: int -> bool): seq<int> {
    if ids == [] then []
    else
      var init, last := ids[..|ids| - 1], ids[|ids| - 1];
      Picked(init, pick) + if last !in init && pick(last) then [last] else []
  }

  function Judged(z: Zone, log: seq<Event>, terms: map<int, Terms>, active: set<int>, goddess: int, ids: seq<int>,
        now: nat, v: Verdict): seq<int>
  {
    Picked(ids, c => Judge(z, log, terms, active, goddess, c, now) == v)
  }

  function BulkEvent(z: Zone, terms: map<int, Terms>, c: int, now: nat): Event {
    if c in terms then PenaltyEvent(c, terms[c], IndexAt(z, terms[c], now), now)
    else Event(c, LatePenalty, 0, None, now)
  }

  function BulkEvents(z: Zone, terms: map<int, Terms>, ids: seq<int>, now: nat): seq<Event> {
    seq(|ids|, i requires 0 <= i < |ids| => BulkEvent(z, terms, ids[i], now))
  }

  /** The log after a bulk penalty. */
  function BulkLog(z: Zone, log: seq<Event>, terms: map<int, Terms>, active: set<int>, goddess: int, ids: seq<int>, now: nat): seq<Event> {
    log + BulkEvents(z, terms, Judged(z, log, terms, active, goddess, ids, now, Applied), now)
  }

  datatype BulkSummary = BulkSummary(applied: nat, alreadyPenalised: nat, notLate: nat, notFound: nat, appliedIds: seq<int>)

  function Summarise(z: Zone, log: seq<Event>, terms: map<int, Terms>, active: set<int>, goddess: int, ids: seq<int>, now: nat): BulkSummary {
    BulkSummary(
      |Judged(z, log, terms, active, goddess, ids, now, Applied)|,
      |Judged(z, log, terms, active, goddess, ids, now, Already)|,
      |Judged(z, log, terms, active, goddess, ids, now, NotLate)|,
      |Judged(z, log, terms, active, goddess, ids, now, Unknown)|,
      Judged(z, log, terms, active, goddess, ids, now, Applied))
  }

  /** A verdict depends on no event of another contract. */
  lemma {:induction false} VerdictIsLocal(z: Zone, log: seq<Event>, events: seq<Event>, terms: map<int, Terms>, active: set<int>,
        goddess: int, c: int, now: nat)
    requires forall i | 0 <= i < |events| :: events[i].contract != c
    ensures Judge(z, log + events, terms, active, goddess, c, now) == Judge(z, log, terms, active, goddess, c, now)
  {
    if events == [] {
      assert log + events == log;
    } else {
      var init, e := events[..|events| - 1], events[|events| - 1];
      VerdictIsLocal(z, log, init, terms, active, goddess, c, now);
      assert log + events == (log + init) + [e];
      if c in terms {
        ExistsSnoc(log + init, e, c, IndexAt(z, terms[c], now), PaymentApplied);
        ExistsSnoc(log + init, e, c, IndexAt(z, terms[c], now), LatePenalty);
      }
    }
  }

  lemma {:induction false} PickedFrom(ids: seq<int>, pick: int -> bool)
    ensures forall c :: c in Picked(ids, pick) <==> c in ids && pick(c)
  {
    if ids == [] {
    } else {
      PickedFrom(ids[..|ids| - 1], pick);
    }
  }

  lemma PickedSnoc(ids: seq<int>, c: int, pick: int -> bool)
    ensures Picked(ids + [c], pick) == if c !in ids && pick(c) then Picked(ids, pick) + [c] else Picked(ids, pick)
  {
    assert (ids + [c])[..|ids|] == ids;
    assert Picked(ids, pick) + [] == Picked(ids, pick);
  }

  /** One more id: nothing for a repeated one, otherwise one counter moves and perhaps the log. */
  lemma BulkSnoc(z: Zone, log: seq<Event>, terms: map<int, Terms>, active: set<int>, goddess: int, ids: seq<int>, c: int, now: nat)
    ensures
      var before, after := Summarise(z, log, terms, active, goddess, ids, now), Summarise(z, log, terms, active, goddess, ids + [c], now);
      var logBefore, logAfter := BulkLog(z, log, terms, active, goddess, ids, now), BulkLog(z, log, terms, active, goddess, ids + [c], now);
      if c in ids then after == before && logAfter == logBefore
      else match Judge(z, logBefore, terms, active, goddess, c, now)
        case Unknown => after == before.(notFound := before.notFound + 1) && logAfter == logBefore
        case NotLate => after == before.(notLate := before.notLate + 1) && logAfter == logBefore
        case Already => after == before.(alreadyPenalised := before.alreadyPenalised + 1) && logAfter == logBefore
        case Applied =>
          && after == before.(applied := before.applied + 1, appliedIds := before.appliedIds + [c])
          && logAfter == logBefore + [BulkEvent(z, terms, c, now)]
  {
    hide Judge, Judged, BulkEvent;
    JudgedSnoc(z, log, terms, active, goddess, ids, c, now, Unknown);
    JudgedSnoc(z, log, terms, active, goddess, ids, c, now, NotLate);
    JudgedSnoc(z, log, terms, active, goddess, ids, c, now, Already);
    JudgedSnoc(z, log, terms, active, goddess, ids, c, now, Applied);
    if c !in ids {
      VerdictDuringBulk(z, log, terms, active, goddess, ids, c, now);
      var applied := Judged(z, log, terms, active, goddess, ids, now, Applied);
      assert BulkEvents(z, terms, applied + [c], now) == BulkEvents(z, terms, applied, now) + [BulkEvent(z, terms, c, now)];
    }
  }

  lemma JudgedSnoc(z: Zone, log: seq<Event>, terms: map<int, Terms>, active: set<int>, goddess: int, ids: seq<int>, c: int, now: nat, v: Verdict)
    ensures Judged(z, log, terms, active, goddess, ids + [c], now, v)
      == Judged(z, log, terms, active, goddess, ids, now, v)
       + if c !in ids && Judge(z, log, terms, active, goddess, c, now) == v then [c] else []
  {
    hide Judge;
    PickedSnoc(ids, c, d => Judge(z, log, terms, active, goddess, d, now) == v);
  }

  lemma VerdictDuringBulk(z: Zone, log: seq<Event>, terms: map<int, Terms>, active: set<int>, goddess: int, ids: seq<int>, c: int, now: nat)
    requires c !in ids
    ensures Judge(z, BulkLog(z, log, terms, active, goddess, ids, now), terms, active, goddess, c, now)
      == Judge(z, log, terms, active, goddess, c, now)
  {
    hide Judge;
    var applied := Judged(z, log, terms, active, goddess, ids, now, Applied);
    PickedFrom(ids, d => Judge(z, log, terms, active, goddess, d, now) == Applied);
    var events := BulkEvents(z, terms, applied, now);
    forall i | 0 <= i < |events| ensures events[i].contract != c {
      assert applied[i] in applied;
    }
    VerdictIsLocal(z, log, events, terms, active, goddess, c, now);
  }

  method BulkApply(ledger: LedgerTable, z: Zone, goddess: int, ids: seq<int>, now: nat) returns (r: BulkSummary)
    requires ledger.Valid()
    modifies ledger`log, ledger`balances
    ensures ledger.Valid()
    ensures r == Summarise(z, old(ledger.log), ledger.terms, ledger.active, goddess, ids, now)
    ensures ledger.log == BulkLog(z, old(ledger.log), ledger.terms, ledger.active, goddess, ids, now)
  {
    hide Summarise, BulkLog, Replay, ContractLog, UniqueKeys, DaysIntoPeriod, CurrentPeriodIndex;
    EmptyBulk(z, ledger.log, ledger.terms, ledger.active, goddess, now);
    var applied: nat, already: nat, notLate: nat, notFound: nat := 0, 0, 0, 0;
    var appliedIds: seq<int> := [];
    var seen: set<int> := {};
    var i := 0;
    while i < |ids|
      invariant i <= |ids| && ledger.Valid()
      invariant forall c :: c in seen <==> c in ids[..i]
      invariant BulkSummary(applied, already, notLate, notFound, appliedIds)
        == Summarise(z, old(ledger.log), ledger.terms, ledger.active, goddess, ids[..i], now)
      invariant ledger.log == BulkLog(z, old(ledger.log), ledger.terms, ledger.active, goddess, ids[..i], now)
    {
      var c := ids[i];
      BulkSnoc(z, old(ledger.log), ledger.terms, ledger.active, goddess, ids[..i], c, now);
      assert ids[..i + 1] == ids[..i] + [c];
      i := i + 1;
      if c in seen {
        continue;
      }
      seen := seen + {c};
      if c !in ledger.terms || ledger.terms[c].goddess != goddess || c !in ledger.active
         || ledger.terms[c].signedAt.None? {
        notFound := notFound + 1;
        continue;
      }
      var t := ledger.terms[c];
      if DaysIntoPeriod(z, t.signedAt.value, t.frequency, now) <= 0 {
        notLate := notLate + 1;
        continue;
      }
      var index := CurrentPeriodIndex(z, t.signedAt, t.frequency, now);
      if ExistsForPeriod(ledger.log, c, index, PaymentApplied) {
        notLate := notLate + 1;
        continue;
      }
      if ExistsForPeriod(ledger.log, c, index, LatePenalty) {
        already := already + 1;
        continue;
      }
      KeyFreeIsAbsent(ledger.log, PenaltyEvent(c, t, index, now));
      var inserted := ledger.Apply(PenaltyEvent(c, t, index, now));
      assert inserted;
      applied := applied + 1;
      appliedIds := appliedIds + [c];
    }
    assert ids[..i] == ids;
    r := BulkSummary(applied, already, notLate, notFound, appliedIds);
  }

  lemma EmptyBulk(z: Zone, log: seq<Event>, terms: map<int, Terms>, active: set<int>, goddess: int, now: nat)
    ensures Summarise(z, log, terms, active, goddess, [], now) == BulkSummary(0, 0, 0, 0, [])
    ensures BulkLog(z, log, terms, active, goddess, [], now) == log
  {
  }

  /** Every distinct id is counted once. */
  lemma {:induction false} CountersPartition(z: Zone, log: seq<Event>, terms: map<int, Terms>, active: set<int>, goddess: int, ids: seq<int>, now: nat)
    ensures var r := Summarise(z, log, terms, active, goddess, ids, now);
      r.applied + r.alreadyPenalised + r.notLate + r.notFound == |set c | c in ids|
  {
    if ids == [] {
      assert (set c | c in ids) == {};
    } else {
      var init, last := ids[..|ids| - 1], ids[|ids| - 1];
      assert ids == init + [last];
      CountersPartition(z, log, terms, active, goddess, init, now);
      BulkSnoc(z, log, terms, active, goddess, init, last, now);
      var before := set c | c in init;
      assert (set c | c in ids) == before + {last};
      if last in init {
        assert before + {last} == before;
      }
    }
  }

  /** An id that was penalised has its penalty in the log now; every other verdict stands. */
  lemma VerdictAfterBulk(z: Zone, log: seq<Event>, terms: map<int, Terms>, active: set<int>, goddess: int, ids: seq<int>, now: nat,
        c: int, later: nat)
    ensures
      var after := BulkLog(z, log, terms, active, goddess, ids, now);
      var was := Judge(z, log, terms, active, goddess, c, later);
      Judge(z, after, terms, active, goddess, c, later) ==
        if c in ids && Judge(z, log, terms, active, goddess, c, now) == Applied && was == Applied
          && IndexAt(z, terms[c], now) == IndexAt(z, terms[c], later)
        then Already else was
  {
    hide DaysIntoPeriod, IndexAt;
    var applied := Judged(z, log, terms, active, goddess, ids, now, Applied);
    PickedFrom(ids, d => Judge(z, log, terms, active, goddess, d, now) == Applied);
    if c in terms {
      ExistsInBulk(z, log, terms, applied, now, c, IndexAt(z, terms[c], later), PaymentApplied);
      ExistsInBulk(z, log, terms, applied, now, c, IndexAt(z, terms[c], later), LatePenalty);
    }
  }

  lemma ExistsInBulk(z: Zone, log: seq<Event>, terms: map<int, Terms>, applied: seq<int>, now: nat, c: int, period: int, kind: EventType)
    requires c in terms
    ensures ExistsForPeriod(log + BulkEvents(z, terms, applied, now), c, period, kind)
      <==> (ExistsForPeriod(log, c, period, kind)
        || (kind == LatePenalty && c in applied && IndexAt(z, terms[c], now) == period))
  {
    hide IndexAt;
    var events := BulkEvents(z, terms, applied, now);
    var all := log + events;
    if ExistsForPeriod(log, c, period, kind) {
      var i :| 0 <= i < |log| && log[i].contract == c && log[i].kind == kind && log[i].period == Some(period);
      assert all[i] == log[i];
    }
    if kind == LatePenalty && c in applied && IndexAt(z, terms[c], now) == period {
      var i :| 0 <= i < |applied| && applied[i] == c;
      assert all[|log| + i] == events[i];
    }
    if ExistsForPeriod(all, c, period, kind) {
      var i :| 0 <= i < |all| && all[i].contract == c && all[i].kind == kind && all[i].period == Some(period);
      if i < |log| {
        assert log[i] == all[i];
      } else {
        assert all[i] == BulkEvent(z, terms, applied[i - |log|], now);
      }
    }
  }

  /**
   Repeating a bulk penalty within the same period of every contract penalises exactly the
   contracts that were not yet late at the first call and are at the second.
   */
  lemma BulkAgainIff(z: Zone, log: seq<Event>, terms: map<int, Terms>, active: set<int>, goddess: int, ids: seq<int>,
        now: nat, later: nat, c: int)
    requires forall d | d in terms :: IndexAt(z, terms[d], now) == IndexAt(z, terms[d], later)
    ensures
      var after := BulkLog(z, log, terms, active, goddess, ids, now);
      (c in Summarise(z, after, terms, active, goddess, ids, later).appliedIds)
        <==> (c in ids && Judge(z, log, terms, active, goddess, c, later) == Applied
          && !PastPeriodStart(z, terms[c], now))
  {
    var after := BulkLog(z, log, terms, active, goddess, ids, now);
    PickedFrom(ids, d => Judge(z, after, terms, active, goddess, d, later) == Applied);
    VerdictAfterBulk(z, log, terms, active, goddess, ids, now, c, later);
  }

  /** On the first day of its second week a weekly contract is not late; the same call a day later penalises it. */
  lemma BulkAgainSample()
    ensures
      var z: Zone := _ => false;
      var terms := map[1 := Terms(2, 3, Some(0), Weekly, 100_000, 500, 100, 10_000)];
      var after := BulkLog(z, [], terms, {1}, 3, [1], DAY * 7);
      && IndexAt(z, terms[1], DAY * 7) == IndexAt(z, terms[1], DAY * 8) == 1
      && after == [] && Summarise(z, after, terms, {1}, 3, [1], DAY * 8).appliedIds == [1]
  {
    var z: Zone := _ => false;
    var terms := map[1 := Terms(2, 3, Some(0), Weekly, 100_000, 500, 100, 10_000)];
    assert LondonDay(z, 0) == 0 && LondonDay(z, DAY * 7) == 7 && LondonDay(z, DAY * 8) == 8;
    assert Judge(z, [], terms, {1}, 3, 1, DAY * 7) == NotLate;
    assert Judge(z, [], terms, {1}, 3, 1, DAY * 8) == Applied;
    var none: seq<int> := [];
    assert [1][..0] == none;
    assert BulkLog(z, [], terms, {1}, 3, [1], DAY * 7) == [];
  }

  /** At the same instant a second call applies nothing and leaves the log alone. */
  lemma BulkTwice(z: Zone, log: seq<Event>, terms: map<int, Terms>, active: set<int>, goddess: int, ids: seq<int>, now: nat)
    ensures
      var after := BulkLog(z, log, terms, active, goddess, ids, now);
      && Summarise(z, after, terms, active, goddess, ids, now).applied == 0
      && BulkLog(z, after, terms, active, goddess, ids, now) == after
  {
    var after := BulkLog(z, log, terms, active, goddess, ids, now);
    var again := Judged(z, after, terms, active, goddess, ids, now, Applied);
    if again != [] {
      PickedFrom(ids, d => Judge(z, after, terms, active, goddess, d, now) == Applied);
      assert again[0] in again;
      VerdictAfterBulk(z, log, terms, active, goddess, ids, now, again[0], now);
    }
  }

  // ---------------------------------------------------------------- the read surfaces

  datatype LateItem = LateItem(contract: int, sub: int, daysLate: int, overdue: int)

  predicate Holds(paid: map<int, set<int>>, c: int, p: int) {
    c in paid && p in paid[c]
  }

  /** The period indices with a payment row, per contract. */
  method PaidPeriodIndices(log: seq<Event>, contracts: seq<int>) returns (paid: map<int, set<int>>)
    ensures forall c, p :: Holds(paid, c, p) <==> c in contracts && ExistsForPeriod(log, c, p, PaymentApplied)
  {
    paid := map[];
    var i := 0;
    while i < |log|
      invariant i <= |log|
      invariant forall c, p :: Holds(paid, c, p) <==> c in contracts && ExistsForPeriod(log[..i], c, p, PaymentApplied)
    {
      hide ExistsForPeriod;
      var e := log[i];
      ghost var was := paid;
      if e.contract in contracts && e.kind == PaymentApplied && e.period.Some? {
        var known := if e.contract in paid then paid[e.contract] else {};
        paid := paid[e.contract := known + {e.period.value}];
      }
      assert log[..i + 1] == log[..i] + [e];
      forall c, p
        ensures Holds(paid, c, p) <==> c in contracts && ExistsForPeriod(log[..i + 1], c, p, PaymentApplied)
      {
        assert Holds(was, c, p) <==> c in contracts && ExistsForPeriod(log[..i], c, p, PaymentApplied);
        ExistsSnoc(log[..i], e, c, p, PaymentApplied);
      }
      i := i + 1;
    }
    assert log[..i] == log;
  }

  /** The late ones among a goddess's active contracts, in table order. */
  function LateIds(z: Zone, log: seq<Event>, terms: map<int, Terms>, rows: seq<int>, activeSubs: set<int>, now: nat): seq<int>
    requires forall i | 0 <= i < |rows| :: rows[i] in terms
  {
    if rows == [] then []
    else
      var c := rows[|rows| - 1];
      LateIds(z, log, terms, rows[..|rows| - 1], activeSubs, now)
      + if terms[c].sub in activeSubs && IsLate(z, log, c, terms[c], now) then [c] else []
  }

  function ItemFor(z: Zone, terms: map<int, Terms>, c: int, now: nat): LateItem
    requires c in terms && terms[c].signedAt.Some?
  {
    var t := terms[c];
    var days, length := DaysIntoPeriod(z, t.signedAt.value, t.frequency, now), PeriodLengthDays(t.frequency);
    LateItem(c, t.sub, if days <= length then days else length, t.minimumPayment)
  }

  /** The list of late contracts, before it is sorted for display. */
  method LateContracts(ledger: LedgerTable, z: Zone, rows: seq<int>, activeSubs: set<int>, now: nat) returns (items: seq<LateItem>)
    requires forall i | 0 <= i < |rows| :: rows[i] in ledger.terms
    ensures var late := LateIds(z, ledger.log, ledger.terms, rows, activeSubs, now);
      && |items| == |late|
      && forall i | 0 <= i < |late| ::
          late[i] in ledger.terms && ledger.terms[late[i]].signedAt.Some? && items[i] == ItemFor(z, ledger.terms, late[i], now)
  {
    hide DaysIntoPeriod, CurrentPeriodIndex, ExistsForPeriod;
    var paid := PaidPeriodIndices(ledger.log, rows);
    items := [];
    var i := 0;
    while i < |rows|
      invariant i <= |rows|
      invariant var late := LateIds(z, ledger.log, ledger.terms, rows[..i], activeSubs, now);
        && |items| == |late|
        && forall j | 0 <= j < |late| ::
            late[j] in ledger.terms && ledger.terms[late[j]].signedAt.Some? && items[j] == ItemFor(z, ledger.terms, late[j], now)
    {
      var c := rows[i];
      var t := ledger.terms[c];
      assert rows[..i + 1][..i] == rows[..i];
      i := i + 1;
      if t.sub !in activeSubs || t.signedAt.None? {
        continue;
      }
      if DaysIntoPeriod(z, t.signedAt.value, t.frequency, now) <= 0 {
        continue;
      }
      var index := IndexAt(z, t, now);
      if Holds(paid, c, index) {
        continue;
      }
      items := items + [ItemFor(z, ledger.terms, c, now)];
    }
    assert rows[..i] == rows;
  }

  /** The counter on the summary page. */
  method CountLateContracts(ledger: LedgerTable, z: Zone, rows: seq<int>, activeSubs: set<int>, now: nat) returns (count: nat)
    requires forall i | 0 <= i < |rows| :: rows[i] in ledger.terms
    ensures count == |LateIds(z, ledger.log, ledger.terms, rows, activeSubs, now)|
  {
    hide DaysIntoPeriod, CurrentPeriodIndex, ExistsForPeriod;
    var paid := PaidPeriodIndices(ledger.log, rows);
    count := 0;
    var i := 0;
    while i < |rows|
      invariant i <= |rows|
      invariant count == |LateIds(z, ledger.log, ledger.terms, rows[..i], activeSubs, now)|
    {
      var c := rows[i];
      var t := ledger.terms[c];
      assert rows[..i + 1][..i] == rows[..i];
      if t.sub in activeSubs && t.signedAt.Some? && 0 < DaysIntoPeriod(z, t.signedAt.value, t.frequency, now) {
        var index := IndexAt(z, t, now);
        if !Holds(paid, c, index) {
          count := count + 1;
        }
      }
      i := i + 1;
    }
    assert rows[..i] == rows;
  }

  lemma {:induction false} LateIdsFrom(z: Zone, log: seq<Event>, terms: map<int, Terms>, rows: seq<int>, activeSubs: set<int>, now: nat, c: int)
    requires forall i | 0 <= i < |rows| :: rows[i] in terms
    requires c in LateIds(z, log, terms, rows, activeSubs, now)
    ensures c in rows && terms[c].sub in activeSubs && IsLate(z, log, c, terms[c], now)
  {
    hide IsLate;
    if c !in LateIds(z, log, terms, rows[..|rows| - 1], activeSubs, now) {
    } else {
      LateIdsFrom(z, log, terms, rows[..|rows| - 1], activeSubs, now, c);
    }
  }

  /** The bulk penalty on the list of late contracts finds every one of them, and finds it late. */
  lemma BulkAcceptsLateList(z: Zone, log: seq<Event>, terms: map<int, Terms>, active: set<int>, goddess: int, rows: seq<int>,
        activeSubs: set<int>, now: nat)
    requires forall i | 0 <= i < |rows| :: rows[i] in terms && rows[i] in active && terms[rows[i]].goddess == goddess
    ensures
      var r := Summarise(z, log, terms, active, goddess, LateIds(z, log, terms, rows, activeSubs, now), now);
      r.notLate == 0 && r.notFound == 0
  {
    var late := LateIds(z, log, terms, rows, activeSubs, now);
    forall c | c in late
      ensures Judge(z, log, terms, active, goddess, c, now) in {Already, Applied}
    {
      LateIdsFrom(z, log, terms, rows, activeSubs, now, c);
      var i :| 0 <= i < |rows| && rows[i] == c;
    }
    NothingPicked(late, c => Judge(z, log, terms, active, goddess, c, now) == NotLate);
    NothingPicked(late, c => Judge(z, log, terms, active, goddess, c, now) == Unknown);
  }

  lemma {:induction false} NothingPicked(ids: seq<int>, pick: int -> bool)
    requires forall c | c in ids :: !pick(c)
    ensures Picked(ids, pick) == []
  {
    if ids == [] {
    } else {
      NothingPicked(ids[..|ids| - 1], pick);
    }
  }

  // ---------------------------------------------------------------- what is penalised, listed and counted, spelled out

  predicate Found(terms: map<int, Terms>, active: set<int>, goddess: int, c: int) {
    c in terms && terms[c].goddess == goddess && c in active && terms[c].signedAt.Some?
  }

  predicate HasEvent(log: seq<Event>, c: int, kind: EventType, period: int) {
    exists i | 0 <= i < |log| :: log[i].contract == c && log[i].kind == kind && log[i].period == Some(period)
  }

  // Late: past the start of the period, without a payment for it.
  predicate Overdue(z: Zone, log: seq<Event>, t: Terms, c: int, now: nat)
    requires t.signedAt.Some?
  {
    && 0 < DaysIntoPeriod(z, t.signedAt.value, t.frequency, now)
    && !HasEvent(log, c, PaymentApplied, CurrentPeriodIndex(z, t.signedAt, t.frequency, now))
  }

  predicate Penalised(z: Zone, log: seq<Event>, t: Terms, c: int, now: nat) {
    HasEvent(log, c, LatePenalty, CurrentPeriodIndex(z, t.signedAt, t.frequency, now))
  }

  lemma JudgeIs(z: Zone, log: seq<Event>, terms: map<int, Terms>, active: set<int>, goddess: int, c: int, now: nat)
    ensures Judge(z, log, terms, active, goddess, c, now) == Unknown <==> !Found(terms, active, goddess, c)
    ensures Judge(z, log, terms, active, goddess, c, now) == NotLate
      <==> Found(terms, active, goddess, c) && !Overdue(z, log, terms[c], c, now)
    ensures Judge(z, log, terms, active, goddess, c, now) == Already
      <==> Found(terms, active, goddess, c) && Overdue(z, log, terms[c], c, now) && Penalised(z, log, terms[c], c, now)
    ensures Judge(z, log, terms, active, goddess, c, now) == Applied
      <==> Found(terms, active, goddess, c) && Overdue(z, log, terms[c], c, now) && !Penalised(z, log, terms[c], c, now)
  {
    hide DaysIntoPeriod, CurrentPeriodIndex;
  }

  /**
   The bulk penalty appends one penalty, with the contract's own percentage and period, for each
   id of the call that names an active, signed contract of the caller's which is overdue and not
   penalised yet, and nothing else.
   */
  lemma BulkAppendsOwn(z: Zone, log: seq<Event>, terms: map<int, Terms>, active: set<int>, goddess: int, ids: seq<int>, now: nat)
    ensures
      var after := BulkLog(z, log, terms, active, goddess, ids, now);
      && log <= after
      && (forall i | |log| <= i < |after| ::
            var c := after[i].contract;
            && c in ids && Found(terms, active, goddess, c)
            && Overdue(z, log, terms[c], c, now) && !Penalised(z, log, terms[c], c, now)
            && after[i] == Event(c, LatePenalty, terms[c].latePenalty,
                 Some(CurrentPeriodIndex(z, terms[c].signedAt, terms[c].frequency, now)), now))
      && (forall c | c in ids && Found(terms, active, goddess, c)
                     && Overdue(z, log, terms[c], c, now) && !Penalised(z, log, terms[c], c, now) ::
            exists i | |log| <= i < |after| :: after[i].contract == c)
      && (forall i, j | |log| <= i < j < |after| :: after[i].contract != after[j].contract)
  {
    hide Judge, Overdue, Penalised, CurrentPeriodIndex;
    var applied := Judged(z, log, terms, active, goddess, ids, now, Applied);
    var after := BulkLog(z, log, terms, active, goddess, ids, now);
    PickedFrom(ids, d => Judge(z, log, terms, active, goddess, d, now) == Applied);
    PickedOnce(ids, d => Judge(z, log, terms, active, goddess, d, now) == Applied);
    forall i | |log| <= i < |after|
      ensures after[i] == BulkEvent(z, terms, applied[i - |log|], now) && applied[i - |log|] in applied
    {
    }
    forall c | c in ids
      ensures c in applied <==> (Found(terms, active, goddess, c) && Overdue(z, log, terms[c], c, now) && !Penalised(z, log, terms[c], c, now))
    {
      JudgeIs(z, log, terms, active, goddess, c, now);
    }
    forall c | c in applied
      ensures exists i | |log| <= i < |after| :: after[i].contract == c
    {
      var k :| 0 <= k < |applied| && applied[k] == c;
      JudgeIs(z, log, terms, active, goddess, c, now);
      assert after[|log| + k].contract == c;
    }
    forall i | |log| <= i < |after|
      ensures after[i].contract == applied[i - |log|]
    {
      JudgeIs(z, log, terms, active, goddess, applied[i - |log|], now);
    }
  }

  lemma {:induction false} PickedOnce(ids: seq<int>, pick: int -> bool)
    ensures forall i, j | 0 <= i < j < |Picked(ids, pick)| :: Picked(ids, pick)[i] != Picked(ids, pick)[j]
  {
    if ids == [] {
    } else {
      PickedOnce(ids[..|ids| - 1], pick);
      PickedFrom(ids[..|ids| - 1], pick);
    }
  }

  lemma {:induction false} PickedCount(ids: seq<int>, pick: int -> bool)
    ensures |Picked(ids, pick)| == |set c | c in ids && pick(c)|
  {
    if ids == [] {
      assert (set c | c in ids && pick(c)) == {};
    } else {
      var init, last := ids[..|ids| - 1], ids[|ids| - 1];
      PickedCount(init, pick);
      var before, after := set c | c in init && pick(c), set c | c in ids && pick(c);
      assert ids == init + [last];
      if last !in init && pick(last) {
        assert after == before + {last};
      } else {
        assert after == before;
      }
    }
  }

  /** The four counters, each as a number of distinct ids of the call. */
  lemma CountersMean(z: Zone, log: seq<Event>, terms: map<int, Terms>, active: set<int>, goddess: int, ids: seq<int>, now: nat)
    ensures
      var r := Summarise(z, log, terms, active, goddess, ids, now);
      && r.notFound == |set c | c in ids && !Found(terms, active, goddess, c)|
      && r.notLate == |set c | c in ids && Found(terms, active, goddess, c) && !Overdue(z, log, terms[c], c, now)|
      && r.alreadyPenalised == |set c | c in ids && Found(terms, active, goddess, c)
           && Overdue(z, log, terms[c], c, now) && Penalised(z, log, terms[c], c, now)|
      && r.applied == |set c | c in ids && Found(terms, active, goddess, c)
           && Overdue(z, log, terms[c], c, now) && !Penalised(z, log, terms[c], c, now)|
      && r.applied == |r.appliedIds|
  {
    hide Judge, Overdue, Penalised, Found;
    forall v: Verdict
      ensures |Judged(z, log, terms, active, goddess, ids, now, v)| == |set c | c in ids && Judge(z, log, terms, active, goddess, c, now) == v|
    {
      VerdictCount(z, log, terms, active, goddess, ids, now, v);
    }
    SameSets(z, log, terms, active, goddess, ids, now);
  }

  lemma VerdictCount(z: Zone, log: seq<Event>, terms: map<int, Terms>, active: set<int>, goddess: int, ids: seq<int>, now: nat, v: Verdict)
    ensures |Judged(z, log, terms, active, goddess, ids, now, v)| == |set c | c in ids && Judge(z, log, terms, active, goddess, c, now) == v|
  {
    hide Judge;
    PickedCount(ids, c => Judge(z, log, terms, active, goddess, c, now) == v);
    assert (set c | c in ids && (d => Judge(z, log, terms, active, goddess, d, now) == v)(c))
      == set c | c in ids && Judge(z, log, terms, active, goddess, c, now) == v;
  }

  lemma SameSets(z: Zone, log: seq<Event>, terms: map<int, Terms>, active: set<int>, goddess: int, ids: seq<int>, now: nat)
    ensures (set c | c in ids && Judge(z, log, terms, active, goddess, c, now) == Unknown) == set c | c in ids && !Found(terms, active, goddess, c)
    ensures (set c | c in ids && Judge(z, log, terms, active, goddess, c, now) == NotLate)
      == set c | c in ids && Found(terms, active, goddess, c) && !Overdue(z, log, terms[c], c, now)
    ensures (set c | c in ids && Judge(z, log, terms, active, goddess, c, now) == Already)
      == set c | c in ids && Found(terms, active, goddess, c) && Overdue(z, log, terms[c], c, now) && Penalised(z, log, terms[c], c, now)
    ensures (set c | c in ids && Judge(z, log, terms, active, goddess, c, now) == Applied)
      == set c | c in ids && Found(terms, active, goddess, c) && Overdue(z, log, terms[c], c, now) && !Penalised(z, log, terms[c], c, now)
  {
    hide Judge, Overdue, Penalised;
    forall c
      ensures Judge(z, log, terms, active, goddess, c, now) == Unknown <==> !Found(terms, active, goddess, c)
      ensures Judge(z, log, terms, active, goddess, c, now) == NotLate
        <==> Found(terms, active, goddess, c) && !Overdue(z, log, terms[c], c, now)
      ensures Judge(z, log, terms, active, goddess, c, now) == Already
        <==> Found(terms, active, goddess, c) && Overdue(z, log, terms[c], c, now) && Penalised(z, log, terms[c], c, now)
      ensures Judge(z, log, terms, active, goddess, c, now) == Applied
        <==> Found(terms, active, goddess, c) && Overdue(z, log, terms[c], c, now) && !Penalised(z, log, terms[c], c, now)
    {
      JudgeIs(z, log, terms, active, goddess, c, now);
    }
  }

  /** The late list: each row of the table as often as it is there, if its sub is active and it is overdue; and no other. */
  lemma {:induction false} LateListIs(z: Zone, log: seq<Event>, terms: map<int, Terms>, rows: seq<int>, activeSubs: set<int>, now: nat, c: int)
    requires forall i | 0 <= i < |rows| :: rows[i] in terms
    ensures multiset(LateIds(z, log, terms, rows, activeSubs, now))[c] ==
      if c in terms && terms[c].sub in activeSubs && terms[c].signedAt.Some? && Overdue(z, log, terms[c], c, now) then multiset(rows)[c] else 0
  {
    hide DaysIntoPeriod, CurrentPeriodIndex;
    if rows == [] {
    } else {
      LateListIs(z, log, terms, rows[..|rows| - 1], activeSubs, now, c);
      assert rows == rows[..|rows| - 1] + [rows[|rows| - 1]];
      assert forall d | d in terms && terms[d].signedAt.Some? :: IsLate(z, log, d, terms[d], now) <==> Overdue(z, log, terms[d], d, now);
    }
  }

  /** What the list says of a late contract: the days late are UTC days, at least one and at most a period. */
  lemma ItemMeans(z: Zone, log: seq<Event>, terms: map<int, Terms>, c: int, now: nat)
    requires c in terms && terms[c].signedAt.Some? && Overdue(z, log, terms[c], c, now)
    ensures
      var t, item := terms[c], ItemFor(z, terms, c, now);
      var days := DaysIntoPeriod(z, t.signedAt.value, t.frequency, now);
      var most := match t.frequency case Weekly => 7 case Biweekly => 14 case Monthly => 30;
      && item.contract == c && item.sub == t.sub && item.overdue == t.minimumPayment
      && 1 <= item.daysLate <= most && item.daysLate <= days && (days <= most ==> item.daysLate == days) && (most < days ==> item.daysLate == most)
  {
  }
}
