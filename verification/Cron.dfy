/** The daily job: one tick per active contract, previewed in a savepoint or applied. */
module Cron {
  import opened Calendar
  import opened Ledger
  import opened Periods
  import opened Sums
  import opened Wrappers

  datatype Tick = Skipped | Charged(penalised: bool) | Refused

  // ---------------------------------------------------------------- one contract

  predicate IsInterest(e: Event, contract: int, period: int) {
    e.contract == contract && e.kind == PeriodInterest && e.period == Some(period)
  }

  /** When interest for a period was charged. */
  function ChargedAt(log: seq<Event>, contract: int, period: int): Option<nat> {
    if log == [] then None
    else
      var last := log[|log| - 1];
      if IsInterest(last, contract, period) then Some(last.at)
      else ChargedAt(log[..|log| - 1], contract, period)
  }

  /** Payments stamped at `since` or later. */
  function PaidSince(log: seq<Event>, contract: int, since: nat): int {
    if log == [] then 0
    else
      var last := log[|log| - 1];
      PaidSince(log[..|log| - 1], contract, since)
      + if last.contract == contract && last.kind == PaymentApplied && since <= last.at then last.amount else 0
  }

  function HadMinPayment(log: seq<Event>, contract: int, minimum: int, period: int): bool {
    var anchor := ChargedAt(log, contract, period);
    anchor.None? || minimum <= PaidSince(log, contract, anchor.value)
  }

  function PenaltyEvent(contract: int, t: Terms, period: int, now: nat): Event {
    Event(contract, LatePenalty, t.latePenalty, Some(period), now)
  }

  function InterestEvent(contract: int, t: Terms, period: int, now: nat): Event {
    Event(contract, PeriodInterest, t.periodRate, Some(period), now)
  }

  /** The log after a tick in period `p`.  A refused insert leaves the log as it was. */
  function TickStep(log: seq<Event>, contract: int, t: Terms, p: nat, now: nat): (seq<Event>, Tick) {
    if p == 0 || ExistsForPeriod(log, contract, p, PeriodInterest) then (log, Skipped)
    else
      var penalty, interest := PenaltyEvent(contract, t, p - 1, now), InterestEvent(contract, t, p, now);
      if 2 <= p && !HadMinPayment(log, contract, t.minimumPayment, p - 1) then
        if KeyFree(log, penalty) then (log + [penalty] + [interest], Charged(true)) else (log, Refused)
      else
        (log + [interest], Charged(false))
  }

  function IndexAt(z: Zone, t: Terms, now: nat): nat {
    CurrentPeriodIndex(z, t.signedAt, t.frequency, now)
  }

  method TickContract(ledger: LedgerTable, z: Zone, contract: int, now: nat) returns (tick: Tick)
    requires ledger.Valid() && contract in ledger.terms
    modifies ledger`log, ledger`balances
    ensures ledger.Valid()
    ensures (ledger.log, tick)
      == TickStep(old(ledger.log), contract, ledger.terms[contract], IndexAt(z, ledger.terms[contract], now), now)
  {
    hide Replay, ContractLog, ChargedAt, PaidSince, CurrentPeriodIndex;
    var t := ledger.terms[contract];
    var p := IndexAt(z, t, now);
    if p <= 0 {
      return Skipped;
    }
    if ExistsForPeriod(ledger.log, contract, p, PeriodInterest) {
      return Skipped;
    }
    var previous := p - 1;
    var late := previous >= 1 && !HadMinPayment(ledger.log, contract, t.minimumPayment, previous);
    if late {
      var inserted := ledger.Apply(PenaltyEvent(contract, t, previous, now));
      if !inserted {
        return Refused;
      }
    }
    var charged := ledger.Apply(InterestEvent(contract, t, p, now));
    assert charged;
    return Charged(late);
  }

  /** A tick is refused exactly when a penalty it owes for the last period is already in the log. */
  lemma TickRefusedIff(log: seq<Event>, contract: int, t: Terms, p: nat, now: nat)
    ensures TickStep(log, contract, t, p, now).1 == Refused
      <==> (2 <= p && !ExistsForPeriod(log, contract, p, PeriodInterest)
        && ChargedAt(log, contract, p - 1).Some?
        && PaidSince(log, contract, ChargedAt(log, contract, p - 1).value) < t.minimumPayment
        && ExistsForPeriod(log, contract, p - 1, LatePenalty))
  {
    if 2 <= p {
      KeyFreeIsAbsent(log, PenaltyEvent(contract, t, p - 1, now));
    }
  }

  lemma KeyFreeIsAbsent(log: seq<Event>, e: Event)
    requires e.period.Some?
    ensures KeyFree(log, e) <==> !ExistsForPeriod(log, e.contract, e.period.value, e.kind)
  {
    forall i | 0 <= i < |log| && SameKey(log[i], e)
      ensures ExistsForPeriod(log, e.contract, e.period.value, e.kind)
    {
    }
  }

  /** A second tick in the same period writes nothing, and says so again if the first was refused. */
  lemma TickTwice(log: seq<Event>, contract: int, t: Terms, p: nat, now: nat, later: nat)
    ensures
      var first := TickStep(log, contract, t, p, now);
      var second := TickStep(first.0, contract, t, p, later);
      second.0 == first.0 && second.1 == if first.1 == Refused then Refused else Skipped
  {
    var first := TickStep(log, contract, t, p, now);
    if first.1.Charged? {
      assert IsInterest(first.0[|first.0| - 1], contract, p);
    }
  }

  // ---------------------------------------------------------------- the whole job

  datatype Sub = Sub(id: int, isSub: bool, active: bool)
  // A sub's rolling tribute: at most one row per sub.
  datatype Rolling = Rolling(paused: bool, amount: int)
  datatype Summary = Summary(subs: nat, rolling: nat, contracts: nat)
  datatype RunRow = RunRow(dryRun: bool, summary: Summary, errors: seq<int>)

  /** The log and the number of charged contracts; None once an exception has given up the rest. */
  datatype Ticked = Ticked(log: seq<Event>, count: Option<nat>)

  function TickNext(before: Ticked, terms: map<int, Terms>, z: Zone, c: int, now: nat): Ticked
    requires c in terms
  {
    if before.count.None? then before
    else
      var step := TickStep(before.log, c, terms[c], IndexAt(z, terms[c], now), now);
      match step.1
      case Skipped => Ticked(step.0, before.count)
      case Charged(_) => Ticked(step.0, Some(before.count.value + 1))
      case Refused => Ticked(step.0, None)
  }

  function ProcessContracts(log: seq<Event>, terms: map<int, Terms>, z: Zone, contracts: seq<int>, now: nat): Ticked
    requires forall i | 0 <= i < |contracts| :: contracts[i] in terms
  {
    if contracts == [] then Ticked(log, Some(0))
    else
      TickNext(ProcessContracts(log, terms, z, contracts[..|contracts| - 1], now), terms, z, contracts[|contracts| - 1], now)
  }

  // The rows the job reads: who is a sub, what each sub owes.
  datatype Tables = Tables(subs: seq<Sub>, rolling: map<int, Rolling>, contracts: map<int, seq<int>>)

  predicate TablesOver(tables: Tables, terms: map<int, Terms>) {
    forall s, i | s in tables.contracts && 0 <= i < |tables.contracts[s]| :: tables.contracts[s][i] in terms
  }

  function ActiveContracts(tables: Tables, terms: map<int, Terms>, sub: int): (cs: seq<int>)
    requires TablesOver(tables, terms)
    ensures forall i | 0 <= i < |cs| :: cs[i] in terms
  {
    if sub in tables.contracts then tables.contracts[sub] else []
  }

  function RollingCount(tables: Tables, sub: int): nat {
    if sub in tables.rolling && !tables.rolling[sub].paused && tables.rolling[sub].amount != 0 then 1 else 0
  }

  datatype Progress = Progress(log: seq<Event>, summary: Summary, errors: seq<int>)

  /** One sub of the loop; only active subs are loaded. */
  function ProcessSub(done: Progress, tables: Tables, terms: map<int, Terms>, z: Zone, s: Sub, now: nat): Progress
    requires TablesOver(tables, terms)
  {
    if !s.isSub || !s.active then done
    else
      var ticked := ProcessContracts(done.log, terms, z, ActiveContracts(tables, terms, s.id), now);
      Progress(ticked.log,
        Summary(done.summary.subs + 1, done.summary.rolling + RollingCount(tables, s.id),
          done.summary.contracts + if ticked.count.Some? then ticked.count.value else 0),
        if ticked.count.Some? then done.errors else done.errors + [s.id])
  }

  function Process(log: seq<Event>, tables: Tables, terms: map<int, Terms>, z: Zone, subs: seq<Sub>, now: nat): Progress
    requires TablesOver(tables, terms)
  {
    if subs == [] then Progress(log, Summary(0, 0, 0), [])
    else ProcessSub(Process(log, tables, terms, z, subs[..|subs| - 1], now), tables, terms, z, subs[|subs| - 1], now)
  }

  lemma NothingProcessed(log: seq<Event>, terms: map<int, Terms>, z: Zone, contracts: seq<int>, now: nat)
    ensures ProcessContracts(log, terms, z, contracts[..0], now) == Ticked(log, Some(0))
  {
  }

  lemma ProcessNext(log: seq<Event>, terms: map<int, Terms>, z: Zone, contracts: seq<int>, n: nat, now: nat)
    requires n < |contracts| && forall i | 0 <= i < |contracts| :: contracts[i] in terms
    ensures ProcessContracts(log, terms, z, contracts[..n + 1], now)
      == TickNext(ProcessContracts(log, terms, z, contracts[..n], now), terms, z, contracts[n], now)
  {
    assert contracts[..n + 1][..n] == contracts[..n];
  }

  class CronController {
    const ledger: LedgerTable
    var runs: seq<RunRow>

    constructor (ledger: LedgerTable)
      ensures this.ledger == ledger && runs == []
    {
      this.ledger := ledger;
      runs := [];
    }

    method TickSub(tables: Tables, z: Zone, sub: int, now: nat) returns (count: Option<nat>)
      requires ledger.Valid() && TablesOver(tables, ledger.terms)
      modifies ledger`log, ledger`balances
      ensures ledger.Valid()
      ensures Ticked(ledger.log, count)
        == ProcessContracts(old(ledger.log), ledger.terms, z, ActiveContracts(tables, ledger.terms, sub), now)
    {
      hide TickStep, IndexAt, Replay, ContractLog, UniqueKeys, ProcessContracts, ActiveContracts;
      var contracts := ActiveContracts(tables, ledger.terms, sub);
      var n: nat, i := 0, 0;
      NothingProcessed(ledger.log, ledger.terms, z, contracts, now);
      while i < |contracts|
        invariant i <= |contracts| && ledger.Valid()
        invariant Ticked(ledger.log, Some(n)) == ProcessContracts(old(ledger.log), ledger.terms, z, contracts[..i], now)
      {
        ProcessNext(old(ledger.log), ledger.terms, z, contracts, i, now);
        var tick := TickContract(ledger, z, contracts[i], now);
        if tick == Refused {
          RestAbandoned(old(ledger.log), ledger.terms, z, contracts, i + 1, now);
          return None;
        }
        if tick.Charged? {
          n := n + 1;
        }
        i := i + 1;
      }
      assert contracts[..i] == contracts;
      return Some(n);
    }

    /**
     The job.  Everything but the run's own row happens inside a savepoint, which a dry run
     rolls back.
     */
    method RunDaily(tables: Tables, z: Zone, dryRun: bool, now: nat) returns (r: RunRow)
      requires ledger.Valid() && TablesOver(tables, ledger.terms)
      modifies this`runs, ledger`log, ledger`balances
      ensures ledger.Valid()
      ensures var done := Process(old(ledger.log), tables, ledger.terms, z, tables.subs, now);
        && r == RunRow(dryRun, done.summary, done.errors)
        && ledger.log == (if dryRun then old(ledger.log) else done.log)
      ensures dryRun ==> ledger.balances == old(ledger.balances)
      ensures runs == old(runs) + [r]
    {
      hide ProcessContracts, Replay, ContractLog, UniqueKeys, ActiveContracts;
      var savedLog, savedBalances := ledger.log, ledger.balances;
      var subs: nat, rolling: nat, contracts: nat := 0, 0, 0;
      var errors: seq<int> := [];
      var i := 0;
      while i < |tables.subs|
        invariant i <= |tables.subs| && ledger.Valid() && runs == old(runs)
        invariant Progress(ledger.log, Summary(subs, rolling, contracts), errors)
          == Process(savedLog, tables, ledger.terms, z, tables.subs[..i], now)
      {
        var s := tables.subs[i];
        assert tables.subs[..i + 1][..i] == tables.subs[..i];
        if s.isSub && s.active {
          subs := subs + 1;
          rolling := rolling + RollingCount(tables, s.id);
          var count := TickSub(tables, z, s.id, now);
          if count.Some? {
            contracts := contracts + count.value;
          } else {
            errors := errors + [s.id];
          }
        }
        i := i + 1;
      }
      assert tables.subs[..i] == tables.subs;
      if dryRun {
        ledger.log, ledger.balances := savedLog, savedBalances;
      }
      r := RunRow(dryRun, Summary(subs, rolling, contracts), errors);
      runs := runs + [r];
    }
  }

  lemma {:induction false} RestAbandoned(log: seq<Event>, terms: map<int, Terms>, z: Zone, contracts: seq<int>, n: nat, now: nat)
    requires n <= |contracts| && forall i | 0 <= i < |contracts| :: contracts[i] in terms
    requires ProcessContracts(log, terms, z, contracts[..n], now).count.None?
    ensures ProcessContracts(log, terms, z, contracts, now) == ProcessContracts(log, terms, z, contracts[..n], now)
  {
    if n == |contracts| {
      assert contracts[..n] == contracts;
    } else {
      var init := contracts[..|contracts| - 1];
      assert init[..n] == contracts[..n];
      RestAbandoned(log, terms, z, init, n, now);
    }
  }

  // ---------------------------------------------------------------- running the job again

  /** What a tick does; the time only stamps the events. */
  function Outcome(log: seq<Event>, contract: int, t: Terms, p: nat): Tick {
    TickStep(log, contract, t, p, 0).1
  }

  lemma OutcomeAtAnyTime(log: seq<Event>, contract: int, t: Terms, p: nat, now: nat)
    ensures TickStep(log, contract, t, p, now).1 == Outcome(log, contract, t, p)
  {
    if 2 <= p {
      KeyFreeIsAbsent(log, PenaltyEvent(contract, t, p - 1, now));
      KeyFreeIsAbsent(log, PenaltyEvent(contract, t, p - 1, 0));
    }
  }

  lemma OtherEvent(log: seq<Event>, e: Event, contract: int, t: Terms, p: nat)
    requires e.contract != contract
    ensures Outcome(log + [e], contract, t, p) == Outcome(log, contract, t, p)
  {
    assert (log + [e])[..|log|] == log;
    ExistsSnoc(log, e, contract, p, PeriodInterest);
    if 2 <= p {
      var penalty := PenaltyEvent(contract, t, p - 1, 0);
      KeyFreeIsAbsent(log, penalty);
      KeyFreeIsAbsent(log + [e], penalty);
      ExistsSnoc(log, e, contract, p - 1, LatePenalty);
    }
  }

  lemma ExistsSnoc(log: seq<Event>, e: Event, contract: int, period: int, kind: EventType)
    ensures ExistsForPeriod(log + [e], contract, period, kind)
      <==> (ExistsForPeriod(log, contract, period, kind)
        || (e.contract == contract && e.kind == kind && e.period == Some(period)))
  {
    if ExistsForPeriod(log, contract, period, kind) {
      var i :| 0 <= i < |log| && log[i].contract == contract && log[i].kind == kind && log[i].period == Some(period);
      assert (log + [e])[i] == log[i];
    }
    assert (log + [e])[|log|] == e;
  }

  // The period every contract is in.
  type PeriodOf = int -> nat

  predicate InPeriods(z: Zone, terms: map<int, Terms>, now: nat, period: PeriodOf) {
    forall c | c in terms :: IndexAt(z, terms[c], now) == period(c)
  }

  /** Contracts with nothing left to write in `log` are in the same position in `after`. */
  ghost predicate Keeps(log: seq<Event>, after: seq<Event>, terms: map<int, Terms>, period: PeriodOf) {
    forall c | c in terms && !Outcome(log, c, terms[c], period(c)).Charged? ::
      Outcome(after, c, terms[c], period(c)) == Outcome(log, c, terms[c], period(c))
  }

  lemma TickKeeps(before: Ticked, terms: map<int, Terms>, z: Zone, c: int, now: nat, period: PeriodOf)
    requires c in terms && InPeriods(z, terms, now, period)
    ensures Keeps(before.log, TickNext(before, terms, z, c, now).log, terms, period)
  {
    hide ExistsForPeriod, HadMinPayment, KeyFree, Outcome;
    var t, p, log := terms[c], period(c), before.log;
    var step := TickStep(log, c, t, p, now);
    forall d | d in terms && !Outcome(log, d, terms[d], period(d)).Charged?
      ensures Outcome(step.0, d, terms[d], period(d)) == Outcome(log, d, terms[d], period(d))
    {
      OutcomeAtAnyTime(log, c, t, p, now);
      if d != c && step.1.Charged? {
        var penalty, interest := PenaltyEvent(c, t, p - 1, now), InterestEvent(c, t, p, now);
        OtherEvent(log, penalty, d, terms[d], period(d));
        OtherEvent(log + [penalty], interest, d, terms[d], period(d));
        OtherEvent(log, interest, d, terms[d], period(d));
      }
    }
  }

  lemma {:induction false} ContractsAgain(log: seq<Event>, final: seq<Event>, terms: map<int, Terms>, z: Zone,
        contracts: seq<int>, now: nat, later: nat, period: PeriodOf)
    requires forall i | 0 <= i < |contracts| :: contracts[i] in terms
    requires InPeriods(z, terms, now, period) && InPeriods(z, terms, later, period)
    requires Keeps(ProcessContracts(log, terms, z, contracts, now).log, final, terms, period)
    ensures Keeps(log, final, terms, period)
    ensures ProcessContracts(final, terms, z, contracts, later)
      == Ticked(final, if ProcessContracts(log, terms, z, contracts, now).count.Some? then Some(0) else None)
  {
    hide TickStep, IndexAt;
    if contracts == [] {
    } else {
      var init, c := contracts[..|contracts| - 1], contracts[|contracts| - 1];
      var before := ProcessContracts(log, terms, z, init, now);
      TickKeeps(before, terms, z, c, now, period);
      ContractsAgain(log, final, terms, z, init, now, later, period);
      TickTwice(before.log, c, terms[c], period(c), now, 0);
      OutcomeAtAnyTime(final, c, terms[c], period(c), later);
      TickWritesOnlyWhenCharged(final, c, terms[c], period(c), later);
      TickWritesOnlyWhenCharged(before.log, c, terms[c], period(c), now);
      OutcomeAtAnyTime(before.log, c, terms[c], period(c), now);
    }
  }

  lemma TickWritesOnlyWhenCharged(log: seq<Event>, contract: int, t: Terms, p: nat, now: nat)
    ensures TickStep(log, contract, t, p, now).1.Charged? <==> TickStep(log, contract, t, p, now).0 != log
  {
  }

  lemma {:induction false} ProcessAgain(log: seq<Event>, final: seq<Event>, tables: Tables, terms: map<int, Terms>,
        z: Zone, subs: seq<Sub>, now: nat, later: nat, period: PeriodOf)
    requires TablesOver(tables, terms)
    requires InPeriods(z, terms, now, period) && InPeriods(z, terms, later, period)
    requires Keeps(Process(log, tables, terms, z, subs, now).log, final, terms, period)
    ensures Keeps(log, final, terms, period)
    ensures var first, second := Process(log, tables, terms, z, subs, now), Process(final, tables, terms, z, subs, later);
      second == Progress(final, first.summary.(contracts := 0), first.errors)
  {
    hide ProcessContracts, Outcome;
    if subs == [] {
    } else {
      var init, s := subs[..|subs| - 1], subs[|subs| - 1];
      var before := Process(log, tables, terms, z, init, now);
      if s.isSub && s.active {
        ContractsAgain(before.log, final, terms, z, ActiveContracts(tables, terms, s.id), now, later, period);
      }
      ProcessAgain(log, final, tables, terms, z, init, now, later, period);
    }
  }

  /**
   A second run of the job, with every contract still in the same period, writes nothing to
   the log and reports the same subs, rolling tributes and errors, and no contract.
   */
  lemma DailyRunTwice(log: seq<Event>, tables: Tables, terms: map<int, Terms>, z: Zone, now: nat, later: nat)
    requires TablesOver(tables, terms)
    requires forall c | c in terms :: IndexAt(z, terms[c], now) == IndexAt(z, terms[c], later)
    ensures
      var first := Process(log, tables, terms, z, tables.subs, now);
      Process(first.log, tables, terms, z, tables.subs, later)
        == Progress(first.log, first.summary.(contracts := 0), first.errors)
  {
    var period: PeriodOf := c => if c in terms then IndexAt(z, terms[c], now) else 0;
    var first := Process(log, tables, terms, z, tables.subs, now);
    ProcessAgain(log, first.log, tables, terms, z, tables.subs, now, later, period);
  }

  // ---------------------------------------------------------------- with anything written in between

  predicate Settled(log: seq<Event>, contract: int, p: nat) {
    p == 0 || ExistsForPeriod(log, contract, p, PeriodInterest)
  }

  lemma SettledStays(log: seq<Event>, more: seq<Event>, contract: int, p: nat)
    requires log <= more && Settled(log, contract, p)
    ensures Settled(more, contract, p)
  {
    if p != 0 {
      var i :| 0 <= i < |log| && log[i].contract == contract && log[i].kind == PeriodInterest && log[i].period == Some(p);
      assert more[i] == log[i];
    }
  }

  lemma TickSettles(log: seq<Event>, contract: int, t: Terms, p: nat, now: nat)
    ensures log <= TickStep(log, contract, t, p, now).0
    ensures TickStep(log, contract, t, p, now).1 != Refused ==> Settled(TickStep(log, contract, t, p, now).0, contract, p)
    ensures Settled(log, contract, p) ==> TickStep(log, contract, t, p, now) == (log, Skipped)
  {
    hide HadMinPayment, KeyFree;
    var after := TickStep(log, contract, t, p, now).0;
    if TickStep(log, contract, t, p, now).1.Charged? {
      assert after[|after| - 1] == InterestEvent(contract, t, p, now);
    }
  }

  lemma {:induction false} ContractsSettle(log: seq<Event>, terms: map<int, Terms>, z: Zone, contracts: seq<int>, now: nat)
    requires forall i | 0 <= i < |contracts| :: contracts[i] in terms
    ensures log <= ProcessContracts(log, terms, z, contracts, now).log
    ensures ProcessContracts(log, terms, z, contracts, now).count.Some? ==>
      forall i | 0 <= i < |contracts| ::
        Settled(ProcessContracts(log, terms, z, contracts, now).log, contracts[i], IndexAt(z, terms[contracts[i]], now))
  {
    hide TickStep, IndexAt, Settled;
    if contracts == [] {
    } else {
      var init, c := contracts[..|contracts| - 1], contracts[|contracts| - 1];
      var before, after := ProcessContracts(log, terms, z, init, now), ProcessContracts(log, terms, z, contracts, now);
      ContractsSettle(log, terms, z, init, now);
      if before.count.Some? {
        TickSettles(before.log, c, terms[c], IndexAt(z, terms[c], now), now);
        if after.count.Some? {
          forall i | 0 <= i < |init|
            ensures Settled(after.log, contracts[i], IndexAt(z, terms[contracts[i]], now))
          {
            assert init[i] == contracts[i];
            SettledStays(before.log, after.log, init[i], IndexAt(z, terms[init[i]], now));
          }
        }
      }
    }
  }

  lemma {:induction false} SettledContracts(log: seq<Event>, terms: map<int, Terms>, z: Zone, contracts: seq<int>, now: nat)
    requires forall i | 0 <= i < |contracts| :: contracts[i] in terms && Settled(log, contracts[i], IndexAt(z, terms[contracts[i]], now))
    ensures ProcessContracts(log, terms, z, contracts, now) == Ticked(log, Some(0))
  {
    hide TickStep, IndexAt, Settled;
    if contracts == [] {
    } else {
      var c := contracts[|contracts| - 1];
      SettledContracts(log, terms, z, contracts[..|contracts| - 1], now);
      TickSettles(log, c, terms[c], IndexAt(z, terms[c], now), now);
    }
  }

  lemma {:induction false} ProcessAfter(log: seq<Event>, middle: seq<Event>, tables: Tables, terms: map<int, Terms>,
        z: Zone, subs: seq<Sub>, now: nat, later: nat)
    requires TablesOver(tables, terms)
    requires forall c | c in terms :: IndexAt(z, terms[c], now) == IndexAt(z, terms[c], later)
    requires Process(log, tables, terms, z, subs, now).errors == [] && Process(log, tables, terms, z, subs, now).log <= middle
    ensures Process(middle, tables, terms, z, subs, later)
      == Progress(middle, Process(log, tables, terms, z, subs, now).summary.(contracts := 0), [])
  {
    hide ProcessContracts, IndexAt, Settled, ActiveContracts;
    if subs == [] {
    } else {
      var init, s := subs[..|subs| - 1], subs[|subs| - 1];
      var before, contracts := Process(log, tables, terms, z, init, now), ActiveContracts(tables, terms, s.id);
      if s.isSub && s.active {
        var ticked := ProcessContracts(before.log, terms, z, contracts, now);
        assert ticked.count.Some? && before.errors == [];
        ContractsSettle(before.log, terms, z, contracts, now);
        ProcessAfter(log, middle, tables, terms, z, init, now, later);
        forall i | 0 <= i < |contracts|
          ensures Settled(middle, contracts[i], IndexAt(z, terms[contracts[i]], later))
        {
          SettledStays(ticked.log, middle, contracts[i], IndexAt(z, terms[contracts[i]], now));
        }
        SettledContracts(middle, terms, z, contracts, later);
      } else {
        ProcessAfter(log, middle, tables, terms, z, init, now, later);
      }
    }
  }

  /**
   After a run without errors, and whatever is written to the log in between, a second run with
   every contract still in the same period writes nothing.
   */
  lemma DailyRunAfterWrites(log: seq<Event>, middle: seq<Event>, tables: Tables, terms: map<int, Terms>, z: Zone, now: nat, later: nat)
    requires TablesOver(tables, terms)
    requires forall c | c in terms :: IndexAt(z, terms[c], now) == IndexAt(z, terms[c], later)
    requires Process(log, tables, terms, z, tables.subs, now).errors == [] && Process(log, tables, terms, z, tables.subs, now).log <= middle
    ensures Process(middle, tables, terms, z, tables.subs, later)
      == Progress(middle, Process(log, tables, terms, z, tables.subs, now).summary.(contracts := 0), [])
  {
    ProcessAfter(log, middle, tables, terms, z, tables.subs, now, later);
  }

  /** After a run with an error a payment can make the second one charge: week 2 was refused and is then charged. */
  lemma PaymentLiftsRefusal()
    ensures
      var z: Zone := _ => false;
      var t := Terms(2, 3, Some(0), Weekly, 100_000, 500, 100, 10_000);
      var tables := Tables([Sub(2, true, true)], map[], map[2 := [1]]);
      var log := [Event(1, PeriodInterest, 100, Some(1), DAY * 7), Event(1, LatePenalty, 500, Some(1), DAY * 8)];
      var paid := log + [Event(1, PaymentApplied, 100_000, None, DAY * 15)];
      && Process(log, tables, map[1 := t], z, tables.subs, DAY * 14) == Progress(log, Summary(1, 0, 0), [2])
      && Process(paid, tables, map[1 := t], z, tables.subs, DAY * 16).summary == Summary(1, 0, 1)
  {
    var z: Zone := _ => false;
    var t := Terms(2, 3, Some(0), Weekly, 100_000, 500, 100, 10_000);
    var tables := Tables([Sub(2, true, true)], map[], map[2 := [1]]);
    hide TickStep, IndexAt, Process;
    var log := [Event(1, PeriodInterest, 100, Some(1), DAY * 7), Event(1, LatePenalty, 500, Some(1), DAY * 8)];
    SecondWeek(z, t, 14);
    SecondWeek(z, t, 16);
    OneContract(log, tables, map[1 := t], z, DAY * 14);
    OneContract(log + [Event(1, PaymentApplied, 100_000, None, DAY * 15)], tables, map[1 := t], z, DAY * 16);
    RefusedThenPaid(t);
  }

  lemma SecondWeek(z: Zone, t: Terms, day: nat)
    requires (forall k :: !z(k)) && t.signedAt == Some(0) && t.frequency == Weekly && 14 <= day < 21
    ensures IndexAt(z, t, DAY * day) == 2
  {
    assert LondonDay(z, 0) == 0 && LondonDay(z, DAY * day) == day;
  }

  lemma RefusedThenPaid(t: Terms)
    requires t.minimumPayment == 100_000
    ensures
      var log := [Event(1, PeriodInterest, 100, Some(1), DAY * 7), Event(1, LatePenalty, 500, Some(1), DAY * 8)];
      var paid := log + [Event(1, PaymentApplied, 100_000, None, DAY * 15)];
      && TickStep(log, 1, t, 2, DAY * 14) == (log, Refused)
      && TickStep(paid, 1, t, 2, DAY * 16).1 == Charged(false)
  {
    hide KeyFree;
    var interest, penalty := Event(1, PeriodInterest, 100, Some(1), DAY * 7), Event(1, LatePenalty, 500, Some(1), DAY * 8);
    var log := [interest, penalty];
    var paid := log + [Event(1, PaymentApplied, 100_000, None, DAY * 15)];
    var none: seq<Event> := [];
    assert paid[..2] == log && log[..1] == [interest] && [interest][..0] == none;
    assert ChargedAt([interest], 1, 1) == Some(DAY * 7) && PaidSince([interest], 1, DAY * 7) == 0;
    assert log[1] == penalty;
    TickRefusedIff(log, 1, t, 2, DAY * 14);
  }

  lemma OneContract(log: seq<Event>, tables: Tables, terms: map<int, Terms>, z: Zone, now: nat)
    requires tables == Tables([Sub(2, true, true)], map[], map[2 := [1]]) && terms.Keys == {1}
    ensures
      var step := TickStep(log, 1, terms[1], IndexAt(z, terms[1], now), now);
      Process(log, tables, terms, z, tables.subs, now)
        == Progress(step.0, Summary(1, 0, if step.1.Charged? then 1 else 0), if step.1 == Refused then [2] else [])
  {
    hide TickStep, IndexAt;
    var noSubs: seq<Sub>, noContracts: seq<int> := [], [];
    assert tables.subs[..0] == noSubs && [1][..0] == noContracts;
    assert ProcessContracts(log, terms, z, [1], now) == TickNext(Ticked(log, Some(0)), terms, z, 1, now);
  }

  // ---------------------------------------------------------------- which payments count

  /** The payments of a contract that count from `since` on, added up event by event. */
  lemma {:induction false} PaidSinceIsSum(log: seq<Event>, contract: int, since: nat)
    ensures PaidSince(log, contract, since)
      == Sum(seq(|log|, i requires 0 <= i < |log| =>
           if log[i].contract == contract && log[i].kind == PaymentApplied && since <= log[i].at then log[i].amount else 0))
  {
    var amounts := seq(|log|, i requires 0 <= i < |log| =>
      if log[i].contract == contract && log[i].kind == PaymentApplied && since <= log[i].at then log[i].amount else 0);
    if log == [] {
    } else {
      var init := log[..|log| - 1];
      PaidSinceIsSum(init, contract, since);
      assert amounts[..|log| - 1] == seq(|init|, i requires 0 <= i < |init| =>
        if init[i].contract == contract && init[i].kind == PaymentApplied && since <= init[i].at then init[i].amount else 0);
    }
  }

  lemma {:induction false} ChargedAtIs(log: seq<Event>, contract: int, period: int)
    ensures ChargedAt(log, contract, period).Some? <==>
      exists i | 0 <= i < |log| :: log[i].contract == contract && log[i].kind == PeriodInterest && log[i].period == Some(period)
    ensures ChargedAt(log, contract, period).Some? ==>
      exists i | 0 <= i < |log| ::
        log[i].contract == contract && log[i].kind == PeriodInterest && log[i].period == Some(period)
        && log[i].at == ChargedAt(log, contract, period).value
  {
    if log == [] {
    } else {
      var init := log[..|log| - 1];
      ChargedAtIs(init, contract, period);
      assert forall i | 0 <= i < |init| :: init[i] == log[i];
      if ChargedAt(init, contract, period).Some? {
        var i :| 0 <= i < |init| && init[i].contract == contract && init[i].kind == PeriodInterest && init[i].period == Some(period)
                 && init[i].at == ChargedAt(init, contract, period).value;
        assert log[i] == init[i];
      }
    }
  }

  /** The log without the contract's payments from before `since`. */
  function WithoutEarlier(log: seq<Event>, contract: int, since: nat): seq<Event> {
    if log == [] then []
    else
      var init, last := log[..|log| - 1], log[|log| - 1];
      if last.contract == contract && last.kind == PaymentApplied && last.at < since then WithoutEarlier(init, contract, since)
      else WithoutEarlier(init, contract, since) + [last]
  }

  lemma {:induction false} EarlierDropped(log: seq<Event>, contract: int, since: nat, k: int, kind: EventType)
    requires kind != PaymentApplied
    ensures PaidSince(WithoutEarlier(log, contract, since), contract, since) == PaidSince(log, contract, since)
    ensures ChargedAt(WithoutEarlier(log, contract, since), contract, k) == ChargedAt(log, contract, k)
    ensures ExistsForPeriod(WithoutEarlier(log, contract, since), contract, k, kind) <==> ExistsForPeriod(log, contract, k, kind)
  {
    hide ExistsForPeriod;
    if log == [] {
    } else {
      var init, last := log[..|log| - 1], log[|log| - 1];
      var rest := WithoutEarlier(init, contract, since);
      EarlierDropped(init, contract, since, k, kind);
      assert log == init + [last] && (rest + [last])[..|rest|] == rest;
      ExistsSnoc(init, last, contract, k, kind);
      ExistsSnoc(rest, last, contract, k, kind);
    }
  }

  /**
   Payments from before the charge of the last period play no part: two logs that differ only in
   them give the tick the same outcome.
   */
  lemma TickIgnoresEarlier(log: seq<Event>, other: seq<Event>, contract: int, t: Terms, p: nat, now: nat, charged: nat)
    requires 1 <= p && ChargedAt(log, contract, p - 1) == Some(charged)
    requires WithoutEarlier(log, contract, charged) == WithoutEarlier(other, contract, charged)
    ensures TickStep(other, contract, t, p, now).1 == TickStep(log, contract, t, p, now).1
  {
    hide ChargedAt, PaidSince, ExistsForPeriod, KeyFree, WithoutEarlier;
    EarlierDropped(log, contract, charged, p, PeriodInterest);
    EarlierDropped(other, contract, charged, p, PeriodInterest);
    EarlierDropped(log, contract, charged, p - 1, LatePenalty);
    EarlierDropped(other, contract, charged, p - 1, LatePenalty);
    KeyFreeIsAbsent(log, PenaltyEvent(contract, t, p - 1, now));
    KeyFreeIsAbsent(other, PenaltyEvent(contract, t, p - 1, now));
  }

  // ---------------------------------------------------------------- whose contracts the job touches

  /** A sub the job loads, with the contract among those it selects for it. */
  predicate Reaches(tables: Tables, subs: seq<Sub>, c: int) {
    exists s | s in subs :: s.isSub && s.active && s.id in tables.contracts && c in tables.contracts[s.id]
  }

  lemma {:induction false} ContractsAppendOwn(log: seq<Event>, terms: map<int, Terms>, z: Zone, contracts: seq<int>, now: nat)
    requires forall i | 0 <= i < |contracts| :: contracts[i] in terms
    ensures log <= ProcessContracts(log, terms, z, contracts, now).log
    ensures forall i | |log| <= i < |ProcessContracts(log, terms, z, contracts, now).log| ::
      ProcessContracts(log, terms, z, contracts, now).log[i].contract in contracts
  {
    hide HadMinPayment, ExistsForPeriod, KeyFree, IndexAt;
    if contracts == [] {
    } else {
      var init, c := contracts[..|contracts| - 1], contracts[|contracts| - 1];
      ContractsAppendOwn(log, terms, z, init, now);
      assert forall x | x in init :: x in contracts;
    }
  }

  /** The job writes only to contracts of active subs. */
  lemma {:induction false} JobWritesOwn(log: seq<Event>, tables: Tables, terms: map<int, Terms>, z: Zone, subs: seq<Sub>, now: nat)
    requires TablesOver(tables, terms)
    ensures log <= Process(log, tables, terms, z, subs, now).log
    ensures forall i | |log| <= i < |Process(log, tables, terms, z, subs, now).log| ::
      Reaches(tables, subs, Process(log, tables, terms, z, subs, now).log[i].contract)
  {
    hide ProcessContracts;
    if subs == [] {
    } else {
      var init, s := subs[..|subs| - 1], subs[|subs| - 1];
      var before, after := Process(log, tables, terms, z, init, now), Process(log, tables, terms, z, subs, now);
      JobWritesOwn(log, tables, terms, z, init, now);
      assert forall x | x in init :: x in subs;
      assert s in subs;
      if s.isSub && s.active {
        ContractsAppendOwn(before.log, terms, z, ActiveContracts(tables, terms, s.id), now);
      }
      forall i | |log| <= i < |after.log|
        ensures Reaches(tables, subs, after.log[i].contract)
      {
        if i < |before.log| {
          assert after.log[i] == before.log[i] && Reaches(tables, init, before.log[i].contract);
        }
      }
    }
  }

  /** It counts the active subs, those of them with a rolling tribute of some amount that is not paused, and an error at most once a sub. */
  lemma {:induction false} JobCounts(log: seq<Event>, tables: Tables, terms: map<int, Terms>, z: Zone, subs: seq<Sub>, now: nat)
    requires TablesOver(tables, terms)
    ensures
      var done := Process(log, tables, terms, z, subs, now);
      && done.summary.subs == Sum(seq(|subs|, i requires 0 <= i < |subs| => if subs[i].isSub && subs[i].active then 1 else 0))
      && done.summary.rolling == Sum(seq(|subs|, i requires 0 <= i < |subs| =>
           if subs[i].isSub && subs[i].active && subs[i].id in tables.rolling
              && !tables.rolling[subs[i].id].paused && tables.rolling[subs[i].id].amount != 0 then 1 else 0))
      && forall id | id in done.errors :: exists s | s in subs :: s.isSub && s.active && s.id == id
  {
    hide ProcessContracts;
    var active := seq(|subs|, i requires 0 <= i < |subs| => if subs[i].isSub && subs[i].active then 1 else 0);
    var rolling := seq(|subs|, i requires 0 <= i < |subs| =>
      if subs[i].isSub && subs[i].active && subs[i].id in tables.rolling
         && !tables.rolling[subs[i].id].paused && tables.rolling[subs[i].id].amount != 0 then 1 else 0);
    if subs == [] {
    } else {
      var init := subs[..|subs| - 1];
      JobCounts(log, tables, terms, z, init, now);
      assert subs[|subs| - 1] in subs && forall x | x in init :: x in subs;
      assert active[..|init|] == seq(|init|, i requires 0 <= i < |init| => if init[i].isSub && init[i].active then 1 else 0);
      assert rolling[..|init|] == seq(|init|, i requires 0 <= i < |init| =>
        if init[i].isSub && init[i].active && init[i].id in tables.rolling
           && !tables.rolling[init[i].id].paused && tables.rolling[init[i].id].amount != 0 then 1 else 0);
    }
  }
}
