/** The daily job contract by contract: each is ticked as if it were alone, up to the first refusal among its sub's. */
module Job {
  import opened Calendar
  import opened Cron
  import opened Ledger
  import opened Sums
  import opened Wrappers

  // ---------------------------------------------------------------- a tick reads its own contract only

  lemma OwnSnoc(log: seq<Event>, e: Event, c: int)
    ensures ContractLog(log + [e], c) == if e.contract == c then ContractLog(log, c) + [e] else ContractLog(log, c)
  {
    assert (log + [e])[..|log|] == log;
  }

  lemma {:induction false} OwnDecides(log: seq<Event>, c: int, k: int, since: nat, kind: EventType)
    ensures PaidSince(ContractLog(log, c), c, since) == PaidSince(log, c, since)
    ensures ChargedAt(ContractLog(log, c), c, k) == ChargedAt(log, c, k)
    ensures ExistsForPeriod(ContractLog(log, c), c, k, kind) <==> ExistsForPeriod(log, c, k, kind)
  {
    hide ExistsForPeriod;
    if log == [] {
    } else {
      hide ContractLog;
      var init, last := log[..|log| - 1], log[|log| - 1];
      var own := ContractLog(init, c);
      OwnSnoc(init, last, c);
      OwnDecides(init, c, k, since, kind);
      assert log == init + [last] && (own + [last])[..|own|] == own;
      ExistsSnoc(init, last, c, k, kind);
      ExistsSnoc(own, last, c, k, kind);
    }
  }

  /** Only the contract's own events matter to its tick. */
  lemma TickIsLocal(log: seq<Event>, other: seq<Event>, c: int, t: Terms, p: nat, now: nat)
    requires ContractLog(log, c) == ContractLog(other, c)
    ensures TickStep(log, c, t, p, now).1 == TickStep(other, c, t, p, now).1
    ensures ContractLog(TickStep(log, c, t, p, now).0, c) == ContractLog(TickStep(other, c, t, p, now).0, c)
  {
    hide ChargedAt, PaidSince, ExistsForPeriod, KeyFree, ContractLog;
    var anchor := ChargedAt(log, c, p - 1);
    var since := if anchor.Some? then anchor.value else 0;
    OwnDecides(log, c, p, since, PeriodInterest);
    OwnDecides(other, c, p, since, PeriodInterest);
    OwnDecides(log, c, p - 1, since, LatePenalty);
    OwnDecides(other, c, p - 1, since, LatePenalty);
    var penalty, interest := PenaltyEvent(c, t, p - 1, now), InterestEvent(c, t, p, now);
    KeyFreeIsAbsent(log, penalty);
    KeyFreeIsAbsent(other, penalty);
    OwnSnoc(log, penalty, c);
    OwnSnoc(other, penalty, c);
    OwnSnoc(log + [penalty], interest, c);
    OwnSnoc(other + [penalty], interest, c);
    OwnSnoc(log, interest, c);
    OwnSnoc(other, interest, c);
  }

  lemma TickLeavesOthers(log: seq<Event>, c: int, t: Terms, p: nat, now: nat, d: int)
    requires d != c
    ensures ContractLog(TickStep(log, c, t, p, now).0, d) == ContractLog(log, d)
  {
    hide HadMinPayment, ExistsForPeriod, KeyFree, ContractLog;
    var penalty, interest := PenaltyEvent(c, t, p - 1, now), InterestEvent(c, t, p, now);
    OwnSnoc(log, penalty, d);
    OwnSnoc(log + [penalty], interest, d);
    OwnSnoc(log, interest, d);
  }

  // ---------------------------------------------------------------- the contracts of one sub

  /** The tick of a contract on the log the job starts from. */
  function Alone(log: seq<Event>, terms: map<int, Terms>, z: Zone, c: int, now: nat): (seq<Event>, Tick)
    requires c in terms
  {
    TickStep(log, c, terms[c], IndexAt(z, terms[c], now), now)
  }

  predicate AllIn(contracts: seq<int>, terms: map<int, Terms>) {
    forall i | 0 <= i < |contracts| :: contracts[i] in terms
  }

  /** None of the first `n` contracts is refused. */
  predicate Reached(log: seq<Event>, terms: map<int, Terms>, z: Zone, contracts: seq<int>, now: nat, n: nat)
    requires AllIn(contracts, terms) && n <= |contracts|
  {
    forall j | 0 <= j < n :: Alone(log, terms, z, contracts[j], now).1 != Refused
  }

  function ChargedCount(log: seq<Event>, terms: map<int, Terms>, z: Zone, contracts: seq<int>, now: nat): int
    requires AllIn(contracts, terms)
  {
    Sum(seq(|contracts|, i requires 0 <= i < |contracts| => if Alone(log, terms, z, contracts[i], now).1.Charged? then 1 else 0))
  }

  predicate NoRepeats(xs: seq<int>) {
    forall i, j | 0 <= i < j < |xs| :: xs[i] != xs[j]
  }

  lemma CountedSnoc(log: seq<Event>, terms: map<int, Terms>, z: Zone, contracts: seq<int>, now: nat)
    requires contracts != [] && AllIn(contracts, terms)
    ensures
      var init, c := contracts[..|contracts| - 1], contracts[|contracts| - 1];
      ChargedCount(log, terms, z, contracts, now) == ChargedCount(log, terms, z, init, now) + if Alone(log, terms, z, c, now).1.Charged? then 1 else 0
  {
    hide Alone;
    var init := contracts[..|contracts| - 1];
    var ones := seq(|contracts|, i requires 0 <= i < |contracts| => if Alone(log, terms, z, contracts[i], now).1.Charged? then 1 else 0);
    assert ones[..|init|] == seq(|init|, i requires 0 <= i < |init| => if Alone(log, terms, z, init[i], now).1.Charged? then 1 else 0);
  }

  /** Each contract has what a tick of it alone writes, up to the first refusal; what follows it is left alone. */
  ghost predicate SubAlone(log: seq<Event>, after: seq<Event>, terms: map<int, Terms>, z: Zone, contracts: seq<int>, now: nat)
    requires AllIn(contracts, terms)
  {
    forall i | 0 <= i < |contracts| ::
      ContractLog(after, contracts[i])
      == if Reached(log, terms, z, contracts, now, i) then ContractLog(Alone(log, terms, z, contracts[i], now).0, contracts[i])
         else ContractLog(log, contracts[i])
  }

  ghost predicate EachAlone(log: seq<Event>, after: seq<Event>, terms: map<int, Terms>, z: Zone, contracts: seq<int>, now: nat)
    requires AllIn(contracts, terms)
  {
    SubAlone(log, after, terms, z, contracts, now) && forall c | c !in contracts :: ContractLog(after, c) == ContractLog(log, c)
  }

  lemma ReachedInit(log: seq<Event>, terms: map<int, Terms>, z: Zone, contracts: seq<int>, now: nat, n: nat, i: nat)
    requires AllIn(contracts, terms) && i <= n <= |contracts|
    ensures AllIn(contracts[..n], terms)
    ensures Reached(log, terms, z, contracts[..n], now, i) <==> Reached(log, terms, z, contracts, now, i)
  {
    hide Alone;
    assert forall j | 0 <= j < n :: contracts[..n][j] == contracts[j];
  }

  lemma AloneNext(log: seq<Event>, middle: seq<Event>, after: seq<Event>, terms: map<int, Terms>, z: Zone, contracts: seq<int>, now: nat)
    requires AllIn(contracts, terms) && contracts != [] && NoRepeats(contracts)
    requires AllIn(contracts[..|contracts| - 1], terms) && EachAlone(log, middle, terms, z, contracts[..|contracts| - 1], now)
    requires
      var n := |contracts| - 1;
      after == if Reached(log, terms, z, contracts, now, n) then Alone(middle, terms, z, contracts[n], now).0 else middle
    ensures EachAlone(log, after, terms, z, contracts, now)
  {
    hide TickStep, IndexAt, ContractLog, Reached;
    var n := |contracts| - 1;
    var init, c := contracts[..n], contracts[n];
    var p := IndexAt(z, terms[c], now);
    assert c !in init && contracts == init + [c];
    TickIsLocal(middle, log, c, terms[c], p, now);
    forall d | d != c
      ensures ContractLog(after, d) == ContractLog(middle, d)
    {
      TickLeavesOthers(middle, c, terms[c], p, now, d);
    }
    forall i | 0 <= i < n
      ensures contracts[i] == init[i] && contracts[i] != c
      ensures Reached(log, terms, z, init, now, i) <==> Reached(log, terms, z, contracts, now, i)
    {
      ReachedInit(log, terms, z, contracts, now, n, i);
    }
  }

  lemma {:induction false} ContractsAlone(log: seq<Event>, terms: map<int, Terms>, z: Zone, contracts: seq<int>, now: nat)
    requires AllIn(contracts, terms) && NoRepeats(contracts)
    ensures
      var done := ProcessContracts(log, terms, z, contracts, now);
      && EachAlone(log, done.log, terms, z, contracts, now)
      && (done.count.Some? <==> Reached(log, terms, z, contracts, now, |contracts|))
      && (done.count.Some? ==> done.count.value == ChargedCount(log, terms, z, contracts, now))
  {
    hide TickStep, IndexAt, ContractLog, ChargedCount, EachAlone;
    if contracts == [] {
      NoneCounted(log, terms, z, now);
    } else {
      var n := |contracts| - 1;
      var init, c := contracts[..n], contracts[n];
      var before, done := ProcessContracts(log, terms, z, init, now), ProcessContracts(log, terms, z, contracts, now);
      ContractsAlone(log, terms, z, init, now);
      CountedSnoc(log, terms, z, contracts, now);
      ReachedInit(log, terms, z, contracts, now, n, n);
      AloneNext(log, before.log, done.log, terms, z, contracts, now) by {
        RefusedWritesNothing(before.log, c, terms[c], IndexAt(z, terms[c], now), now);
      }
      LastIsLocal(log, before.log, terms, z, contracts, now);
    }
  }

  lemma RefusedWritesNothing(log: seq<Event>, c: int, t: Terms, p: nat, now: nat)
    ensures TickStep(log, c, t, p, now).1 == Refused ==> TickStep(log, c, t, p, now).0 == log
  {
  }

  lemma LastIsLocal(log: seq<Event>, middle: seq<Event>, terms: map<int, Terms>, z: Zone, contracts: seq<int>, now: nat)
    requires AllIn(contracts, terms) && contracts != [] && NoRepeats(contracts)
    requires AllIn(contracts[..|contracts| - 1], terms) && EachAlone(log, middle, terms, z, contracts[..|contracts| - 1], now)
    ensures Alone(middle, terms, z, contracts[|contracts| - 1], now).1 == Alone(log, terms, z, contracts[|contracts| - 1], now).1
  {
    hide TickStep, IndexAt, ContractLog, Reached;
    var c := contracts[|contracts| - 1];
    TickIsLocal(middle, log, c, terms[c], IndexAt(z, terms[c], now), now);
  }

  lemma NoneCounted(log: seq<Event>, terms: map<int, Terms>, z: Zone, now: nat)
    ensures ChargedCount(log, terms, z, [], now) == 0
    ensures EachAlone(log, log, terms, z, [], now)
  {
  }

  // ---------------------------------------------------------------- the whole job

  /** The contracts selected for a sub are its own, each once. */
  predicate OwnContracts(tables: Tables, terms: map<int, Terms>) {
    forall s | s in tables.contracts ::
      NoRepeats(tables.contracts[s]) && AllIn(tables.contracts[s], terms)
      && forall i | 0 <= i < |tables.contracts[s]| :: terms[tables.contracts[s][i]].sub == s
  }

  predicate DistinctSubs(subs: seq<Sub>) {
    forall i, j | 0 <= i < j < |subs| :: subs[i].id != subs[j].id
  }

  /** A sub's contracts as the job finds them. */
  function ContractsOf(tables: Tables, s: Sub): seq<int> {
    if s.isSub && s.active && s.id in tables.contracts then tables.contracts[s.id] else []
  }

  lemma ContractsKnown(tables: Tables, terms: map<int, Terms>, s: Sub)
    requires OwnContracts(tables, terms)
    ensures AllIn(ContractsOf(tables, s), terms) && NoRepeats(ContractsOf(tables, s)) && TablesOver(tables, terms)
    ensures forall c | c in ContractsOf(tables, s) :: c in terms && terms[c].sub == s.id
  {
    forall sub, i | sub in tables.contracts && 0 <= i < |tables.contracts[sub]|
      ensures tables.contracts[sub][i] in terms
    {
      assert AllIn(tables.contracts[sub], terms);
    }
  }

  // Logs with the same events of these contracts give them the same ticks.
  lemma SameStart(log: seq<Event>, other: seq<Event>, terms: map<int, Terms>, z: Zone, contracts: seq<int>, now: nat)
    requires AllIn(contracts, terms) && forall c | c in contracts :: ContractLog(log, c) == ContractLog(other, c)
    ensures forall n | 0 <= n <= |contracts| :: Reached(log, terms, z, contracts, now, n) <==> Reached(other, terms, z, contracts, now, n)
    ensures forall c | c in contracts :: ContractLog(Alone(log, terms, z, c, now).0, c) == ContractLog(Alone(other, terms, z, c, now).0, c)
    ensures ChargedCount(log, terms, z, contracts, now) == ChargedCount(other, terms, z, contracts, now)
  {
    hide TickStep, IndexAt, ContractLog, Sum;
    forall c | c in contracts
      ensures Alone(log, terms, z, c, now).1 == Alone(other, terms, z, c, now).1
      ensures ContractLog(Alone(log, terms, z, c, now).0, c) == ContractLog(Alone(other, terms, z, c, now).0, c)
    {
      TickIsLocal(log, other, c, terms[c], IndexAt(z, terms[c], now), now);
    }
    hide Alone;
    assert forall i | 0 <= i < |contracts| :: contracts[i] in contracts;
    assert seq(|contracts|, i requires 0 <= i < |contracts| => if Alone(log, terms, z, contracts[i], now).1.Charged? then 1 else 0)
      == seq(|contracts|, i requires 0 <= i < |contracts| => if Alone(other, terms, z, contracts[i], now).1.Charged? then 1 else 0);
  }

  lemma StartAgain(log: seq<Event>, other: seq<Event>, after: seq<Event>, terms: map<int, Terms>, z: Zone, contracts: seq<int>, now: nat)
    requires AllIn(contracts, terms) && forall c | c in contracts :: ContractLog(log, c) == ContractLog(other, c)
    requires EachAlone(other, after, terms, z, contracts, now)
    ensures SubAlone(log, after, terms, z, contracts, now)
  {
    SameStart(log, other, terms, z, contracts, now);
    hide Alone, ContractLog, Reached;
    assert forall i | 0 <= i < |contracts| :: contracts[i] in contracts;
  }

  // One more sub: its contracts move, and no other.
  lemma SubNext(log: seq<Event>, tables: Tables, terms: map<int, Terms>, z: Zone, subs: seq<Sub>, now: nat)
    requires OwnContracts(tables, terms) && TablesOver(tables, terms) && subs != []
    requires
      var s := subs[|subs| - 1];
      var before := Process(log, tables, terms, z, subs[..|subs| - 1], now);
      forall c | c in ContractsOf(tables, s) :: ContractLog(before.log, c) == ContractLog(log, c)
    ensures
      var s := subs[|subs| - 1];
      var cs := ContractsOf(tables, s);
      var before, done := Process(log, tables, terms, z, subs[..|subs| - 1], now), Process(log, tables, terms, z, subs, now);
      && AllIn(cs, terms)
      && SubAlone(log, done.log, terms, z, cs, now)
      && (forall c | c !in cs :: ContractLog(done.log, c) == ContractLog(before.log, c))
      && done.errors == (if Reached(log, terms, z, cs, now, |cs|) then before.errors else before.errors + [s.id])
      && done.summary.contracts == before.summary.contracts
           + if Reached(log, terms, z, cs, now, |cs|) then ChargedCount(log, terms, z, cs, now) else 0
  {
    hide ProcessContracts, ContractLog, ChargedCount, Alone, Reached;
    var s := subs[|subs| - 1];
    var cs := ContractsOf(tables, s);
    var before := Process(log, tables, terms, z, subs[..|subs| - 1], now);
    ContractsKnown(tables, terms, s);
    ContractsAlone(before.log, terms, z, cs, now);
    StartAgain(log, before.log, ProcessContracts(before.log, terms, z, cs, now).log, terms, z, cs, now);
    SameStart(log, before.log, terms, z, cs, now);
    NothingReached(log, terms, z, now);
  }

  lemma NothingReached(log: seq<Event>, terms: map<int, Terms>, z: Zone, now: nat)
    ensures Reached(log, terms, z, [], now, 0) && ChargedCount(log, terms, z, [], now) == 0
  {
  }

  /**
   After the job each contract of an active sub has what a tick of it alone writes, unless one
   before it among that sub's is refused; every other contract is as it was.  The errors are the
   subs with a refused contract, and a sub's charges are counted exactly when it is not among them.
   */
  lemma {:induction false} JobIsEachAlone(log: seq<Event>, tables: Tables, terms: map<int, Terms>, z: Zone, subs: seq<Sub>, now: nat)
    requires OwnContracts(tables, terms) && TablesOver(tables, terms) && DistinctSubs(subs)
    ensures
      var done := Process(log, tables, terms, z, subs, now);
      && (forall s | s in subs :: AllIn(ContractsOf(tables, s), terms) && SubAlone(log, done.log, terms, z, ContractsOf(tables, s), now))
      && (forall c | (forall s | s in subs :: c !in ContractsOf(tables, s)) :: ContractLog(done.log, c) == ContractLog(log, c))
      && (forall s | s in subs ::
            s.id in done.errors <==> !Reached(log, terms, z, ContractsOf(tables, s), now, |ContractsOf(tables, s)|))
      && (forall id | id in done.errors :: exists s | s in subs :: s.id == id)
  {
    hide Process, ContractLog, ContractsOf, Alone, Reached, SubAlone;
    if subs == [] {
      NoJob(log, tables, terms, z, now);
    } else {
      var init, last := subs[..|subs| - 1], subs[|subs| - 1];
      var before, done := Process(log, tables, terms, z, init, now), Process(log, tables, terms, z, subs, now);
      JobIsEachAlone(log, tables, terms, z, init, now);
      assert subs == init + [last];
      assert last !in init && forall s | s in init :: s.id != last.id;
      forall s | s in subs
        ensures AllIn(ContractsOf(tables, s), terms) && forall c | c in ContractsOf(tables, s) :: c in terms && terms[c].sub == s.id
      {
        ContractsKnown(tables, terms, s);
      }
      SubNext(log, tables, terms, z, subs, now);
      forall s | s in init
        ensures SubAlone(log, done.log, terms, z, ContractsOf(tables, s), now)
      {
        SubKept(log, before.log, done.log, terms, z, ContractsOf(tables, s), now);
      }
    }
  }

  lemma SubKept(log: seq<Event>, before: seq<Event>, after: seq<Event>, terms: map<int, Terms>, z: Zone, contracts: seq<int>, now: nat)
    requires AllIn(contracts, terms) && SubAlone(log, before, terms, z, contracts, now)
    requires forall c | c in contracts :: ContractLog(after, c) == ContractLog(before, c)
    ensures SubAlone(log, after, terms, z, contracts, now)
  {
    hide ContractLog, Alone, Reached;
  }

  lemma NoJob(log: seq<Event>, tables: Tables, terms: map<int, Terms>, z: Zone, now: nat)
    requires TablesOver(tables, terms)
    ensures Process(log, tables, terms, z, [], now) == Progress(log, Summary(0, 0, 0), [])
  {
  }

  /** What one sub adds to the count of the summary. */
  function SubCharges(log: seq<Event>, tables: Tables, terms: map<int, Terms>, z: Zone, s: Sub, now: nat): int
    requires OwnContracts(tables, terms)
  {
    ContractsKnown(tables, terms, s);
    var cs := ContractsOf(tables, s);
    if Reached(log, terms, z, cs, now, |cs|) then ChargedCount(log, terms, z, cs, now) else 0
  }

  lemma {:induction false} JobCharges(log: seq<Event>, tables: Tables, terms: map<int, Terms>, z: Zone, subs: seq<Sub>, now: nat)
    requires OwnContracts(tables, terms) && TablesOver(tables, terms) && DistinctSubs(subs)
    ensures Process(log, tables, terms, z, subs, now).summary.contracts
      == Sum(seq(|subs|, i requires 0 <= i < |subs| => SubCharges(log, tables, terms, z, subs[i], now)))
  {
    hide Process, ContractLog, ContractsOf, Alone, Reached, SubAlone, SubCharges;
    if subs == [] {
      NoJob(log, tables, terms, z, now);
    } else {
      var init, last := subs[..|subs| - 1], subs[|subs| - 1];
      JobCharges(log, tables, terms, z, init, now);
      JobIsEachAlone(log, tables, terms, z, init, now);
      assert forall s | s in init :: s.id != last.id;
      forall s | s in subs
        ensures forall c | c in ContractsOf(tables, s) :: c in terms && terms[c].sub == s.id
      {
        ContractsKnown(tables, terms, s);
      }
      SubNext(log, tables, terms, z, subs, now);
      ChargesOf(log, tables, terms, z, last, now);
      var counts := seq(|subs|, i requires 0 <= i < |subs| => SubCharges(log, tables, terms, z, subs[i], now));
      assert counts[..|init|] == seq(|init|, i requires 0 <= i < |init| => SubCharges(log, tables, terms, z, init[i], now));
    }
  }

  lemma ChargesOf(log: seq<Event>, tables: Tables, terms: map<int, Terms>, z: Zone, s: Sub, now: nat)
    requires OwnContracts(tables, terms) && AllIn(ContractsOf(tables, s), terms)
    ensures SubCharges(log, tables, terms, z, s, now)
      == if Reached(log, terms, z, ContractsOf(tables, s), now, |ContractsOf(tables, s)|) then ChargedCount(log, terms, z, ContractsOf(tables, s), now) else 0
  {
  }
}
