/**
 Whole runs of the contract ledger: ticks of the daily job, bulk penalties, the events the other
 controllers write, signatures and endings, in any order, under a clock that does not go back.
 */
module Runs {
  import opened Calendar
  import opened Cron
  import opened LatePenalty
  import opened Ledger
  import opened Periods
  import opened Sums
  import opened Wrappers

  datatype Op =
    | TickOp(contract: int, now: nat)
    // payments, adjustments, surprise penalties and buyouts: none of them sets a period index
    | WriteOp(contract: int, kind: EventType, amount: int, now: nat)
    | BulkOp(goddess: int, ids: seq<int>, now: nat)
    // changed clauses take the signature back; the sub signs, the first time or again
    | ReviseOp(contract: int, now: nat)
    | SignOp(contract: int, now: nat)
    // breach, or any other end
    | EndOp(contract: int, now: nat)

  datatype Status = Unsigned | Active | Ended
  datatype Standing = Standing(status: Status, signedAt: Option<nat>)

  // The terms are fixed before the first signature; `signedAt` is taken from the standing.
  datatype Book = Book(z: Zone, terms: map<int, Terms>)

  datatype State = State(log: seq<Event>, standing: map<int, Standing>)

  function StandingOf(s: State, c: int): Standing {
    if c in s.standing then s.standing[c] else Standing(Unsigned, None)
  }

  predicate IsActive(s: State, c: int) {
    StandingOf(s, c).status == Active
  }

  function TermsAt(book: Book, s: State, c: int): Terms
    requires c in book.terms
  {
    book.terms[c].(signedAt := StandingOf(s, c).signedAt)
  }

  function AllTerms(book: Book, s: State): map<int, Terms> {
    map c | c in book.terms :: TermsAt(book, s, c)
  }

  function ActiveIds(book: Book, s: State): set<int> {
    set c | c in book.terms && IsActive(s, c)
  }

  function IndexNow(book: Book, s: State, c: int, now: nat): nat
    requires c in book.terms
  {
    IndexAt(book.z, TermsAt(book, s, c), now)
  }

  /** The tick the daily job makes of one of the contracts it selects. */
  function TickNow(book: Book, s: State, c: int, now: nat): (seq<Event>, Tick)
    requires c in book.terms
  {
    if IsActive(s, c) then TickStep(s.log, c, TermsAt(book, s, c), IndexNow(book, s, c, now), now) else (s.log, Skipped)
  }

  predicate Allowed(book: Book, op: Op) {
    match op
    case BulkOp(_, _, _) => true
    case WriteOp(c, kind, _, _) => c in book.terms && kind in {PaymentApplied, Adjustment, SurprisePenalty, BuyoutPaid}
    case _ => op.contract in book.terms
  }

  predicate ValidRun(book: Book, ops: seq<Op>) {
    && (forall i | 0 <= i < |ops| :: Allowed(book, ops[i]))
    && forall i, j | 0 <= i < j < |ops| :: ops[i].now <= ops[j].now
  }

  function Move(s: State, c: int, standing: Standing): State {
    s.(standing := s.standing[c := standing])
  }

  function Step(book: Book, s: State, op: Op): State
    requires Allowed(book, op)
  {
    match op
    case TickOp(c, now) => s.(log := TickNow(book, s, c, now).0)
    case WriteOp(c, kind, amount, now) =>
      // an adjustment may be accepted at any time, the others need an active contract
      if kind != Adjustment && !IsActive(s, c) then s
      else
        var written := s.(log := s.log + [Event(c, kind, amount, None, now)]);
        if kind == BuyoutPaid then Move(written, c, StandingOf(s, c).(status := Ended)) else written
    case BulkOp(goddess, ids, now) => s.(log := BulkLog(book.z, s.log, AllTerms(book, s), ActiveIds(book, s), goddess, ids, now))
    case ReviseOp(c, _) => if IsActive(s, c) then Move(s, c, Standing(Unsigned, None)) else s
    case SignOp(c, now) => if StandingOf(s, c).status == Unsigned then Move(s, c, Standing(Active, Some(now))) else s
    case EndOp(c, _) => if IsActive(s, c) then Move(s, c, StandingOf(s, c).(status := Ended)) else s
  }

  function Run(book: Book, ops: seq<Op>): State
    requires ValidRun(book, ops)
  {
    if ops == [] then State([], map[]) else Step(book, Run(book, ops[..|ops| - 1]), ops[|ops| - 1])
  }

  function Clock(ops: seq<Op>): nat {
    if ops == [] then 0 else ops[|ops| - 1].now
  }

  /** No bulk penalty names contract `c`. */
  predicate CronOnly(ops: seq<Op>, c: int) {
    forall i | 0 <= i < |ops| && ops[i].BulkOp? :: c !in ops[i].ids
  }

  lemma RunStep(book: Book, ops: seq<Op>)
    requires ValidRun(book, ops) && ops != []
    ensures ValidRun(book, ops[..|ops| - 1]) && Allowed(book, ops[|ops| - 1])
    ensures Clock(ops[..|ops| - 1]) <= ops[|ops| - 1].now == Clock(ops)
    ensures Run(book, ops) == Step(book, Run(book, ops[..|ops| - 1]), ops[|ops| - 1])
  {
  }

  /** The events a step appends for one contract: none, or those of its tick, write or bulk penalty. */
  function Appended(book: Book, s: State, op: Op): (events: seq<Event>)
    requires Allowed(book, op)
    ensures Step(book, s, op).log == s.log + events
  {
    assert s.log <= Step(book, s, op).log;
    Step(book, s, op).log[|s.log|..]
  }

  // ---------------------------------------------------------------- the audit

  predicate Interest(e: Event, c: int) {
    e.contract == c && e.kind == PeriodInterest
  }

  predicate Penalty(e: Event, c: int) {
    e.contract == c && e.kind == LatePenalty
  }

  /** Interest was charged for period `k`, and the payments since then miss the minimum. */
  predicate Missed(log: seq<Event>, c: int, minimum: int, k: int) {
    var at := ChargedAt(log, c, k);
    1 <= k && at.Some? && PaidSince(log, c, at.value) < minimum
  }

  predicate Penalised(log: seq<Event>, c: int, i: nat, k: int)
    requires i < |log|
  {
    0 < i && Penalty(log[i - 1], c) && log[i - 1].period == Some(k)
  }

  predicate InterestNumbered(log: seq<Event>, c: int) {
    forall i | 0 <= i < |log| && Interest(log[i], c) :: log[i].period.Some? && 1 <= log[i].period.value
  }

  predicate PenaltiesFollowed(log: seq<Event>, c: int) {
    forall i | 0 <= i < |log| && Penalty(log[i], c) ::
      log[i].period.Some? && i + 1 < |log| && IsInterest(log[i + 1], c, log[i].period.value + 1)
  }

  /**
   The log explains itself: each penalty stands directly before the interest of the next period,
   and interest is preceded by a penalty for the period before it exactly when that period was
   charged and its minimum payment missed by then.
   */
  ghost predicate Audit(log: seq<Event>, c: int, minimum: int) {
    && InterestNumbered(log, c)
    && PenaltiesFollowed(log, c)
    && forall i | 0 <= i < |log| && Interest(log[i], c) ::
        Penalised(log, c, i, log[i].period.value - 1) <==> Missed(log[..i], c, minimum, log[i].period.value - 1)
  }

  lemma AuditOther(log: seq<Event>, e: Event, c: int, minimum: int)
    requires Audit(log, c, minimum)
    requires !Interest(e, c) && !Penalty(e, c)
    ensures Audit(log + [e], c, minimum)
  {
    hide ChargedAt, PaidSince;
    var all := log + [e];
    forall i | 0 <= i < |all| && Interest(all[i], c)
      ensures Penalised(all, c, i, all[i].period.value - 1) <==> Missed(all[..i], c, minimum, all[i].period.value - 1)
    {
      assert all[..i] == log[..i];
    }
  }

  lemma MissedSnoc(log: seq<Event>, e: Event, c: int, minimum: int, k: int)
    requires Penalty(e, c)
    ensures Missed(log + [e], c, minimum, k) <==> Missed(log, c, minimum, k)
  {
    assert (log + [e])[..|log|] == log;
  }

  lemma {:induction false} NotCharged(log: seq<Event>, c: int, k: int)
    ensures ChargedAt(log, c, k).Some? <==> ExistsForPeriod(log, c, k, PeriodInterest)
  {
    if log == [] {
    } else {
      var init, last := log[..|log| - 1], log[|log| - 1];
      assert log == init + [last];
      NotCharged(init, c, k);
      ExistsSnoc(init, last, c, k, PeriodInterest);
    }
  }

  lemma PenaltyHasInterest(log: seq<Event>, c: int, k: int)
    requires PenaltiesFollowed(log, c)
    ensures ExistsForPeriod(log, c, k, LatePenalty) ==> ExistsForPeriod(log, c, k + 1, PeriodInterest)
  {
    if ExistsForPeriod(log, c, k, LatePenalty) {
      var i :| 0 <= i < |log| && log[i].contract == c && log[i].kind == LatePenalty && log[i].period == Some(k);
      assert IsInterest(log[i + 1], c, k + 1);
    }
  }

  function Charge(log: seq<Event>, c: int, t: Terms, p: nat, now: nat, late: bool): seq<Event>
    requires 1 <= p
  {
    if late then log + [PenaltyEvent(c, t, p - 1, now)] + [InterestEvent(c, t, p, now)]
    else log + [InterestEvent(c, t, p, now)]
  }

  /** The penalty a charge of period `k` would owe is already in the log. */
  predicate Blocked(log: seq<Event>, c: int, minimum: int, k: int) {
    Missed(log, c, minimum, k - 1) && ExistsForPeriod(log, c, k - 1, LatePenalty)
  }

  /** What a tick does to any log. */
  lemma TickClosed(log: seq<Event>, c: int, t: Terms, p: nat, now: nat)
    ensures
      var late := Missed(log, c, t.minimumPayment, p - 1);
      TickStep(log, c, t, p, now) ==
        if p == 0 || ExistsForPeriod(log, c, p, PeriodInterest) then (log, Skipped)
        else if Blocked(log, c, t.minimumPayment, p) then (log, Refused)
        else (Charge(log, c, t, p, now, late), Charged(late))
  {
    hide ChargedAt, PaidSince;
    if 2 <= p {
      KeyFreeIsAbsent(log, PenaltyEvent(c, t, p - 1, now));
    }
  }

  /** A log whose penalties are all followed by interest blocks nothing. */
  lemma TickCharges(log: seq<Event>, c: int, t: Terms, p: nat, now: nat)
    requires PenaltiesFollowed(log, c)
    ensures
      var late := Missed(log, c, t.minimumPayment, p - 1);
      TickStep(log, c, t, p, now) ==
        if 1 <= p && !ExistsForPeriod(log, c, p, PeriodInterest) then (Charge(log, c, t, p, now, late), Charged(late)) else (log, Skipped)
  {
    hide TickStep, Missed, PenaltiesFollowed, ExistsForPeriod;
    TickClosed(log, c, t, p, now);
    PenaltyHasInterest(log, c, p - 1);
  }

  lemma AuditTick(log: seq<Event>, c: int, t: Terms, p: nat, now: nat)
    requires Audit(log, c, t.minimumPayment)
    ensures TickStep(log, c, t, p, now).1 != Refused
    ensures Audit(TickStep(log, c, t, p, now).0, c, t.minimumPayment)
  {
    hide TickStep, Missed;
    TickCharges(log, c, t, p, now);
    if 1 <= p && !ExistsForPeriod(log, c, p, PeriodInterest) {
      AuditCharge(log, c, t, p, now);
    }
  }

  lemma FollowedCharge(log: seq<Event>, c: int, t: Terms, p: nat, now: nat, late: bool)
    requires InterestNumbered(log, c) && PenaltiesFollowed(log, c) && 1 <= p
    ensures InterestNumbered(Charge(log, c, t, p, now, late), c)
    ensures PenaltiesFollowed(Charge(log, c, t, p, now, late), c)
  {
    var after := Charge(log, c, t, p, now, late);
    assert forall i | 0 <= i < |log| :: after[i] == log[i];
  }

  lemma AuditCharge(log: seq<Event>, c: int, t: Terms, p: nat, now: nat)
    requires Audit(log, c, t.minimumPayment) && 1 <= p
    ensures Audit(Charge(log, c, t, p, now, Missed(log, c, t.minimumPayment, p - 1)), c, t.minimumPayment)
  {
    var penalty, late := PenaltyEvent(c, t, p - 1, now), Missed(log, c, t.minimumPayment, p - 1);
    var after := Charge(log, c, t, p, now, late);
    FollowedCharge(log, c, t, p, now, late);
    hide ChargedAt, PaidSince, Missed;
    forall i | 0 <= i < |after| && Interest(after[i], c)
      ensures Penalised(after, c, i, after[i].period.value - 1) <==> Missed(after[..i], c, t.minimumPayment, after[i].period.value - 1)
    {
      if i < |log| {
        assert after[..i] == log[..i] && after[i] == log[i];
        assert 0 < i ==> after[i - 1] == log[i - 1];
      } else if late {
        assert after[..i] == log + [penalty];
        MissedSnoc(log, penalty, c, t.minimumPayment, p - 1);
      } else {
        assert after[..i] == log;
        assert 0 < i ==> after[i - 1] == log[i - 1];
      }
    }
  }

  /** Appending events of other contracts, or of kinds a tick never writes, keeps the audit. */
  lemma {:induction false} AuditOthers(log: seq<Event>, events: seq<Event>, c: int, minimum: int)
    requires Audit(log, c, minimum)
    requires forall i | 0 <= i < |events| :: !Interest(events[i], c) && !Penalty(events[i], c)
    ensures Audit(log + events, c, minimum)
  {
    hide Audit;
    if events == [] {
      assert log + events == log;
    } else {
      var init, last := events[..|events| - 1], events[|events| - 1];
      AuditOthers(log, init, c, minimum);
      assert log + events == (log + init) + [last];
      AuditOther(log + init, last, c, minimum);
    }
  }

  /** A step is a tick of `c`, a bulk penalty that names it, or appends no interest and no penalty of `c`. */
  lemma OtherSteps(book: Book, s: State, op: Op, c: int)
    requires Allowed(book, op) && c in book.terms
    requires !(op.TickOp? && op.contract == c) && !(op.BulkOp? && c in op.ids)
    ensures forall i | 0 <= i < |Appended(book, s, op)| :: !Interest(Appended(book, s, op)[i], c) && !Penalty(Appended(book, s, op)[i], c)
  {
    hide IndexNow, HadMinPayment, ExistsForPeriod, KeyFree, Judge;
    var after := Step(book, s, op);
    var events := Appended(book, s, op);
    forall i | 0 <= i < |events|
      ensures !Interest(events[i], c) && !Penalty(events[i], c)
    {
      assert after.log[|s.log| + i] == events[i];
      if op.BulkOp? {
        BulkAppends(book, s, op, c, i);
      }
    }
  }

  lemma BulkAppends(book: Book, s: State, op: Op, c: int, i: nat)
    requires Allowed(book, op) && op.BulkOp? && i < |Appended(book, s, op)|
    ensures
      var e := Appended(book, s, op)[i];
      && e.contract in op.ids && e.kind == LatePenalty
      && Judge(book.z, s.log, AllTerms(book, s), ActiveIds(book, s), op.goddess, e.contract, op.now) == Applied
      && e == BulkEvent(book.z, AllTerms(book, s), e.contract, op.now)
  {
    hide Judge, IndexAt;
    var terms, active := AllTerms(book, s), ActiveIds(book, s);
    var applied := Judged(book.z, s.log, terms, active, op.goddess, op.ids, op.now, Applied);
    PickedFrom(op.ids, d => Judge(book.z, s.log, terms, active, op.goddess, d, op.now) == Applied);
    assert Appended(book, s, op) == BulkEvents(book.z, terms, applied, op.now);
    assert applied[i] in applied;
  }

  /** In every run without bulk penalties on a contract its log passes the audit, re-signed or not. */
  lemma {:induction false} CronLogAudits(book: Book, ops: seq<Op>, c: int)
    requires ValidRun(book, ops) && CronOnly(ops, c) && c in book.terms
    ensures Audit(Run(book, ops).log, c, book.terms[c].minimumPayment)
  {
    hide Audit, Step, IndexNow, TickStep;
    if ops == [] {
      EmptyAudits(c, book.terms[c].minimumPayment);
    } else {
      var init, op := ops[..|ops| - 1], ops[|ops| - 1];
      CronLogAudits(book, init, c);
      StepAudits(book, Run(book, init), op, c);
    }
  }

  lemma EmptyAudits(c: int, minimum: int)
    ensures Audit([], c, minimum)
  {
  }

  lemma StepAudits(book: Book, s: State, op: Op, c: int)
    requires Allowed(book, op) && c in book.terms && !(op.BulkOp? && c in op.ids)
    requires Audit(s.log, c, book.terms[c].minimumPayment)
    ensures Audit(Step(book, s, op).log, c, book.terms[c].minimumPayment)
  {
    hide Audit, IndexAt, TickStep, BulkLog;
    if op.TickOp? && op.contract == c {
      AuditTick(s.log, c, TermsAt(book, s, c), IndexNow(book, s, c, op.now), op.now);
    } else {
      OtherSteps(book, s, op, c);
      AuditOthers(s.log, Appended(book, s, op), c, book.terms[c].minimumPayment);
    }
  }

  /** Hence no tick of such a run ever runs into the uniqueness key. */
  lemma CronNeverRefused(book: Book, ops: seq<Op>, c: int, now: nat)
    requires ValidRun(book, ops) && CronOnly(ops, c) && c in book.terms
    ensures TickNow(book, Run(book, ops), c, now).1 != Refused
  {
    hide Audit, IndexAt, Run, TickStep;
    CronLogAudits(book, ops, c);
    var s := Run(book, ops);
    AuditTick(s.log, c, TermsAt(book, s, c), IndexNow(book, s, c, now), now);
  }

  /**
   In such a run the tick of an active contract in period p charges p exactly when that is not
   yet charged, and then writes a penalty for p - 1 exactly when interest for p - 1 was charged
   before and the payments since then miss the minimum.
   */
  lemma PenaltyIff(book: Book, ops: seq<Op>, c: int, now: nat)
    requires ValidRun(book, ops) && CronOnly(ops, c) && c in book.terms
    ensures
      var s := Run(book, ops);
      var p := IndexNow(book, s, c, now);
      var tick := TickNow(book, s, c, now).1;
      && (tick.Charged? <==> IsActive(s, c) && 1 <= p && !ExistsForPeriod(s.log, c, p, PeriodInterest))
      && (tick.Charged? ==> (tick.penalised <==> Missed(s.log, c, book.terms[c].minimumPayment, p - 1)))
  {
    hide IndexAt, Run, Missed, TickStep, ExistsForPeriod;
    CronLogAudits(book, ops, c);
    var s := Run(book, ops);
    TickCharges(s.log, c, TermsAt(book, s, c), IndexNow(book, s, c, now), now);
  }

  /**
   The same in terms of the log alone. A tick that charges p in such a run appends the interest
   of p at the contract's rate, and before it the penalty of p - 1 at the contract's percentage
   exactly when interest for p - 1 is in the log and the contract's payments stamped at its time
   or later, added up, fall short of the minimum.
   */
  lemma PenaltyBySum(book: Book, ops: seq<Op>, c: int, now: nat)
    requires ValidRun(book, ops) && CronOnly(ops, c) && c in book.terms && TickNow(book, Run(book, ops), c, now).1.Charged?
    ensures
      var log, t, p := Run(book, ops).log, book.terms[c], IndexNow(book, Run(book, ops), c, now);
      var short := exists i | 0 <= i < |log| ::
        && log[i].contract == c && log[i].kind == PeriodInterest && log[i].period == Some(p - 1)
        && Sum(seq(|log|, j requires 0 <= j < |log| =>
             if log[j].contract == c && log[j].kind == PaymentApplied && log[i].at <= log[j].at then log[j].amount else 0)) < t.minimumPayment;
      TickNow(book, Run(book, ops), c, now).0 ==
        log + (if short then [Event(c, LatePenalty, t.latePenalty, Some(p - 1), now)] else [])
            + [Event(c, PeriodInterest, t.periodRate, Some(p), now)]
  {
    hide IndexAt, Run, TickStep, PaidSince, ChargedAt;
    var s := Run(book, ops);
    var log, t, p := s.log, book.terms[c], IndexNow(book, s, c, now);
    CronLogAudits(book, ops, c);
    ChargedOnce(book, ops);
    TickCharges(log, c, TermsAt(book, s, c), p, now);
    ChargedAtIs(log, c, p - 1);
    if ChargedAt(log, c, p - 1).Some? {
      var i :| 0 <= i < |log| && log[i].contract == c && log[i].kind == PeriodInterest && log[i].period == Some(p - 1)
               && log[i].at == ChargedAt(log, c, p - 1).value;
      PaidSinceIsSum(log, c, log[i].at);
      OnlyCharge(log, c, p - 1, i);
    }
  }

  lemma OnlyCharge(log: seq<Event>, c: int, k: int, i: int)
    requires UniqueKeys(log) && 0 <= i < |log| && log[i].contract == c && log[i].kind == PeriodInterest && log[i].period == Some(k)
    ensures forall j | 0 <= j < |log| && log[j].contract == c && log[j].kind == PeriodInterest && log[j].period == Some(k) :: j == i
  {
    forall j | 0 <= j < |log| && log[j].contract == c && log[j].kind == PeriodInterest && log[j].period == Some(k)
      ensures j == i
    {
      assert SameKey(log[i], log[j]) && SameKey(log[j], log[i]);
    }
  }

  // ---------------------------------------------------------------- what one step adds

  lemma TickExists(log: seq<Event>, d: int, t: Terms, p: nat, now: nat, c: int, k: int, kind: EventType)
    ensures ExistsForPeriod(TickStep(log, d, t, p, now).0, c, k, kind)
      <==> (ExistsForPeriod(log, c, k, kind)
        || (d == c && kind == PeriodInterest && k == p && TickStep(log, d, t, p, now).1.Charged?)
        || (d == c && kind == LatePenalty && k == p - 1 && TickStep(log, d, t, p, now).1 == Charged(true)))
  {
    hide ExistsForPeriod, HadMinPayment, KeyFree;
    if 1 <= p {
      var penalty, interest := PenaltyEvent(d, t, p - 1, now), InterestEvent(d, t, p, now);
      ExistsSnoc(log, penalty, c, k, kind);
      ExistsSnoc(log + [penalty], interest, c, k, kind);
      ExistsSnoc(log, interest, c, k, kind);
    }
  }

  /** What one step adds to the keys of contract `c`. */
  lemma StepExists(book: Book, s: State, op: Op, c: int, k: int, kind: EventType)
    requires Allowed(book, op) && c in book.terms && kind in {PeriodInterest, LatePenalty, PaymentApplied}
    requires !ExistsForPeriod(s.log, c, k, kind) && ExistsForPeriod(Step(book, s, op).log, c, k, kind)
    ensures kind != PaymentApplied
    ensures kind == PeriodInterest ==>
      op.TickOp? && op.contract == c && IsActive(s, c) && k == IndexNow(book, s, c, op.now) && TickNow(book, s, c, op.now).1.Charged?
    ensures kind == LatePenalty ==>
      if op.TickOp? then ExistsForPeriod(Step(book, s, op).log, c, k + 1, PeriodInterest)
      else op.BulkOp? && c in op.ids && k == IndexNow(book, s, c, op.now)
  {
    hide ExistsForPeriod, TickStep, IndexAt, Judge;
    match op
    case TickOp(d, now) =>
      var t, p := TermsAt(book, s, d), IndexNow(book, s, d, now);
      TickExists(s.log, d, t, p, now, c, k, kind);
      TickExists(s.log, d, t, p, now, c, k + 1, PeriodInterest);
    case WriteOp(d, other, amount, now) =>
      ExistsSnoc(s.log, Event(d, other, amount, None, now), c, k, kind);
    case BulkOp(goddess, ids, now) =>
      var terms, active := AllTerms(book, s), ActiveIds(book, s);
      var applied := Judged(book.z, s.log, terms, active, goddess, ids, now, Applied);
      PickedFrom(ids, d => Judge(book.z, s.log, terms, active, goddess, d, now) == Applied);
      ExistsInBulk(book.z, s.log, terms, applied, now, c, k, kind);
    case _ =>
  }

  lemma StepKeeps(book: Book, s: State, op: Op, c: int, k: int, kind: EventType)
    requires Allowed(book, op) && ExistsForPeriod(s.log, c, k, kind)
    ensures ExistsForPeriod(Step(book, s, op).log, c, k, kind)
  {
    var after := Step(book, s, op).log;
    var i :| 0 <= i < |s.log| && s.log[i].contract == c && s.log[i].kind == kind && s.log[i].period == Some(k);
    assert after == s.log + Appended(book, s, op) && after[i] == s.log[i];
  }

  lemma EmptyLog(c: int, k: int, kind: EventType)
    ensures !ExistsForPeriod([], c, k, kind)
  {
  }

  // ---------------------------------------------------------------- every run: the key, the order, what is lost

  lemma {:induction false} UniqueMore(log: seq<Event>, events: seq<Event>)
    requires UniqueKeys(log)
    requires forall i | 0 <= i < |events| :: KeyFree(log, events[i]) && forall j | 0 <= j < i :: !SameKey(events[j], events[i])
    ensures UniqueKeys(log + events)
  {
    var all := log + events;
    forall i, j | 0 <= i < j < |all|
      ensures !SameKey(all[i], all[j])
    {
      if |log| <= j {
        assert all[j] == events[j - |log|];
        if i < |log| {
          assert KeyFree(log, events[j - |log|]) && all[i] == log[i];
        } else {
          assert all[i] == events[i - |log|];
        }
      }
    }
  }

  lemma TickUnique(log: seq<Event>, c: int, t: Terms, p: nat, now: nat)
    requires UniqueKeys(log)
    ensures UniqueKeys(TickStep(log, c, t, p, now).0)
  {
    hide UniqueKeys, HadMinPayment, ExistsForPeriod;
    if TickStep(log, c, t, p, now).1.Charged? {
      var penalty, interest := PenaltyEvent(c, t, p - 1, now), InterestEvent(c, t, p, now);
      KeyFreeIsAbsent(log, interest);
      UniqueMore(log, [interest]);
      if TickStep(log, c, t, p, now).1.penalised {
        UniqueMore(log, [penalty, interest]);
        assert log + [penalty] + [interest] == log + [penalty, interest];
      }
    }
  }

  lemma BulkUnique(book: Book, s: State, op: Op)
    requires Allowed(book, op) && op.BulkOp? && UniqueKeys(s.log)
    ensures UniqueKeys(Step(book, s, op).log)
  {
    hide UniqueKeys, IndexAt, PastPeriodStart, KeyFree, ExistsForPeriod;
    var events := Appended(book, s, op);
    var terms, active := AllTerms(book, s), ActiveIds(book, s);
    var applied := Judged(book.z, s.log, terms, active, op.goddess, op.ids, op.now, Applied);
    assert events == BulkEvents(book.z, terms, applied, op.now);
    PickedOnce(op.ids, d => Judge(book.z, s.log, terms, active, op.goddess, d, op.now) == Applied);
    forall i | 0 <= i < |events|
      ensures KeyFree(s.log, events[i]) && forall j | 0 <= j < i :: !SameKey(events[j], events[i])
    {
      BulkAppends(book, s, op, applied[i], i);
      assert events[i].contract == applied[i];
      KeyFreeIsAbsent(s.log, events[i]);
      forall j | 0 <= j < i
        ensures !SameKey(events[j], events[i])
      {
        assert events[j].contract == applied[j];
      }
    }
    UniqueMore(s.log, events);
  }

  /**
   In every run, bulk penalties and re-signing included, the log respects its uniqueness key: no
   period of a contract is charged, or penalised, twice.
   */
  lemma {:induction false} ChargedOnce(book: Book, ops: seq<Op>)
    requires ValidRun(book, ops)
    ensures UniqueKeys(Run(book, ops).log)
  {
    hide UniqueKeys, TickStep, BulkLog, IndexAt;
    if ops == [] {
      NoKeys();
    } else {
      var init, op := ops[..|ops| - 1], ops[|ops| - 1];
      ChargedOnce(book, init);
      var s := Run(book, init);
      match op
      case TickOp(c, now) => TickUnique(s.log, c, TermsAt(book, s, c), IndexNow(book, s, c, now), now);
      case BulkOp(_, _, _) => BulkUnique(book, s, op);
      case WriteOp(c, kind, amount, now) => WriteUnique(s.log, Event(c, kind, amount, None, now));
      case _ =>
    }
  }

  lemma NoKeys()
    ensures UniqueKeys([])
  {
  }

  lemma WriteUnique(log: seq<Event>, e: Event)
    requires UniqueKeys(log) && e.period.None?
    ensures UniqueKeys(log + [e])
  {
    UniqueMore(log, [e]);
  }

  ghost predicate InterestRises(log: seq<Event>, c: int) {
    forall i, j | 0 <= i < j < |log| && IsCharge(log[i], c) && IsCharge(log[j], c) :: log[i].period.value < log[j].period.value
  }

  predicate IsCharge(e: Event, c: int) {
    Interest(e, c) && e.period.Some?
  }

  ghost predicate ChargedUpTo(log: seq<Event>, c: int, p: int) {
    forall i | 0 <= i < |log| && IsCharge(log[i], c) :: log[i].period.value <= p
  }

  predicate NotSigned(ops: seq<Op>, from: nat, c: int) {
    forall i | from <= i < |ops| :: !(ops[i].SignOp? && ops[i].contract == c)
  }

  /** Without a signature in between, a contract that is active was active with the same signature. */
  lemma SameSignature(book: Book, s: State, op: Op, c: int)
    requires Allowed(book, op) && !(op.SignOp? && op.contract == c) && IsActive(Step(book, s, op), c)
    ensures IsActive(s, c) && StandingOf(Step(book, s, op), c) == StandingOf(s, c)
  {
    hide TickNow, BulkLog;
  }

  lemma ChargeRises(tail: seq<Event>, events: seq<Event>, c: int, p: nat)
    requires InterestRises(tail, c) && ChargedUpTo(tail, c, p)
    requires forall i | 0 <= i < |events| && IsCharge(events[i], c) ::
      i == |events| - 1 && events[i].period == Some(p) && !ExistsForPeriod(tail, c, p, PeriodInterest)
    ensures InterestRises(tail + events, c) && ChargedUpTo(tail + events, c, p)
  {
    var all := tail + events;
    assert forall i | 0 <= i < |tail| :: all[i] == tail[i];
    assert forall i | |tail| <= i < |all| :: all[i] == events[i - |tail|];
    forall i | 0 <= i < |tail| && IsCharge(tail[i], c)
      ensures tail[i].period.value == p ==> ExistsForPeriod(tail, c, p, PeriodInterest)
    {
    }
  }

  /** What a step appends: at most one interest of `c`, last, and then for its current, uncharged period. */
  lemma StepCharges(book: Book, s: State, op: Op, c: int)
    requires Allowed(book, op) && c in book.terms
    ensures forall i | 0 <= i < |Appended(book, s, op)| && IsCharge(Appended(book, s, op)[i], c) ::
      && i == |Appended(book, s, op)| - 1
      && op.TickOp? && IsActive(s, c) && Appended(book, s, op)[i].period == Some(IndexNow(book, s, c, op.now))
      && !ExistsForPeriod(s.log, c, IndexNow(book, s, c, op.now), PeriodInterest)
  {
    hide IndexAt, HadMinPayment, ExistsForPeriod, KeyFree, Judge;
    var after := Step(book, s, op);
    var events := Appended(book, s, op);
    forall i | 0 <= i < |events| && IsCharge(events[i], c)
      ensures i == |events| - 1
      ensures op.TickOp? && IsActive(s, c) && events[i].period == Some(IndexNow(book, s, c, op.now))
      ensures !ExistsForPeriod(s.log, c, IndexNow(book, s, c, op.now), PeriodInterest)
    {
      assert after.log[|s.log| + i] == events[i];
      if op.BulkOp? {
        BulkAppends(book, s, op, c, i);
      }
    }
  }

  /**
   In every run the interest charged since any point strictly rises in log order up to the
   current period, as long as the contract is not signed again.
   */
  lemma {:induction false} RisesUntilSigned(book: Book, ops: seq<Op>, n: nat, c: int)
    requires ValidRun(book, ops) && n <= |ops| && c in book.terms && NotSigned(ops, n, c)
    ensures |Run(book, ops[..n]).log| <= |Run(book, ops).log|
    ensures
      var s := Run(book, ops);
      var tail := s.log[|Run(book, ops[..n]).log|..];
      InterestRises(tail, c) && (IsActive(s, c) ==> ChargedUpTo(tail, c, IndexNow(book, s, c, Clock(ops))))
    decreases |ops|
  {
    hide IndexAt, Step, Run, InterestRises, ChargedUpTo, IsCharge;
    if n == |ops| {
      assert ops[..n] == ops;
      assert Run(book, ops).log[|Run(book, ops).log|..] == [];
      NothingRises(c, if IsActive(Run(book, ops), c) then IndexNow(book, Run(book, ops), c, Clock(ops)) else 0);
    } else {
      var init, op := ops[..|ops| - 1], ops[|ops| - 1];
      assert init[..n] == ops[..n];
      RisesUntilSigned(book, init, n, c);
      RunStep(book, ops);
      RisesStep(book, Run(book, init), op, c, |Run(book, ops[..n]).log|, Clock(init));
    }
  }

  lemma NothingRises(c: int, p: int)
    ensures InterestRises([], c) && ChargedUpTo([], c, p)
  {
  }

  lemma RisesStep(book: Book, s: State, op: Op, c: int, base: nat, clock: nat)
    requires Allowed(book, op) && c in book.terms && base <= |s.log| && clock <= op.now
    requires !(op.SignOp? && op.contract == c)
    requires InterestRises(s.log[base..], c) && (IsActive(s, c) ==> ChargedUpTo(s.log[base..], c, IndexNow(book, s, c, clock)))
    ensures base <= |Step(book, s, op).log|
    ensures
      var after := Step(book, s, op);
      InterestRises(after.log[base..], c) && (IsActive(after, c) ==> ChargedUpTo(after.log[base..], c, IndexNow(book, after, c, op.now)))
  {
    hide CurrentPeriodIndex, Step, TickNow, Appended;
    var after, events := Step(book, s, op), Appended(book, s, op);
    var tail := s.log[base..];
    assert after.log[base..] == tail + events;
    StepCharges(book, s, op, c);
    var p := IndexNow(book, s, c, op.now);
    TailAbsent(s.log, base, c, p);
    if IsActive(s, c) {
      PeriodIndexMonotone(book.z, StandingOf(s, c).signedAt, book.terms[c].frequency, clock, op.now);
      assert ChargedUpTo(tail, c, p);
      ChargeRises(tail, events, c, p);
    } else {
      NoCharge(tail, events, c);
    }
    if IsActive(after, c) {
      SameSignature(book, s, op, c);
    }
  }

  lemma TailAbsent(log: seq<Event>, base: nat, c: int, p: int)
    requires base <= |log|
    ensures ExistsForPeriod(log[base..], c, p, PeriodInterest) ==> ExistsForPeriod(log, c, p, PeriodInterest)
  {
    forall i | base <= i < |log|
      ensures log[i] == log[base..][i - base]
    {
    }
  }

  lemma NoCharge(tail: seq<Event>, events: seq<Event>, c: int)
    requires InterestRises(tail, c) && forall i | 0 <= i < |events| :: !IsCharge(events[i], c)
    ensures InterestRises(tail + events, c)
  {
    var all := tail + events;
    assert forall i | 0 <= i < |tail| :: all[i] == tail[i];
    assert forall i | |tail| <= i < |all| :: all[i] == events[i - |tail|];
  }

  /** No period below a charged one was skipped, unless its charge is blocked. */
  ghost predicate NoGap(log: seq<Event>, c: int, minimum: int) {
    forall k, m: int | 1 <= k < m && ExistsForPeriod(log, c, m, PeriodInterest) ::
      ExistsForPeriod(log, c, k, PeriodInterest) || Blocked(log, c, minimum, k)
  }

  /**
   A signature starts the count again. Whatever period the contract then finds itself in, its
   next tick keeps the whole log in rising order exactly when every period below a charged one is
   charged or blocked: charged periods are not charged again, skipped ones are, late.
   */
  lemma OrderKeptIff(log: seq<Event>, c: int, t: Terms, now: nat)
    requires InterestRises(log, c)
    ensures (forall p: nat :: InterestRises(TickStep(log, c, t, p, now).0, c)) <==> NoGap(log, c, t.minimumPayment)
  {
    hide TickStep, Missed;
    if NoGap(log, c, t.minimumPayment) {
      forall p: nat
        ensures InterestRises(TickStep(log, c, t, p, now).0, c)
      {
        TickClosed(log, c, t, p, now);
        if 1 <= p && !ExistsForPeriod(log, c, p, PeriodInterest) && !Blocked(log, c, t.minimumPayment, p) {
          UpToUncharged(log, c, t.minimumPayment, p);
          ChargeKeepsOrder(log, c, t, p, now);
        }
      }
    } else {
      var k, m: int :| 1 <= k < m && ExistsForPeriod(log, c, m, PeriodInterest)
                       && !ExistsForPeriod(log, c, k, PeriodInterest) && !Blocked(log, c, t.minimumPayment, k);
      GapBreaksOrder(log, c, t, k, m, now);
    }
  }

  lemma UpToUncharged(log: seq<Event>, c: int, minimum: int, p: nat)
    requires NoGap(log, c, minimum) && 1 <= p && !ExistsForPeriod(log, c, p, PeriodInterest) && !Blocked(log, c, minimum, p)
    ensures ChargedUpTo(log, c, p)
  {
    hide Blocked;
    forall i | 0 <= i < |log| && IsCharge(log[i], c)
      ensures log[i].period.value <= p
    {
      assert ExistsForPeriod(log, c, log[i].period.value, PeriodInterest);
    }
  }

  lemma GapBreaksOrder(log: seq<Event>, c: int, t: Terms, k: nat, m: int, now: nat)
    requires 1 <= k < m && ExistsForPeriod(log, c, m, PeriodInterest)
    requires !ExistsForPeriod(log, c, k, PeriodInterest) && !Blocked(log, c, t.minimumPayment, k)
    ensures !InterestRises(TickStep(log, c, t, k, now).0, c)
  {
    hide TickStep, Missed;
    TickClosed(log, c, t, k, now);
    var after := TickStep(log, c, t, k, now).0;
    var i :| 0 <= i < |log| && log[i].contract == c && log[i].kind == PeriodInterest && log[i].period == Some(m);
    assert after[i] == log[i] && after[|after| - 1] == InterestEvent(c, t, k, now);
    assert IsCharge(after[i], c) && IsCharge(after[|after| - 1], c);
  }

  lemma ChargeKeepsOrder(log: seq<Event>, c: int, t: Terms, p: nat, now: nat)
    requires InterestRises(log, c) && ChargedUpTo(log, c, p) && 1 <= p && !ExistsForPeriod(log, c, p, PeriodInterest)
    ensures InterestRises(Charge(log, c, t, p, now, Missed(log, c, t.minimumPayment, p - 1)), c)
  {
    hide Missed, InterestRises, ChargedUpTo, ExistsForPeriod;
    var penalty, interest := PenaltyEvent(c, t, p - 1, now), InterestEvent(c, t, p, now);
    if Missed(log, c, t.minimumPayment, p - 1) {
      ChargeRises(log, [penalty, interest], c, p);
      assert log + [penalty] + [interest] == log + [penalty, interest];
    } else {
      ChargeRises(log, [interest], c, p);
    }
  }

  /** Step `j` is a tick that finds the contract active in period `k`, and nothing blocks its charge. */
  predicate TickedIn(book: Book, ops: seq<Op>, j: nat, c: int, k: int)
    requires ValidRun(book, ops) && j < |ops| && c in book.terms
  {
    var s := Run(book, ops[..j]);
    && ops[j].TickOp? && ops[j].contract == c && IsActive(s, c)
    && 1 <= k == IndexNow(book, s, c, ops[j].now) && !Blocked(s.log, c, book.terms[c].minimumPayment, k)
  }

  /**
   Interest for a period the clock has passed is charged later exactly when the contract is
   signed again, a tick then finds it back in that period, and no penalty from before blocks the
   charge; otherwise it is lost.
   */
  lemma LostUnlessSigned(book: Book, ops: seq<Op>, n: nat, c: int, k: int)
    requires ValidRun(book, ops) && n <= |ops| && c in book.terms
    requires !ExistsForPeriod(Run(book, ops[..n]).log, c, k, PeriodInterest)
    requires IsActive(Run(book, ops[..n]), c) ==> k < IndexNow(book, Run(book, ops[..n]), c, Clock(ops[..n]))
    ensures ExistsForPeriod(Run(book, ops).log, c, k, PeriodInterest)
      <==> exists i, j :: n <= i < j < |ops| && ops[i].SignOp? && ops[i].contract == c && TickedIn(book, ops, j, c, k)
  {
    hide ExistsForPeriod, IndexAt, Step, Run, TickedIn;
    assert n == |ops| ==> ops[..n] == ops;
    if exists i, j :: n <= i < j < |ops| && ops[i].SignOp? && ops[i].contract == c && TickedIn(book, ops, j, c, k) {
      var i, j :| n <= i < j < |ops| && ops[i].SignOp? && ops[i].contract == c && TickedIn(book, ops, j, c, k);
      TickedCharges(book, ops, j, c, k);
    }
    if ExistsForPeriod(Run(book, ops).log, c, k, PeriodInterest) {
      var j := ChargingTick(book, ops, n, c, k);
      SignedBefore(book, ops, n, j, c, k);
    }
  }

  lemma {:induction false} TickedCharges(book: Book, ops: seq<Op>, j: nat, c: int, k: int)
    requires ValidRun(book, ops) && j < |ops| && c in book.terms && TickedIn(book, ops, j, c, k)
    ensures ExistsForPeriod(Run(book, ops).log, c, k, PeriodInterest)
    decreases |ops|
  {
    hide ExistsForPeriod, IndexAt, Run, TickStep, Blocked;
    var init, op := ops[..|ops| - 1], ops[|ops| - 1];
    RunStep(book, ops);
    var s := Run(book, init);
    if j == |ops| - 1 {
      TickClosed(s.log, c, TermsAt(book, s, c), k, op.now);
      TickExists(s.log, c, TermsAt(book, s, c), k, op.now, c, k, PeriodInterest);
    } else {
      assert init[..j] == ops[..j];
      TickedCharges(book, init, j, c, k);
      StepKeeps(book, s, op, c, k, PeriodInterest);
    }
  }

  lemma {:induction false} ChargingTick(book: Book, ops: seq<Op>, n: nat, c: int, k: int) returns (j: nat)
    requires ValidRun(book, ops) && n < |ops| && c in book.terms
    requires !ExistsForPeriod(Run(book, ops[..n]).log, c, k, PeriodInterest)
    requires ExistsForPeriod(Run(book, ops).log, c, k, PeriodInterest)
    ensures n <= j < |ops| && TickedIn(book, ops, j, c, k)
    decreases |ops|
  {
    hide ExistsForPeriod, IndexAt, Step, Run, TickStep, Blocked;
    var init, op := ops[..|ops| - 1], ops[|ops| - 1];
    assert init[..n] == ops[..n] && (n == |init| ==> init == ops[..n]);
    RunStep(book, ops);
    if ExistsForPeriod(Run(book, init).log, c, k, PeriodInterest) {
      j := ChargingTick(book, init, n, c, k);
      assert init[..j] == ops[..j];
    } else {
      var s := Run(book, init);
      StepExists(book, s, op, c, k, PeriodInterest);
      TickClosed(s.log, c, TermsAt(book, s, c), k, op.now);
      j := |ops| - 1;
    }
  }

  // Without a signature the index only rises past `k`, so the contract is not found in `k`.
  lemma {:induction false} StaysPast(book: Book, ops: seq<Op>, n: nat, c: int, k: int, now: nat)
    requires ValidRun(book, ops) && n <= |ops| && c in book.terms && NotSigned(ops, n, c) && Clock(ops) <= now
    requires IsActive(Run(book, ops[..n]), c) ==> k < IndexNow(book, Run(book, ops[..n]), c, Clock(ops[..n]))
    ensures IsActive(Run(book, ops), c) ==> k < IndexNow(book, Run(book, ops), c, now)
    decreases |ops|
  {
    hide CurrentPeriodIndex, Step, Run;
    if n == |ops| {
      assert ops[..n] == ops;
      var s := Run(book, ops);
      if IsActive(s, c) {
        PeriodIndexMonotone(book.z, StandingOf(s, c).signedAt, book.terms[c].frequency, Clock(ops), now);
      }
    } else {
      var init, op := ops[..|ops| - 1], ops[|ops| - 1];
      assert init[..n] == ops[..n];
      RunStep(book, ops);
      StaysPast(book, init, n, c, k, now);
      if IsActive(Run(book, ops), c) {
        SameSignature(book, Run(book, init), op, c);
      }
    }
  }

  lemma SignedBefore(book: Book, ops: seq<Op>, n: nat, j: nat, c: int, k: int)
    requires ValidRun(book, ops) && n <= j < |ops| && c in book.terms && TickedIn(book, ops, j, c, k)
    requires IsActive(Run(book, ops[..n]), c) ==> k < IndexNow(book, Run(book, ops[..n]), c, Clock(ops[..n]))
    ensures exists i :: n <= i < j && ops[i].SignOp? && ops[i].contract == c
  {
    hide IndexAt, Step, Run, TickNow;
    var upTo := ops[..j];
    assert upTo[..n] == ops[..n];
    if NotSigned(upTo, n, c) {
      StaysPast(book, upTo, n, c, k, ops[j].now);
      assert false;
    }
    var i :| n <= i < |upTo| && upTo[i].SignOp? && upTo[i].contract == c;
    assert ops[i] == upTo[i];
  }

  // ---------------------------------------------------------------- signed once, and signed again

  predicate SignedAtMostOnce(ops: seq<Op>, c: int) {
    forall i, j | 0 <= i < j < |ops| && ops[i].SignOp? && ops[i].contract == c :: !(ops[j].SignOp? && ops[j].contract == c)
  }

  predicate NeverCharged(log: seq<Event>, c: int) {
    forall i | 0 <= i < |log| :: !IsCharge(log[i], c)
  }

  lemma {:induction false} UnsignedUncharged(book: Book, ops: seq<Op>, c: int)
    requires ValidRun(book, ops) && c in book.terms && NotSigned(ops, 0, c)
    ensures !IsActive(Run(book, ops), c)
    ensures NeverCharged(Run(book, ops).log, c)
  {
    hide IndexAt, Step, IsCharge;
    if ops == [] {
    } else {
      var init, op := ops[..|ops| - 1], ops[|ops| - 1];
      RunStep(book, ops);
      UnsignedUncharged(book, init, c);
      var s, events := Run(book, init), Appended(book, Run(book, init), op);
      if IsActive(Run(book, ops), c) {
        SameSignature(book, s, op, c);
        assert false;
      }
      StepCharges(book, s, op, c);
      assert forall i | |s.log| <= i < |Run(book, ops).log| :: Run(book, ops).log[i] == events[i - |s.log|];
      assert forall i | 0 <= i < |s.log| :: Run(book, ops).log[i] == s.log[i];
    }
  }

  /** So over the whole life of a contract that is signed once its interest periods strictly rise. */
  lemma SignedOnceRises(book: Book, ops: seq<Op>, c: int)
    requires ValidRun(book, ops) && c in book.terms && SignedAtMostOnce(ops, c)
    ensures InterestRises(Run(book, ops).log, c)
  {
    hide IndexAt, Step, Run, IsCharge, InterestRises, ChargedUpTo;
    if NotSigned(ops, 0, c) {
      UnsignedUncharged(book, ops, c);
      NothingRises(c, 0);
      assert Run(book, ops).log[|Run(book, ops).log|..] == [];
      RisesAfter(Run(book, ops).log, Run(book, ops).log, c);
    } else {
      var n :| 0 <= n < |ops| && ops[n].SignOp? && ops[n].contract == c;
      UnchargedWhenSigned(book, ops, n, c);
      RisesUntilSigned(book, ops, n + 1, c);
      RunsExtend(book, ops, n + 1);
      RisesAfter(Run(book, ops[..n + 1]).log, Run(book, ops).log, c);
    }
  }

  // Up to its first signature a contract has no charge.
  lemma UnchargedWhenSigned(book: Book, ops: seq<Op>, n: nat, c: int)
    requires ValidRun(book, ops) && c in book.terms && n < |ops| && ops[n].SignOp? && NotSigned(ops[..n], 0, c)
    ensures NeverCharged(Run(book, ops[..n + 1]).log, c)
  {
    hide IndexAt, Step, Run, IsCharge;
    assert ops[..n + 1][..n] == ops[..n];
    UnsignedUncharged(book, ops[..n], c);
    RunStep(book, ops[..n + 1]);
    SignWritesNothing(book, Run(book, ops[..n]), ops[n]);
  }

  lemma RisesAfter(base: seq<Event>, log: seq<Event>, c: int)
    requires base <= log && InterestRises(log[|base|..], c)
    requires NeverCharged(base, c)
    ensures InterestRises(log, c)
  {
    hide IsCharge;
    assert forall i | 0 <= i < |base| :: log[i] == base[i];
    assert forall i | |base| <= i < |log| :: log[i] == log[|base|..][i - |base|];
  }

  lemma SignWritesNothing(book: Book, s: State, op: Op)
    requires Allowed(book, op) && op.SignOp?
    ensures Step(book, s, op).log == s.log
  {
  }

  lemma {:induction false} RunsExtend(book: Book, ops: seq<Op>, n: nat)
    requires ValidRun(book, ops) && n <= |ops|
    ensures Run(book, ops[..n]).log <= Run(book, ops).log
    decreases |ops|
  {
    hide Step;
    if n == |ops| {
      assert ops[..n] == ops;
    } else {
      var init := ops[..|ops| - 1];
      assert init[..n] == ops[..n];
      RunsExtend(book, init, n);
      assert Run(book, ops).log == Run(book, init).log + Appended(book, Run(book, init), ops[|ops| - 1]);
    }
  }

  // A weekly contract of 100 pounds with a minimum payment of ten, never paid; no summer time.
  function SampleBook(): Book {
    Book(_ => false, map[1 := Terms(2, 3, None, Weekly, 100_000, 500, 100, 10_000)])
  }

  function SampleInterest(p: int, day: nat): Event {
    Event(1, PeriodInterest, 100, Some(p), DAY * day)
  }

  function SampleState(log: seq<Event>, signed: nat): State {
    State(log, map[1 := Standing(Active, Some(DAY * signed))])
  }

  lemma SampleIndex(log: seq<Event>, signed: nat, day: nat)
    requires signed < day
    ensures IndexNow(SampleBook(), SampleState(log, signed), 1, DAY * day) == (day - signed) / 7
  {
    assert LondonDay(SampleBook().z, DAY * day) == day && LondonDay(SampleBook().z, DAY * signed) == signed;
  }

  // A tick of the sample contract in week p, when neither p nor p - 1 was charged.
  lemma SampleTick(log: seq<Event>, signed: nat, day: nat, p: nat)
    requires signed < day && (day - signed) / 7 == p && 1 <= p
    requires forall i | 0 <= i < |log| && log[i].kind == PeriodInterest :: log[i].period !in {Some(p), Some(p - 1)}
    ensures Step(SampleBook(), SampleState(log, signed), TickOp(1, DAY * day)) == SampleState(log + [SampleInterest(p, day)], signed)
  {
    hide IndexAt, ChargedAt, PaidSince;
    SampleIndex(log, signed, day);
    NotCharged(log, 1, p - 1);
    var s := SampleState(log, signed);
    assert TickNow(SampleBook(), s, 1, DAY * day) == (log + [SampleInterest(p, day)], Charged(false));
  }

  lemma RunSnoc(book: Book, ops: seq<Op>, op: Op)
    requires ValidRun(book, ops) && Allowed(book, op) && Clock(ops) <= op.now
    ensures ValidRun(book, ops + [op]) && Run(book, ops + [op]) == Step(book, Run(book, ops), op)
    ensures Clock(ops + [op]) == op.now
  {
    assert (ops + [op])[..|ops|] == ops;
  }

  lemma SampleSigned(day: nat)
    ensures ValidRun(SampleBook(), [SignOp(1, DAY * day)]) && Clock([SignOp(1, DAY * day)]) == DAY * day
    ensures Run(SampleBook(), [SignOp(1, DAY * day)]) == SampleState([], day)
  {
    RunSnoc(SampleBook(), [], SignOp(1, DAY * day));
    assert [] + [SignOp(1, DAY * day)] == [SignOp(1, DAY * day)];
  }

  lemma SampleResign(log: seq<Event>, signed: nat, revised: nat, day: nat)
    ensures
      var unsigned := Step(SampleBook(), SampleState(log, signed), ReviseOp(1, DAY * revised));
      Step(SampleBook(), unsigned, SignOp(1, DAY * day)) == SampleState(log, day)
  {
  }

  /**
   Signed on day 0, ticked in weeks 1 and 3 but not in week 2, its clauses changed, signed again
   on day 23: two weeks later the tick charges week 2, after week 3 in the log.
   */
  lemma ResignedOutOfOrder()
    ensures
      var ops := [SignOp(1, 0), TickOp(1, DAY * 7), TickOp(1, DAY * 21), ReviseOp(1, DAY * 22), SignOp(1, DAY * 23), TickOp(1, DAY * 37)];
      ValidRun(SampleBook(), ops) && !InterestRises(Run(SampleBook(), ops).log, 1)
  {
    hide Step, Run;
    var book := SampleBook();
    var ops := [SignOp(1, 0), TickOp(1, DAY * 7), TickOp(1, DAY * 21), ReviseOp(1, DAY * 22), SignOp(1, DAY * 23), TickOp(1, DAY * 37)];
    var first, third, second := SampleInterest(1, 7), SampleInterest(3, 21), SampleInterest(2, 37);
    SampleSigned(0);
    assert ops[..1] == [SignOp(1, DAY * 0)];
    Extend(book, ops, 1);
    SampleTick([], 0, 7, 1);
    Extend(book, ops, 2);
    SampleTick([] + [first], 0, 21, 3);
    Extend(book, ops, 3);
    Extend(book, ops, 4);
    SampleResign([] + [first] + [third], 0, 22, 23);
    Extend(book, ops, 5);
    ResignedTick(first, third, second);
    assert ops[..6] == ops;
  }

  lemma Extend(book: Book, ops: seq<Op>, n: nat)
    requires n < |ops| && ValidRun(book, ops[..n]) && Allowed(book, ops[n]) && Clock(ops[..n]) <= ops[n].now
    ensures ValidRun(book, ops[..n + 1]) && Run(book, ops[..n + 1]) == Step(book, Run(book, ops[..n]), ops[n])
    ensures Clock(ops[..n + 1]) == ops[n].now
  {
    RunSnoc(book, ops[..n], ops[n]);
    assert ops[..n] + [ops[n]] == ops[..n + 1];
  }

  // Back in week 2, with weeks 1 and 3 charged: week 1 was not paid, so a penalty comes first.
  lemma ResignedTick(first: Event, third: Event, second: Event)
    requires first == SampleInterest(1, 7) && third == SampleInterest(3, 21) && second == SampleInterest(2, 37)
    ensures !InterestRises(Step(SampleBook(), SampleState([] + [first] + [third], 23), TickOp(1, DAY * 37)).log, 1)
  {
    hide IndexAt, Missed;
    var s := SampleState([] + [first] + [third], 23);
    SampleIndex(s.log, 23, 37);
    TickCharges(s.log, 1, TermsAt(SampleBook(), s, 1), 2, DAY * 37);
    var after := Step(SampleBook(), s, TickOp(1, DAY * 37)).log;
    assert after[1] == third && after[|after| - 1] == second;
    assert IsCharge(after[1], 1) && IsCharge(after[|after| - 1], 1);
  }

  // ---------------------------------------------------------------- with bulk penalties

  /** Step `j` is a bulk penalty that named contract `c` while it was in period `k`. */
  predicate BulkIn(book: Book, ops: seq<Op>, j: nat, c: int, k: int)
    requires ValidRun(book, ops) && j < |ops| && c in book.terms
  {
    ops[j].BulkOp? && c in ops[j].ids && IndexNow(book, Run(book, ops[..j]), c, ops[j].now) == k
  }

  /** The penalty at `i` was written together with the interest behind it, by one tick of the next period. */
  predicate ByTick(log: seq<Event>, i: nat, c: int)
    requires i < |log|
  {
    log[i].period.Some? && i + 1 < |log| && IsInterest(log[i + 1], c, log[i].period.value + 1) && log[i + 1].at == log[i].at
  }

  predicate ByBulk(book: Book, ops: seq<Op>, e: Event, c: int)
    requires ValidRun(book, ops) && c in book.terms
  {
    e.period.Some? && exists j: nat :: j < |ops| && BulkIn(book, ops, j, c, e.period.value) && ops[j].now == e.at
  }

  /** What a step appends: penalties of `c` come from its own tick, interest behind them, or from a bulk penalty that names it. */
  lemma StepPenalties(book: Book, s: State, op: Op, c: int, i: nat)
    requires Allowed(book, op) && c in book.terms && i < |Appended(book, s, op)| && Penalty(Appended(book, s, op)[i], c)
    ensures
      var events := Appended(book, s, op);
      || ByTick(events, i, c)
      || (op.BulkOp? && c in op.ids && events[i].period == Some(IndexNow(book, s, c, op.now)) && events[i].at == op.now)
  {
    hide IndexAt, HadMinPayment, ExistsForPeriod, KeyFree, Judge;
    var after, events := Step(book, s, op), Appended(book, s, op);
    assert after.log[|s.log| + i] == events[i];
    if op.BulkOp? {
      BulkAppends(book, s, op, c, i);
    } else if op.TickOp? {
      assert |events| == 2 && after.log[|s.log| + 1] == events[1];
    }
  }

  /**
   In every run each penalty of a contract was written either by a tick that charged the next
   period with it, at once, or by a bulk penalty that named the contract in that period.
   */
  lemma {:induction false} PenaltyOrigin(book: Book, ops: seq<Op>, c: int)
    requires ValidRun(book, ops) && c in book.terms
    ensures forall i | 0 <= i < |Run(book, ops).log| && Penalty(Run(book, ops).log[i], c) ::
      ByTick(Run(book, ops).log, i, c) || ByBulk(book, ops, Run(book, ops).log[i], c)
  {
    hide Step, IndexAt, Run, ByBulk, ByTick;
    if ops == [] {
      EmptyRun(book);
    } else {
      var init, op := ops[..|ops| - 1], ops[|ops| - 1];
      RunStep(book, ops);
      PenaltyOrigin(book, init, c);
      var s, log, events := Run(book, init), Run(book, ops).log, Appended(book, Run(book, init), op);
      forall i | 0 <= i < |log| && Penalty(log[i], c)
        ensures ByTick(log, i, c) || ByBulk(book, ops, log[i], c)
      {
        if i < |s.log| {
          assert log[i] == s.log[i];
          OriginStays(book, ops, i, c);
        } else {
          assert log[i] == events[i - |s.log|];
          StepPenalties(book, s, op, c, i - |s.log|);
          OriginNew(book, ops, i, c);
        }
      }
    }
  }

  lemma EmptyRun(book: Book)
    ensures ValidRun(book, []) && Run(book, []) == State([], map[])
  {
  }

  lemma OriginStays(book: Book, ops: seq<Op>, i: nat, c: int)
    requires ValidRun(book, ops) && ops != [] && c in book.terms && i < |Run(book, ops[..|ops| - 1]).log|
    requires ByTick(Run(book, ops[..|ops| - 1]).log, i, c) || ByBulk(book, ops[..|ops| - 1], Run(book, ops[..|ops| - 1]).log[i], c)
    ensures i < |Run(book, ops).log|
    ensures ByTick(Run(book, ops).log, i, c) || ByBulk(book, ops, Run(book, ops).log[i], c)
  {
    hide Step, IndexAt;
    var init, op := ops[..|ops| - 1], ops[|ops| - 1];
    var before, log := Run(book, init).log, Run(book, ops).log;
    assert log == before + Appended(book, Run(book, init), op);
    if ByTick(before, i, c) {
      assert log[i] == before[i] && log[i + 1] == before[i + 1];
    } else {
      var j: nat :| j < |init| && BulkIn(book, init, j, c, before[i].period.value) && init[j].now == before[i].at;
      assert init[..j] == ops[..j];
      assert BulkIn(book, ops, j, c, log[i].period.value) && ops[j].now == log[i].at;
    }
  }

  lemma OriginNew(book: Book, ops: seq<Op>, i: nat, c: int)
    requires ValidRun(book, ops) && ops != [] && c in book.terms
    requires |Run(book, ops[..|ops| - 1]).log| <= i < |Run(book, ops).log|
    requires
      var s, op := Run(book, ops[..|ops| - 1]), ops[|ops| - 1];
      var events, at := Appended(book, s, op), i - |s.log|;
      && Run(book, ops).log == s.log + events
      && (ByTick(events, at, c)
          || (op.BulkOp? && c in op.ids && events[at].period == Some(IndexNow(book, s, c, op.now)) && events[at].at == op.now))
    ensures ByTick(Run(book, ops).log, i, c) || ByBulk(book, ops, Run(book, ops).log[i], c)
  {
    hide Step, IndexAt, Run;
    var s, op := Run(book, ops[..|ops| - 1]), ops[|ops| - 1];
    var log, events := Run(book, ops).log, Appended(book, Run(book, ops[..|ops| - 1]), ops[|ops| - 1]);
    var at := i - |s.log|;
    assert log[i] == events[at];
    if ByTick(events, at, c) {
      assert log[i + 1] == events[at + 1];
    } else {
      assert BulkIn(book, ops, |ops| - 1, c, log[i].period.value) && ops[|ops| - 1].now == log[i].at;
    }
  }

  lemma ByTickCharges(log: seq<Event>, i: nat, c: int)
    requires i < |log|
    ensures ByTick(log, i, c) ==> ExistsForPeriod(log, c, log[i].period.value + 1, PeriodInterest)
  {
  }

  predicate NamedIn(book: Book, ops: seq<Op>, c: int, k: int)
    requires ValidRun(book, ops) && c in book.terms
  {
    exists j: nat | j < |ops| :: BulkIn(book, ops, j, c, k)
  }

  /** A tick is refused only if a bulk penalty named the contract at the index before, under this signature or an earlier one. */
  lemma RefusedOnlyAfterBulk(book: Book, ops: seq<Op>, c: int, now: nat)
    requires ValidRun(book, ops) && c in book.terms
    requires TickNow(book, Run(book, ops), c, now).1 == Refused
    ensures NamedIn(book, ops, c, IndexNow(book, Run(book, ops), c, now) - 1)
  {
    hide IndexAt, Run, BulkIn, TickStep, Missed;
    var s := Run(book, ops);
    var p := IndexNow(book, s, c, now);
    TickClosed(s.log, c, TermsAt(book, s, c), p, now);
    PenaltyOrigin(book, ops, c);
    var i: nat :| i < |s.log| && s.log[i].contract == c && s.log[i].kind == LatePenalty && s.log[i].period == Some(p - 1);
    assert Penalty(s.log[i], c);
    ByTickCharges(s.log, i, c);
  }

  lemma {:induction false} KeyStays(book: Book, ops: seq<Op>, n: nat, c: int, k: int, kind: EventType)
    requires ValidRun(book, ops) && n <= |ops| && ExistsForPeriod(Run(book, ops[..n]).log, c, k, kind)
    ensures ExistsForPeriod(Run(book, ops).log, c, k, kind)
    decreases |ops|
  {
    hide ExistsForPeriod, Step, Run;
    if n == |ops| {
      assert ops[..n] == ops;
    } else {
      var init := ops[..|ops| - 1];
      assert init[..n] == ops[..n];
      RunStep(book, ops);
      KeyStays(book, init, n, c, k, kind);
      StepKeeps(book, Run(book, init), ops[|ops| - 1], c, k, kind);
    }
  }

  // A bulk penalty that found the contract late leaves its penalty in the log.
  lemma BulkLeavesPenalty(book: Book, s: State, op: Op, c: int)
    requires Allowed(book, op) && op.BulkOp? && c in book.terms && c in op.ids
    requires Judge(book.z, s.log, AllTerms(book, s), ActiveIds(book, s), op.goddess, c, op.now) in {Applied, Already}
    ensures ExistsForPeriod(Step(book, s, op).log, c, IndexNow(book, s, c, op.now), LatePenalty)
  {
    hide IndexAt, DaysIntoPeriod;
    var terms, active := AllTerms(book, s), ActiveIds(book, s);
    var applied := Judged(book.z, s.log, terms, active, op.goddess, op.ids, op.now, Applied);
    PickedFrom(op.ids, d => Judge(book.z, s.log, terms, active, op.goddess, d, op.now) == Applied);
    ExistsInBulk(book.z, s.log, terms, applied, op.now, c, IndexNow(book, s, c, op.now), LatePenalty);
  }

  /**
   And then it is: in any run, after a bulk penalty found the contract late in period p, a tick
   of the active contract in period p + 1 is refused exactly as long as p + 1 is uncharged and
   the payments since the charge of p miss the minimum, whatever else happened in between.
   */
  lemma BulkBlocksNextTick(book: Book, ops: seq<Op>, n: nat, c: int, now: nat)
    requires ValidRun(book, ops) && n < |ops| && c in book.terms && ops[n].BulkOp? && c in ops[n].ids
    requires
      var s := Run(book, ops[..n]);
      Judge(book.z, s.log, AllTerms(book, s), ActiveIds(book, s), ops[n].goddess, c, ops[n].now) in {Applied, Already}
    requires IsActive(Run(book, ops), c)
    requires IndexNow(book, Run(book, ops), c, now) == IndexNow(book, Run(book, ops[..n]), c, ops[n].now) + 1
    ensures
      var s, p := Run(book, ops), IndexNow(book, Run(book, ops[..n]), c, ops[n].now);
      (TickNow(book, s, c, now) == (s.log, Refused))
      <==> (!ExistsForPeriod(s.log, c, p + 1, PeriodInterest) && Missed(s.log, c, book.terms[c].minimumPayment, p))
  {
    hide IndexAt, Run, Step, TickStep, Missed, ExistsForPeriod, Judge;
    var s, p := Run(book, ops), IndexNow(book, Run(book, ops[..n]), c, ops[n].now);
    assert ops[..n + 1][..n] == ops[..n];
    RunStep(book, ops[..n + 1]);
    BulkLeavesPenalty(book, Run(book, ops[..n]), ops[n], c);
    KeyStays(book, ops, n + 1, c, p, LatePenalty);
    TickClosed(s.log, c, TermsAt(book, s, c), p + 1, now);
  }

  lemma SampleBulk()
    ensures
      Step(SampleBook(), SampleState([] + [SampleInterest(1, 7)], 0), BulkOp(3, [1], DAY * 8))
        == SampleState([] + [SampleInterest(1, 7)] + [SamplePenalty()], 0)
  {
    hide Judge, IndexAt, Judged, BulkEvents;
    var s := SampleState([] + [SampleInterest(1, 7)], 0);
    SampleLate(s);
    SampleIndex(s.log, 0, 8);
    BulkOfOne(SampleBook(), s, 3, 1, DAY * 8);
  }

  lemma BulkOfOne(book: Book, s: State, goddess: int, c: int, now: nat)
    requires Judge(book.z, s.log, AllTerms(book, s), ActiveIds(book, s), goddess, c, now) == Applied
    ensures
      var terms, active := AllTerms(book, s), ActiveIds(book, s);
      BulkLog(book.z, s.log, terms, active, goddess, [c], now) == s.log + [BulkEvent(book.z, terms, c, now)]
  {
    hide Judge, Judged, BulkEvent, BulkEvents, AllTerms, ActiveIds;
    OneJudged(book.z, s.log, AllTerms(book, s), ActiveIds(book, s), goddess, c, now);
    OneEvent(book.z, AllTerms(book, s), c, now);
  }

  lemma OneJudged(z: Zone, log: seq<Event>, terms: map<int, Terms>, active: set<int>, goddess: int, c: int, now: nat)
    requires Judge(z, log, terms, active, goddess, c, now) == Applied
    ensures Judged(z, log, terms, active, goddess, [c], now, Applied) == [c]
  {
    hide Judge;
    var none: seq<int> := [];
    assert none + [c] == [c];
    JudgedSnoc(z, log, terms, active, goddess, none, c, now, Applied);
  }

  lemma OneEvent(z: Zone, terms: map<int, Terms>, c: int, now: nat)
    ensures BulkEvents(z, terms, [c], now) == [BulkEvent(z, terms, c, now)]
  {
    hide BulkEvent;
  }

  function SamplePenalty(): Event {
    Event(1, LatePenalty, 500, Some(1), DAY * 8)
  }

  lemma SamplePenalised()
    ensures
      var ops := [SignOp(1, 0), TickOp(1, DAY * 7), BulkOp(3, [1], DAY * 8)];
      && ValidRun(SampleBook(), ops) && Clock(ops) == DAY * 8
      && Run(SampleBook(), ops) == SampleState([] + [SampleInterest(1, 7)] + [SamplePenalty()], 0)
  {
    hide Step, Run;
    var ops := [SignOp(1, 0), TickOp(1, DAY * 7), BulkOp(3, [1], DAY * 8)];
    SampleSigned(0);
    assert ops[..1] == [SignOp(1, DAY * 0)];
    Extend(SampleBook(), ops, 1);
    SampleTick([], 0, 7, 1);
    Extend(SampleBook(), ops, 2);
    SampleBulk();
    assert ops[..3] == ops;
  }

  /** Signed on day 0, charged in week 1, penalised in bulk a day later, refused in week 2. */
  lemma BulkBlocksSample()
    ensures
      var ops := [SignOp(1, 0), TickOp(1, DAY * 7), BulkOp(3, [1], DAY * 8)];
      ValidRun(SampleBook(), ops) && TickNow(SampleBook(), Run(SampleBook(), ops), 1, DAY * 14).1 == Refused
  {
    hide Run, TickNow;
    SamplePenalised();
    SampleBlocked([] + [SampleInterest(1, 7)] + [SamplePenalty()], 0, 14);
  }

  /**
   The same, then charged in week 3, signed again on day 23: two weeks later the tick finds the
   contract back in week 2, which was never charged, and is refused again.
   */
  lemma ResignedBlocked()
    ensures
      var ops := [SignOp(1, 0), TickOp(1, DAY * 7), BulkOp(3, [1], DAY * 8), TickOp(1, DAY * 21), ReviseOp(1, DAY * 22), SignOp(1, DAY * 23)];
      && ValidRun(SampleBook(), ops)
      && var s := Run(SampleBook(), ops);
         IsActive(s, 1) && IndexNow(SampleBook(), s, 1, DAY * 37) == 2
         && ExistsForPeriod(s.log, 1, 3, PeriodInterest) && !ExistsForPeriod(s.log, 1, 2, PeriodInterest)
         && TickNow(SampleBook(), s, 1, DAY * 37).1 == Refused
  {
    hide Step, Run, TickNow;
    var ops := [SignOp(1, 0), TickOp(1, DAY * 7), BulkOp(3, [1], DAY * 8), TickOp(1, DAY * 21), ReviseOp(1, DAY * 22), SignOp(1, DAY * 23)];
    SamplePenalised();
    assert ops[..3] == [SignOp(1, 0), TickOp(1, DAY * 7), BulkOp(3, [1], DAY * 8)];
    Extend(SampleBook(), ops, 3);
    SampleTick([] + [SampleInterest(1, 7)] + [SamplePenalty()], 0, 21, 3);
    Extend(SampleBook(), ops, 4);
    Extend(SampleBook(), ops, 5);
    var log := [] + [SampleInterest(1, 7)] + [SamplePenalty()] + [SampleInterest(3, 21)];
    SampleResign(log, 0, 22, 23);
    assert ops[..6] == ops && log[2] == SampleInterest(3, 21);
    SampleIndex(log, 23, 37);
    SampleBlocked(log, 23, 37);
  }

  // In week 2 of the sample, with week 1 charged, penalised and unpaid.
  lemma SampleBlocked(log: seq<Event>, signed: nat, day: nat)
    requires signed < day && (day - signed) / 7 == 2
    requires log in {[] + [SampleInterest(1, 7)] + [SamplePenalty()], [] + [SampleInterest(1, 7)] + [SamplePenalty()] + [SampleInterest(3, 21)]}
    ensures TickNow(SampleBook(), SampleState(log, signed), 1, DAY * day).1 == Refused
  {
    hide IndexAt, TickStep;
    SampleIndex(log, signed, day);
    TickClosed(log, 1, TermsAt(SampleBook(), SampleState(log, signed), 1), 2, DAY * day);
    var first := [] + [SampleInterest(1, 7)];
    var two := first + [SamplePenalty()];
    assert first[..0] == [] && two[..1] == first && (two + [SampleInterest(3, 21)])[..2] == two;
    assert ChargedAt(first, 1, 1) == Some(DAY * 7) && PaidSince(first, 1, DAY * 7) == 0;
    assert ChargedAt(two, 1, 1) == Some(DAY * 7) && PaidSince(two, 1, DAY * 7) == 0;
    assert log[1] == SamplePenalty();
    assert ExistsForPeriod(log, 1, 1, LatePenalty);
  }

  lemma SampleLate(s: State)
    requires s == SampleState([] + [SampleInterest(1, 7)], 0)
    ensures Judge(SampleBook().z, s.log, AllTerms(SampleBook(), s), ActiveIds(SampleBook(), s), 3, 1, DAY * 8) == Applied
    ensures Missed(s.log, 1, 100_000, 1) && !ExistsForPeriod(s.log, 1, 2, PeriodInterest)
  {
    SampleIndex(s.log, 0, 8);
    assert s.log == [SampleInterest(1, 7)] && s.log[..0] == [];
  }

  /**
   In any run the tick of a period whose predecessor was never charged charges interest alone; so
   does the one after a refused period, as long as no tick of that period was let through.
   */
  lemma NextPeriodUnpunished(book: Book, ops: seq<Op>, c: int, now: nat)
    requires ValidRun(book, ops) && c in book.terms && IsActive(Run(book, ops), c)
    requires
      var s := Run(book, ops);
      var p := IndexNow(book, s, c, now);
      && 1 <= p && !ExistsForPeriod(s.log, c, p, PeriodInterest) && !ExistsForPeriod(s.log, c, p - 1, PeriodInterest)
    ensures
      var s := Run(book, ops);
      TickNow(book, s, c, now) == (s.log + [InterestEvent(c, TermsAt(book, s, c), IndexNow(book, s, c, now), now)], Charged(false))
  {
    hide IndexAt, Run, TickStep, ExistsForPeriod;
    var s := Run(book, ops);
    var p := IndexNow(book, s, c, now);
    NotCharged(s.log, c, p - 1);
    TickClosed(s.log, c, TermsAt(book, s, c), p, now);
  }

  /**
   A tick refused at step `n` in period p: unless a later tick of that period is let through, p
   stays uncharged until the contract is signed again, so the next period is charged without a penalty.
   */
  lemma RefusedIsForgotten(book: Book, ops: seq<Op>, n: nat, c: int, now: nat, later: nat)
    requires ValidRun(book, ops) && n <= |ops| && c in book.terms && NotSigned(ops, n, c) && IsActive(Run(book, ops), c)
    requires TickNow(book, Run(book, ops[..n]), c, now).1 == Refused
    requires
      var p := IndexNow(book, Run(book, ops[..n]), c, now);
      && IndexNow(book, Run(book, ops), c, later) == p + 1 && !ExistsForPeriod(Run(book, ops).log, c, p + 1, PeriodInterest)
      && forall j: nat | n <= j < |ops| :: !TickedIn(book, ops, j, c, p)
    ensures TickNow(book, Run(book, ops), c, later).1 == Charged(false)
  {
    hide IndexAt, Run, TickStep, ExistsForPeriod, TickedIn, Missed;
    var s, p := Run(book, ops[..n]), IndexNow(book, Run(book, ops[..n]), c, now);
    TickClosed(s.log, c, TermsAt(book, s, c), p, now);
    assert n == |ops| ==> ops[..n] == ops;
    if ExistsForPeriod(Run(book, ops).log, c, p, PeriodInterest) {
      var j := ChargingTick(book, ops, n, c, p);
      assert false;
    }
    NextPeriodUnpunished(book, ops, c, later);
  }

  // ---------------------------------------------------------------- the daily job

  lemma TermsOf(book: Book, s: State)
    ensures AllTerms(book, s).Keys == book.terms.Keys
  {
  }

  lemma SameTerms(book: Book, s: State, after: State)
    requires after.standing == s.standing
    ensures AllTerms(book, after) == AllTerms(book, s)
  {
  }

  // A tick in the run is the next contract of the job.
  lemma JobTick(book: Book, s: State, done: State, before: Ticked, c: int, now: nat)
    requires c in book.terms && c in AllTerms(book, s) && IsActive(s, c)
    requires done == s.(log := before.log) && before.count.Some?
    ensures Step(book, done, TickOp(c, now)) == s.(log := TickNext(before, AllTerms(book, s), book.z, c, now).log)
  {
    hide TickStep, IndexAt;
    SameTerms(book, s, done);
  }

  lemma JobOver(before: Ticked, terms: map<int, Terms>, z: Zone, c: int, now: nat)
    requires c in terms && before.count.None?
    ensures TickNext(before, terms, z, c, now) == before
  {
  }

  predicate AllTicks(ticks: seq<Op>, now: nat) {
    forall op | op in ticks :: op.TickOp? && op.now == now
  }

  predicate AllActive(book: Book, s: State, contracts: seq<int>) {
    forall i | 0 <= i < |contracts| :: contracts[i] in book.terms && contracts[i] in AllTerms(book, s) && IsActive(s, contracts[i])
  }

  // One more contract of the job: its tick, unless an earlier refusal has given it up.
  lemma JobNext(book: Book, ops: seq<Op>, s: State, contracts: seq<int>, now: nat) returns (more: seq<Op>)
    requires ValidRun(book, ops) && Clock(ops) <= now && contracts != [] && AllActive(book, s, contracts)
    requires AllActive(book, s, contracts[..|contracts| - 1])
    requires Run(book, ops) == s.(log := ProcessContracts(s.log, AllTerms(book, s), book.z, contracts[..|contracts| - 1], now).log)
    ensures AllTicks(more, now) && ValidRun(book, ops + more) && Clock(ops + more) <= now
    ensures Run(book, ops + more) == s.(log := ProcessContracts(s.log, AllTerms(book, s), book.z, contracts, now).log)
  {
    hide Run, Step, ProcessContracts, AllTerms, TickNext, ValidRun;
    var init, c := contracts[..|contracts| - 1], contracts[|contracts| - 1];
    var terms := AllTerms(book, s);
    var before := ProcessContracts(s.log, terms, book.z, init, now);
    ProcessNext(s.log, terms, book.z, contracts, |init|, now);
    assert contracts[..|init| + 1] == contracts;
    if before.count.Some? {
      RunSnoc(book, ops, TickOp(c, now));
      JobTick(book, s, Run(book, ops), before, c, now);
      more := [TickOp(c, now)];
    } else {
      JobOver(before, terms, book.z, c, now);
      more := [];
      assert ops + more == ops;
    }
  }

  lemma {:induction false} JobContracts(book: Book, ops: seq<Op>, contracts: seq<int>, now: nat) returns (ticks: seq<Op>)
    requires ValidRun(book, ops) && Clock(ops) <= now && AllActive(book, Run(book, ops), contracts)
    ensures AllTicks(ticks, now) && ValidRun(book, ops + ticks) && Clock(ops + ticks) <= now
    ensures
      var s := Run(book, ops);
      Run(book, ops + ticks) == s.(log := ProcessContracts(s.log, AllTerms(book, s), book.z, contracts, now).log)
  {
    hide Run, ProcessContracts, AllTerms, IsActive, ValidRun, Clock;
    var s := Run(book, ops);
    if contracts == [] {
      ticks := [];
      assert ops + ticks == ops;
      NothingProcessed(s.log, AllTerms(book, s), book.z, contracts, now);
    } else {
      ticks := JobContracts(book, ops, contracts[..|contracts| - 1], now);
      var more := JobNext(book, ops + ticks, s, contracts, now);
      assert ops + (ticks + more) == (ops + ticks) + more;
      ticks := ticks + more;
    }
  }

  /**
   The daily job, on the active contracts of the run's state, is a run of ticks: each sub's
   contracts in order up to the first refusal. So what holds in every run holds with the job in it.
   */
  lemma {:induction false} JobIsTicks(book: Book, ops: seq<Op>, tables: Tables, subs: seq<Sub>, now: nat) returns (ticks: seq<Op>)
    requires ValidRun(book, ops) && Clock(ops) <= now && TablesOver(tables, book.terms)
    requires forall s, i | s in tables.contracts && 0 <= i < |tables.contracts[s]| :: IsActive(Run(book, ops), tables.contracts[s][i])
    ensures AllTicks(ticks, now) && ValidRun(book, ops + ticks) && Clock(ops + ticks) <= now
    ensures
      var s := Run(book, ops);
      Run(book, ops + ticks) == s.(log := Process(s.log, tables, AllTerms(book, s), book.z, subs, now).log)
  {
    hide IndexAt, Run, ProcessContracts;
    TermsOf(book, Run(book, ops));
    if subs == [] {
      ticks := [];
      assert ops + ticks == ops;
    } else {
      var init, sub := subs[..|subs| - 1], subs[|subs| - 1];
      ticks := JobIsTicks(book, ops, tables, init, now);
      if sub.isSub && sub.active {
        SameTerms(book, Run(book, ops), Run(book, ops + ticks));
        var more := JobContracts(book, ops + ticks, ActiveContracts(tables, AllTerms(book, Run(book, ops)), sub.id), now);
        assert ops + (ticks + more) == (ops + ticks) + more;
        ticks := ticks + more;
      }
    }
  }

  /** In every run a bulk penalty writes only to active, signed contracts of the goddess who calls it, among those she names. */
  lemma BulkOnlyOwn(book: Book, ops: seq<Op>, op: Op)
    requires ValidRun(book, ops) && op.BulkOp?
    ensures
      var s := Run(book, ops);
      var after := Step(book, s, op);
      && s.log <= after.log && after.standing == s.standing
      && forall i | |s.log| <= i < |after.log| ::
           var c := after.log[i].contract;
           c in op.ids && c in book.terms && book.terms[c].goddess == op.goddess && s.standing.Keys >= {c}
           && s.standing[c].status == Active && s.standing[c].signedAt.Some? && after.log[i].kind == LatePenalty
  {
    hide IndexAt, Run, Overdue, CurrentPeriodIndex;
    var s := Run(book, ops);
    BulkAppendsOwn(book.z, s.log, AllTerms(book, s), ActiveIds(book, s), op.goddess, op.ids, op.now);
  }

  // ---------------------------------------------------------------- late, and paid

  lemma {:induction false} PaymentsUnindexed(book: Book, ops: seq<Op>, c: int, k: int)
    requires ValidRun(book, ops) && c in book.terms
    ensures !ExistsForPeriod(Run(book, ops).log, c, k, PaymentApplied)
  {
    hide ExistsForPeriod, Step;
    if ops == [] {
      EmptyLog(c, k, PaymentApplied);
    } else {
      PaymentsUnindexed(book, ops[..|ops| - 1], c, k);
      if ExistsForPeriod(Run(book, ops).log, c, k, PaymentApplied) {
        StepExists(book, Run(book, ops[..|ops| - 1]), ops[|ops| - 1], c, k, PaymentApplied);
        assert false;
      }
    }
  }

  /**
   No payment the controllers write carries a period index, so in every run the late surfaces
   call a contract late exactly when its period has begun on an earlier UTC date, whatever was
   paid; only the daily job looks at payments.
   */
  lemma LatenessIgnoresPayments(book: Book, ops: seq<Op>, c: int, now: nat)
    requires ValidRun(book, ops) && c in book.terms
    ensures
      var s := Run(book, ops);
      IsLate(book.z, s.log, c, TermsAt(book, s, c), now) <==> PastPeriodStart(book.z, TermsAt(book, s, c), now)
  {
    PaymentsUnindexed(book, ops, c, IndexNow(book, Run(book, ops), c, now));
  }
}
