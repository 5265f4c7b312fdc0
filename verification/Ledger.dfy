/**
 The append-only event log of the debt contracts and the balances replayed from it.

 Event amounts are in ten-thousandths (a rate for interest and penalties, pounds otherwise) and
 balances in pence, as the columns store them.
 */
module Ledger {
  import opened Rounding
  import opened Wrappers
  import Periods

  datatype EventType = PeriodInterest | LatePenalty | PaymentApplied | Adjustment | SurprisePenalty | BuyoutPaid
  datatype Event = Event(contract: int, kind: EventType, amount: int, period: Option<int>, at: nat)

  // What a contract fixes before its first signature, and when it was last signed.
  datatype Terms = Terms(sub: int, goddess: int, signedAt: Option<nat>, frequency: Periods.Frequency,
    minimumPayment: int, latePenalty: int, periodRate: int, principal: int)

  // ---------------------------------------------------------------- the uniqueness key

  /** Equal keys; a key without a period is never equal to another. */
  predicate SameKey(a: Event, b: Event) {
    a.contract == b.contract && a.kind == b.kind && a.period == b.period && a.period.Some?
  }

  predicate KeyFree(log: seq<Event>, e: Event) {
    forall i | 0 <= i < |log| :: !SameKey(log[i], e)
  }

  predicate UniqueKeys(log: seq<Event>) {
    forall i, j | 0 <= i < j < |log| :: !SameKey(log[i], log[j])
  }

  predicate ExistsForPeriod(log: seq<Event>, contract: int, period: int, kind: EventType) {
    exists i | 0 <= i < |log| :: log[i].contract == contract && log[i].kind == kind && log[i].period == Some(period)
  }

  function ContractLog(log: seq<Event>, contract: int): seq<Event> {
    if log == [] then []
    else
      var last := log[|log| - 1];
      ContractLog(log[..|log| - 1], contract) + if last.contract == contract then [last] else []
  }

  // ---------------------------------------------------------------- replay

  function Applied(balance: int, e: Event): int {
    match e.kind
    case PeriodInterest | LatePenalty => RoundHalfEven(balance * (10_000 + e.amount), 10_000)
    case PaymentApplied => RoundHalfEven(100 * balance - e.amount, 100)
    case Adjustment | SurprisePenalty => RoundHalfEven(100 * balance + e.amount, 100)
    case BuyoutPaid => 0
  }

  function Replay(principal: int, events: seq<Event>): int {
    if events == [] then principal else Applied(Replay(principal, events[..|events| - 1]), events[|events| - 1])
  }

  method ReplayEvents(principal: int, events: seq<Event>) returns (balance: int)
    ensures balance == Replay(principal, events)
  {
    balance := principal;
    for i := 0 to |events|
      invariant balance == Replay(principal, events[..i])
    {
      assert events[..i + 1][..i] == events[..i];
      balance := Applied(balance, events[i]);
    }
    assert events[..|events|] == events;
  }

  class LedgerTable {
    const terms: map<int, Terms>
    var active: set<int>
    var balances: map<int, int>
    var log: seq<Event>

    constructor (terms: map<int, Terms>, active: set<int>)
      ensures this.terms == terms && this.active == active && log == []
      ensures Valid()
    {
      this.terms := terms;
      this.active := active;
      balances := map c | c in terms :: terms[c].principal;
      log := [];
    }

    /** Every balance is the replay of its contract's events, and no key occurs twice. */
    ghost predicate Valid()
      reads this
    {
      && UniqueKeys(log)
      && balances.Keys == terms.Keys
      && forall c | c in terms :: balances[c] == Replay(terms[c].principal, ContractLog(log, c))
    }

    /** Append an event and recompute its contract's balance; a taken key makes the insert fail. */
    method Apply(e: Event) returns (inserted: bool)
      requires Valid() && e.contract in terms
      modifies this`log, this`balances
      ensures Valid()
      ensures inserted == KeyFree(old(log), e)
      ensures log == if inserted then old(log) + [e] else old(log)
      ensures forall c | c in terms && c != e.contract :: balances[c] == old(balances)[c]
      ensures balances[e.contract] == if inserted then Applied(old(balances)[e.contract], e) else old(balances)[e.contract]
    {
      hide Applied, ContractLog;
      if exists i | 0 <= i < |log| :: SameKey(log[i], e) {
        return false;
      }
      var events := ContractLog(log, e.contract) + [e];
      forall c ensures ContractLog(log + [e], c) == if c == e.contract then events else ContractLog(log, c) {
        ContractLogSnoc(log, e, c);
      }
      log := log + [e];
      var balance := ReplayEvents(terms[e.contract].principal, events);
      balances := balances[e.contract := balance];
      assert events[..|events| - 1] == old(ContractLog(log, e.contract));
      return true;
    }
  }

  lemma ContractLogSnoc(log: seq<Event>, e: Event, c: int)
    ensures ContractLog(log + [e], c) == if e.contract == c then ContractLog(log, c) + [e] else ContractLog(log, c)
  {
    assert (log + [e])[..|log|] == log;
    assert ContractLog(log, c) + [] == ContractLog(log, c);
  }

  // ---------------------------------------------------------------- what replay means for money

  /** A payment of exactly the balance settles the contract. */
  lemma PaymentSettles(principal: int, events: seq<Event>, pay: Event)
    requires pay.kind == PaymentApplied && pay.amount == 100 * Replay(principal, events)
    ensures Replay(principal, events + [pay]) == 0
  {
    assert (events + [pay])[..|events|] == events;
  }

  /** A larger balance stays at least as large under the same events, rounding included. */
  lemma {:induction false} ReplayMonotone(principal: int, more: int, events: seq<Event>)
    requires principal <= more
    requires forall i | 0 <= i < |events| && events[i].kind in {PeriodInterest, LatePenalty} :: -10_000 <= events[i].amount
    ensures Replay(principal, events) <= Replay(more, events)
  {
    if events == [] {
    } else {
      var init, last := events[..|events| - 1], events[|events| - 1];
      ReplayMonotone(principal, more, init);
      var b, c := Replay(principal, init), Replay(more, init);
      match last.kind
      case PeriodInterest | LatePenalty =>
        assert b * (10_000 + last.amount) <= c * (10_000 + last.amount);
        RoundMonotone(b * (10_000 + last.amount), c * (10_000 + last.amount), 10_000);
      case PaymentApplied => RoundMonotone(100 * b - last.amount, 100 * c - last.amount, 100);
      case Adjustment | SurprisePenalty => RoundMonotone(100 * b + last.amount, 100 * c + last.amount, 100);
      case BuyoutPaid =>
    }
  }

  /**
   Paying before interest or a penalty never costs more than paying after it, whatever follows.
   The payment is in whole pence, as payment declarations are.
   */
  lemma PayingEarlyNeverCostsMore(principal: int, before: seq<Event>, pay: Event, charge: Event, rest: seq<Event>)
    requires pay.kind == PaymentApplied && 0 <= pay.amount && pay.amount % 100 == 0
    requires charge.kind in {PeriodInterest, LatePenalty} && 0 <= charge.amount
    requires forall i | 0 <= i < |rest| && rest[i].kind in {PeriodInterest, LatePenalty} :: -10_000 <= rest[i].amount
    ensures Replay(principal, before + [pay, charge] + rest) <= Replay(principal, before + [charge, pay] + rest)
  {
    var b := Replay(principal, before);
    SwapAtOnce(b, pay, charge);
    ReplayTwo(principal, before, pay, charge);
    ReplayTwo(principal, before, charge, pay);
    ReplayAppend(principal, before + [pay, charge], rest);
    ReplayAppend(principal, before + [charge, pay], rest);
    ReplayMonotone(Applied(Applied(b, pay), charge), Applied(Applied(b, charge), pay), rest);
  }

  lemma ReplayTwo(principal: int, before: seq<Event>, first: Event, second: Event)
    ensures Replay(principal, before + [first, second]) == Applied(Applied(Replay(principal, before), first), second)
  {
    assert (before + [first, second])[..|before| + 1] == before + [first];
    assert (before + [first])[..|before|] == before;
  }

  lemma {:induction false} ReplayAppend(principal: int, before: seq<Event>, rest: seq<Event>)
    ensures Replay(principal, before + rest) == Replay(Replay(principal, before), rest)
  {
    if rest == [] {
      assert before + rest == before;
    } else {
      assert (before + rest)[..|before + rest| - 1] == before + rest[..|rest| - 1];
      ReplayAppend(principal, before, rest[..|rest| - 1]);
    }
  }

  lemma SwapAtOnce(b: int, pay: Event, charge: Event)
    requires pay.kind == PaymentApplied && 0 <= pay.amount && pay.amount % 100 == 0
    requires charge.kind in {PeriodInterest, LatePenalty} && 0 <= charge.amount
    ensures Applied(Applied(b, pay), charge) <= Applied(Applied(b, charge), pay)
  {
    hide RoundHalfEven;
    var a, f := pay.amount / 100, 10_000 + charge.amount;
    var extra := a * charge.amount;
    WholePence(b, a);
    WholePence(RoundHalfEven(b * f, 10_000), a);
    assert (b - a) * f == b * f - 10_000 * a - extra;
    assert 0 <= extra;
    if a != 0 {
      RoundsBelow(b * f, a, extra);
      if extra == 0 {
        assert charge.amount == 0;
        assert b * f == 10_000 * b;
      }
    }
  }

  lemma RoundsBelow(n: int, a: int, extra: int)
    requires 0 <= extra && (extra == 0 ==> n % 10_000 == 0)
    ensures RoundHalfEven(n - 10_000 * a - extra, 10_000) <= RoundHalfEven(n, 10_000) - a
  {
    var r := RoundHalfEven(n, 10_000);
    RoundCut(n, 10_000, r + 1);
    RoundCut(n - 10_000 * a - extra, 10_000, r - a + 1);
  }

  lemma WholePence(b: int, a: int)
    ensures RoundHalfEven(100 * b - 100 * a, 100) == b - a
  {
    assert 100 * b - 100 * a == 100 * (b - a);
  }

  // ---------------------------------------------------------------- what each event does to the balance

  lemma LastReplayed(principal: int, events: seq<Event>, e: Event)
    ensures Replay(principal, events + [e]) == Applied(Replay(principal, events), e)
  {
    assert (events + [e])[..|events|] == events;
  }

  /**
   What one more event makes of the balance, in pence: interest and a late penalty add their rate,
   an adjustment or surprise penalty its amount, a payment takes its amount off, each to the
   nearest penny with ties to even; a buyout leaves nothing.
   */
  lemma EventEffect(principal: int, events: seq<Event>, e: Event)
    ensures
      var before, after := Replay(principal, events), Replay(principal, events + [e]);
      match e.kind
      case PeriodInterest => IsNearest(after, before * (10_000 + e.amount), 10_000)
      case LatePenalty => IsNearest(after, before * (10_000 + e.amount), 10_000)
      case PaymentApplied => IsNearest(after, 100 * before - e.amount, 100)
      case Adjustment => IsNearest(after, 100 * before + e.amount, 100)
      case SurprisePenalty => IsNearest(after, 100 * before + e.amount, 100)
      case BuyoutPaid => after == 0
  {
    hide RoundHalfEven, IsNearest;
    var b := Replay(principal, events);
    LastReplayed(principal, events, e);
    RoundIsNearest(b * (10_000 + e.amount), 10_000);
    RoundIsNearest(100 * b - e.amount, 100);
    RoundIsNearest(100 * b + e.amount, 100);
  }

  /** In whole pence the amounts are added and taken off exactly. */
  lemma WholePenceEffect(principal: int, events: seq<Event>, e: Event, pence: int)
    requires e.amount == 100 * pence
    ensures e.kind in {Adjustment, SurprisePenalty} ==> Replay(principal, events + [e]) == Replay(principal, events) + pence
    ensures e.kind == PaymentApplied ==> Replay(principal, events + [e]) == Replay(principal, events) - pence
  {
    hide RoundHalfEven, IsNearest, Replay;
    EventEffect(principal, events, e);
    var b, after := Replay(principal, events), Replay(principal, events + [e]);
    ExactIsNearest(b + pence);
    ExactIsNearest(b - pence);
    if e.kind == Adjustment || e.kind == SurprisePenalty {
      NearestIsOne(after, b + pence, 100 * b + e.amount, 100);
    } else if e.kind == PaymentApplied {
      NearestIsOne(after, b - pence, 100 * b - e.amount, 100);
    }
  }

  lemma ExactIsNearest(x: int)
    ensures IsNearest(x, 100 * x, 100)
  {
  }

  lemma NothingReplayed(principal: int)
    ensures Replay(principal, []) == principal
  {
  }

  /** A contract's own events, in order, and nothing else. */
  lemma {:induction false} ContractLogIs(log: seq<Event>, contract: int)
    ensures multiset(ContractLog(log, contract)) <= multiset(log)
    ensures forall e: Event :: e in ContractLog(log, contract) <==> (e in log && e.contract == contract)
    ensures forall e: Event | e.contract == contract :: multiset(ContractLog(log, contract))[e] == multiset(log)[e]
  {
    if log == [] {
    } else {
      var init := log[..|log| - 1];
      ContractLogIs(init, contract);
      assert log == init + [log[|log| - 1]];
    }
  }

  /** An insert fails exactly for an event of the same contract, type and period; one without a period never fails. */
  lemma KeyTakenIff(log: seq<Event>, e: Event)
    ensures !KeyFree(log, e) <==>
      exists p: int :: e.period == Some(p)
        && exists i | 0 <= i < |log| :: log[i].contract == e.contract && log[i].kind == e.kind && log[i].period == Some(p)
  {
    if e.period.Some? {
      var p := e.period.value;
      assert forall i | 0 <= i < |log| ::
        SameKey(log[i], e) <==> (log[i].contract == e.contract && log[i].kind == e.kind && log[i].period == Some(p));
    }
  }
}
