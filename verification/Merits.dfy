/** The merit points ledger: an insert that a repeated source makes a no-op, redemptions and punishments. */
module Merits {
  import opened Wrappers
  import opened Sums

  datatype SourceKind =
    | RitualComplete | RitualMiss | TaskComplete | TaskMiss | Manual
    | RewardRedeem | PunishmentInvoke | ContractMiss | RollingLate

  datatype MeritEvent = MeritEvent(sub: int, goddess: int, kind: SourceKind, source: Option<int>, delta: int)

  /** Equal keys of the partial index: events without a source are exempt. */
  predicate SameSource(a: MeritEvent, b: MeritEvent) {
    a.kind == b.kind && a.source == b.source && a.source.Some?
  }

  predicate SourceTaken(events: seq<MeritEvent>, e: MeritEvent) {
    exists i | 0 <= i < |events| :: SameSource(events[i], e)
  }

  predicate UniqueSources(events: seq<MeritEvent>) {
    forall i, j | 0 <= i < j < |events| :: !SameSource(events[i], events[j])
  }

  function Insert(events: seq<MeritEvent>, e: MeritEvent): seq<MeritEvent> {
    if SourceTaken(events, e) then events else events + [e]
  }

  function Balance(events: seq<MeritEvent>, sub: int, goddess: int): int {
    if events == [] then 0
    else
      var last := events[|events| - 1];
      Balance(events[..|events| - 1], sub, goddess) + if last.sub == sub && last.goddess == goddess then last.delta else 0
  }

  lemma BalanceSnoc(events: seq<MeritEvent>, e: MeritEvent, sub: int, goddess: int)
    ensures Balance(events + [e], sub, goddess)
      == Balance(events, sub, goddess) + if e.sub == sub && e.goddess == goddess then e.delta else 0
  {
    assert (events + [e])[..|events|] == events;
  }

  /** A balance is the sum of the deltas given to that sub under that goddess. */
  lemma {:induction false} BalanceIsSum(events: seq<MeritEvent>, sub: int, goddess: int)
    ensures Balance(events, sub, goddess)
      == Sum(seq(|events|, i requires 0 <= i < |events| =>
           if events[i].sub == sub && events[i].goddess == goddess then events[i].delta else 0))
  {
    if events == [] {
    } else {
      var init := events[..|events| - 1];
      BalanceIsSum(init, sub, goddess);
      var deltas := seq(|events|, i requires 0 <= i < |events| =>
        if events[i].sub == sub && events[i].goddess == goddess then events[i].delta else 0);
      assert deltas[..|init|] == seq(|init|, i requires 0 <= i < |init| =>
        if init[i].sub == sub && init[i].goddess == goddess then init[i].delta else 0);
    }
  }

  /** An event is refused exactly when one of the same kind and source is there; without a source never. */
  lemma InsertedIff(events: seq<MeritEvent>, e: MeritEvent)
    ensures Insert(events, e) == events + [e] <==> e.source.None? || forall x | x in events :: x.kind != e.kind || x.source != e.source
    ensures Insert(events, e) == events + [e] || Insert(events, e) == events
  {
    if SourceTaken(events, e) {
      var i :| 0 <= i < |events| && SameSource(events[i], e);
      assert events[i] in events;
      assert |Insert(events, e)| < |events + [e]|;
    } else {
      assert forall i | 0 <= i < |events| :: !SameSource(events[i], e);
    }
  }

  /** Any serial run of inserts keeps one event per source, and a repeated source changes nothing. */
  function InsertAll(events: seq<MeritEvent>, inserts: seq<MeritEvent>): seq<MeritEvent> {
    if inserts == [] then events else Insert(InsertAll(events, inserts[..|inserts| - 1]), inserts[|inserts| - 1])
  }

  lemma {:induction false} FirstInsertWins(events: seq<MeritEvent>, inserts: seq<MeritEvent>, e: MeritEvent)
    requires UniqueSources(events)
    ensures UniqueSources(InsertAll(events, inserts))
    ensures events <= InsertAll(events, inserts)
    ensures SourceTaken(events, e) ==> Insert(InsertAll(events, inserts), e) == InsertAll(events, inserts)
  {
    if inserts == [] {
    } else {
      FirstInsertWins(events, inserts[..|inserts| - 1], e);
    }
    if SourceTaken(events, e) {
      var i :| 0 <= i < |events| && SameSource(events[i], e);
      assert InsertAll(events, inserts)[i] == events[i];
    }
  }

  // ---------------------------------------------------------------- the tables

  datatype Tier = Tier(goddess: int, cost: int, active: bool)
  datatype Punishment = Punishment(goddess: int, points: int, active: bool)
  datatype Redemption = Redemption(id: int, sub: int, goddess: int, reward: int, cost: int)
  datatype Invoked = Invoked(task: int, sub: int, goddess: int, points: int)

  datatype Tables = Tables(events: seq<MeritEvent>, tiers: map<int, Tier>, punishments: map<int, Punishment>,
    redemptions: seq<Redemption>, tasks: seq<Invoked>)

  function RedeemEvent(r: Redemption): MeritEvent {
    MeritEvent(r.sub, r.goddess, RewardRedeem, Some(r.id), -r.cost)
  }

  function InvokeEvent(t: Invoked): MeritEvent {
    MeritEvent(t.sub, t.goddess, PunishmentInvoke, Some(t.task), t.points)
  }

  datatype Redeemed = Redeemed(redemption: int, newBalance: int)

  // `goddess` is the sub's goddess, if it has one; `id` the identifier the new row gets.
  function Redeem(s: Tables, sub: int, goddess: Option<int>, reward: int, id: int): (Tables, Result<Redeemed>) {
    if goddess.None? then (s, Err(Forbidden))
    else if reward !in s.tiers then (s, Err(NotFound))
    else if s.tiers[reward].goddess != goddess.value then (s, Err(Forbidden))
    else if !s.tiers[reward].active then (s, Err(Conflict))
    else if Balance(s.events, sub, goddess.value) < s.tiers[reward].cost then (s, Err(Validation))
    else
      var r := Redemption(id, sub, goddess.value, reward, s.tiers[reward].cost);
      if SourceTaken(s.events, RedeemEvent(r)) then (s, Err(Conflict))
      else
        var events := s.events + [RedeemEvent(r)];
        (s.(redemptions := s.redemptions + [r], events := events),
         Ok(Redeemed(id, Balance(events, sub, goddess.value))))
  }

  // `subGoddess` is the goddess of the sub named in the request; None when there is no such sub.
  function Invoke(s: Tables, goddess: Option<int>, punishment: int, sub: int, subGoddess: Option<int>, task: int): (Tables, Result<int>) {
    if goddess.None? then (s, Err(Forbidden))
    else if punishment !in s.punishments then (s, Err(NotFound))
    else if s.punishments[punishment].goddess != goddess.value then (s, Err(Forbidden))
    else if !s.punishments[punishment].active then (s, Err(Conflict))
    else if subGoddess.None? then (s, Err(NotFound))
    else if subGoddess != goddess then (s, Err(Forbidden))
    else
      var t := Invoked(task, sub, goddess.value, s.punishments[punishment].points);
      (s.(tasks := s.tasks + [t], events := Insert(s.events, InvokeEvent(t))), Ok(task))
  }

  class MeritTables {
    var events: seq<MeritEvent>
    var tiers: map<int, Tier>
    var punishments: map<int, Punishment>
    var redemptions: seq<Redemption>
    var tasks: seq<Invoked>

    constructor (tiers: map<int, Tier>, punishments: map<int, Punishment>)
      ensures State() == Tables([], tiers, punishments, [], [])
    {
      this.tiers, this.punishments := tiers, punishments;
      events, redemptions, tasks := [], [], [];
    }

    ghost function State(): Tables
      reads this
    {
      Tables(events, tiers, punishments, redemptions, tasks)
    }

    method InsertIdempotent(e: MeritEvent) returns (inserted: bool)
      modifies this`events
      ensures inserted == !SourceTaken(old(events), e)
      ensures events == Insert(old(events), e)
    {
      if SourceTaken(events, e) {
        return false;
      }
      events := events + [e];
      return true;
    }

    method BalanceForSub(sub: int, goddess: int) returns (balance: int)
      ensures balance == Balance(events, sub, goddess)
    {
      balance := 0;
      for i := 0 to |events|
        invariant balance == Balance(events[..i], sub, goddess)
      {
        assert events[..i + 1][..i] == events[..i];
        if events[i].sub == sub && events[i].goddess == goddess {
          balance := balance + events[i].delta;
        }
      }
      assert events[..|events|] == events;
    }

    method RedeemReward(sub: int, goddess: Option<int>, reward: int, id: int) returns (r: Result<Redeemed>)
      modifies this`events, this`redemptions
      ensures (State(), r) == Redeem(old(State()), sub, goddess, reward, id)
    {
      if goddess.None? {
        return Err(Forbidden);
      }
      if reward !in tiers {
        return Err(NotFound);
      }
      var tier := tiers[reward];
      if tier.goddess != goddess.value {
        return Err(Forbidden);
      }
      if !tier.active {
        return Err(Conflict);
      }
      var balance := BalanceForSub(sub, goddess.value);
      if balance < tier.cost {
        return Err(Validation);
      }
      var row := Redemption(id, sub, goddess.value, reward, tier.cost);
      var saved := redemptions;
      redemptions := redemptions + [row];
      var inserted := InsertIdempotent(RedeemEvent(row));
      if !inserted {
        // the request is rolled back
        redemptions := saved;
        return Err(Conflict);
      }
      var newBalance := BalanceForSub(sub, goddess.value);
      return Ok(Redeemed(id, newBalance));
    }

    method InvokePunishment(goddess: Option<int>, punishment: int, sub: int, subGoddess: Option<int>, task: int) returns (r: Result<int>)
      modifies this`events, this`tasks
      ensures (State(), r) == Invoke(old(State()), goddess, punishment, sub, subGoddess, task)
    {
      if goddess.None? {
        return Err(Forbidden);
      }
      if punishment !in punishments {
        return Err(NotFound);
      }
      var tier := punishments[punishment];
      if tier.goddess != goddess.value {
        return Err(Forbidden);
      }
      if !tier.active {
        return Err(Conflict);
      }
      if subGoddess.None? {
        return Err(NotFound);
      }
      if subGoddess != goddess {
        return Err(Forbidden);
      }
      var row := Invoked(task, sub, goddess.value, tier.points);
      tasks := tasks + [row];
      var _ := InsertIdempotent(InvokeEvent(row));
      return Ok(task);
    }
  }

  // ---------------------------------------------------------------- runs

  datatype Op =
    | RedeemOp(sub: int, goddess: Option<int>, reward: int, id: int)
    | InvokeOp(caller: Option<int>, punishment: int, sub: int, subGoddess: Option<int>, task: int)
    // completions, misses, manual credits and engine penalties
    | CreditOp(event: MeritEvent)
    | TierOp(id: int, tier: Tier)
    | PunishmentOp(id: int, punished: Punishment)

  function Step(s: Tables, op: Op): Tables {
    match op
    case RedeemOp(sub, goddess, reward, id) => Redeem(s, sub, goddess, reward, id).0
    case InvokeOp(goddess, punishment, sub, subGoddess, task) => Invoke(s, goddess, punishment, sub, subGoddess, task).0
    case CreditOp(e) => s.(events := Insert(s.events, e))
    case TierOp(id, tier) => s.(tiers := s.tiers[id := tier])
    case PunishmentOp(id, p) => s.(punishments := s.punishments[id := p])
  }

  predicate FreshIds(s: Tables, op: Op) {
    match op
    case RedeemOp(_, _, _, id) => forall i | 0 <= i < |s.redemptions| :: s.redemptions[i].id != id
    case InvokeOp(_, _, _, _, task) => forall i | 0 <= i < |s.tasks| :: s.tasks[i].task != task
    case CreditOp(e) => e.kind !in {RewardRedeem, PunishmentInvoke}
    case _ => true
  }

  function After(ops: seq<Op>): Tables {
    if ops == [] then Tables([], map[], map[], [], []) else Step(After(ops[..|ops| - 1]), ops[|ops| - 1])
  }

  predicate ValidRun(ops: seq<Op>) {
    ops == [] || (ValidRun(ops[..|ops| - 1]) && FreshIds(After(ops[..|ops| - 1]), ops[|ops| - 1]))
  }

  function OfKind(events: seq<MeritEvent>, kind: SourceKind): seq<MeritEvent> {
    if events == [] then []
    else OfKind(events[..|events| - 1], kind) + if events[|events| - 1].kind == kind then [events[|events| - 1]] else []
  }

  lemma OfKindSnoc(events: seq<MeritEvent>, e: MeritEvent, kind: SourceKind)
    ensures OfKind(events + [e], kind) == OfKind(events, kind) + if e.kind == kind then [e] else []
  {
    assert (events + [e])[..|events|] == events;
  }

  lemma {:induction false} OfKindHas(events: seq<MeritEvent>, kind: SourceKind, i: int)
    requires 0 <= i < |events| && events[i].kind == kind
    ensures events[i] in OfKind(events, kind)
  {
    if i == |events| - 1 {
    } else {
      OfKindHas(events[..|events| - 1], kind, i);
    }
  }

  function RedeemEvents(redemptions: seq<Redemption>): seq<MeritEvent> {
    seq(|redemptions|, i requires 0 <= i < |redemptions| => RedeemEvent(redemptions[i]))
  }

  function InvokeEvents(tasks: seq<Invoked>): seq<MeritEvent> {
    seq(|tasks|, i requires 0 <= i < |tasks| => InvokeEvent(tasks[i]))
  }

  /**
   One event per source; the redemption rows are, in order, the reward_redeem events, each with
   the price paid as its debit; so are the invoked punishments and their events.
   */
  ghost predicate LedgerInv(s: Tables) {
    && UniqueSources(s.events)
    && OfKind(s.events, RewardRedeem) == RedeemEvents(s.redemptions)
    && OfKind(s.events, PunishmentInvoke) == InvokeEvents(s.tasks)
  }

  lemma RedeemSourceFree(s: Tables, r: Redemption)
    requires LedgerInv(s) && forall i | 0 <= i < |s.redemptions| :: s.redemptions[i].id != r.id
    ensures !SourceTaken(s.events, RedeemEvent(r))
  {
    if SourceTaken(s.events, RedeemEvent(r)) {
      var i :| 0 <= i < |s.events| && SameSource(s.events[i], RedeemEvent(r));
      OfKindHas(s.events, RewardRedeem, i);
    }
  }

  lemma InvokeSourceFree(s: Tables, t: Invoked)
    requires LedgerInv(s) && forall i | 0 <= i < |s.tasks| :: s.tasks[i].task != t.task
    ensures !SourceTaken(s.events, InvokeEvent(t))
  {
    if SourceTaken(s.events, InvokeEvent(t)) {
      var i :| 0 <= i < |s.events| && SameSource(s.events[i], InvokeEvent(t));
      OfKindHas(s.events, PunishmentInvoke, i);
    }
  }

  lemma AppendKeepsLedger(s: Tables, after: Tables, e: MeritEvent)
    requires LedgerInv(s) && !SourceTaken(s.events, e) && after.events == s.events + [e]
    requires if e.kind == RewardRedeem then
        |after.redemptions| == |s.redemptions| + 1 && after.redemptions[..|s.redemptions|] == s.redemptions
        && e == RedeemEvent(after.redemptions[|s.redemptions|])
      else after.redemptions == s.redemptions
    requires if e.kind == PunishmentInvoke then
        |after.tasks| == |s.tasks| + 1 && after.tasks[..|s.tasks|] == s.tasks && e == InvokeEvent(after.tasks[|s.tasks|])
      else after.tasks == s.tasks
    ensures LedgerInv(after)
  {
    hide OfKind;
    RedemptionsMatch(s, after, e);
    InvokedMatch(s, after, e);
  }

  lemma RedemptionsMatch(s: Tables, after: Tables, e: MeritEvent)
    requires OfKind(s.events, RewardRedeem) == RedeemEvents(s.redemptions) && after.events == s.events + [e]
    requires if e.kind == RewardRedeem then
        |after.redemptions| == |s.redemptions| + 1 && after.redemptions[..|s.redemptions|] == s.redemptions
        && e == RedeemEvent(after.redemptions[|s.redemptions|])
      else after.redemptions == s.redemptions
    ensures OfKind(after.events, RewardRedeem) == RedeemEvents(after.redemptions)
  {
    hide OfKind;
    OfKindSnoc(s.events, e, RewardRedeem);
    assert forall i | 0 <= i < |s.redemptions| :: after.redemptions[i] == s.redemptions[i];
  }

  lemma InvokedMatch(s: Tables, after: Tables, e: MeritEvent)
    requires OfKind(s.events, PunishmentInvoke) == InvokeEvents(s.tasks) && after.events == s.events + [e]
    requires if e.kind == PunishmentInvoke then
        |after.tasks| == |s.tasks| + 1 && after.tasks[..|s.tasks|] == s.tasks && e == InvokeEvent(after.tasks[|s.tasks|])
      else after.tasks == s.tasks
    ensures OfKind(after.events, PunishmentInvoke) == InvokeEvents(after.tasks)
  {
    hide OfKind;
    OfKindSnoc(s.events, e, PunishmentInvoke);
    assert forall i | 0 <= i < |s.tasks| :: after.tasks[i] == s.tasks[i];
  }

  lemma StepKeepsLedger(s: Tables, op: Op)
    requires LedgerInv(s) && FreshIds(s, op)
    ensures LedgerInv(Step(s, op))
  {
    hide Balance;
    match op
    case RedeemOp(sub, goddess, reward, id) =>
      if Redeem(s, sub, goddess, reward, id).1.Ok? {
        AppendKeepsLedger(s, Step(s, op), RedeemEvent(Redemption(id, sub, goddess.value, reward, s.tiers[reward].cost)));
      }
    case InvokeOp(goddess, punishment, sub, subGoddess, task) =>
      if Invoke(s, goddess, punishment, sub, subGoddess, task).1.Ok? {
        var t := Invoked(task, sub, goddess.value, s.punishments[punishment].points);
        InvokeSourceFree(s, t);
        AppendKeepsLedger(s, Step(s, op), InvokeEvent(t));
      }
    case CreditOp(e) =>
      if !SourceTaken(s.events, e) {
        AppendKeepsLedger(s, Step(s, op), e);
      }
    case _ =>
  }

  lemma {:induction false} LedgerHolds(ops: seq<Op>)
    requires ValidRun(ops)
    ensures LedgerInv(After(ops))
  {
    if ops == [] {
    } else {
      LedgerHolds(ops[..|ops| - 1]);
      StepKeepsLedger(After(ops[..|ops| - 1]), ops[|ops| - 1]);
    }
  }

  /**
   In every run a redeem of an active, affordable tier of one's own goddess succeeds, writes its
   row and its debit, and leaves the old balance less the price, which is not negative.
   */
  lemma RedeemPays(ops: seq<Op>, sub: int, goddess: int, reward: int, id: int)
    requires ValidRun(ops) && FreshIds(After(ops), RedeemOp(sub, Some(goddess), reward, id))
    ensures
      var s := After(ops);
      var (after, r) := Redeem(s, sub, Some(goddess), reward, id);
      && (r.Ok? <==> (reward in s.tiers && s.tiers[reward].goddess == goddess && s.tiers[reward].active
                      && s.tiers[reward].cost <= Balance(s.events, sub, goddess)))
      && (r.Ok? ==>
        && r.value.newBalance == Balance(s.events, sub, goddess) - s.tiers[reward].cost
        && r.value.newBalance >= 0
        && Balance(after.events, sub, goddess) == r.value.newBalance
        && after.redemptions == s.redemptions + [Redemption(id, sub, goddess, reward, s.tiers[reward].cost)])
  {
    var s := After(ops);
    LedgerHolds(ops);
    if reward in s.tiers {
      var r := Redemption(id, sub, goddess, reward, s.tiers[reward].cost);
      RedeemSourceFree(s, r);
      BalanceSnoc(s.events, RedeemEvent(r), sub, goddess);
    }
  }

  /**
   In every run an invoke succeeds exactly for an active punishment of the caller's goddess and a
   sub of hers, and moves that sub's balance, and no other, by the punishment's points.
   */
  lemma InvokePays(ops: seq<Op>, goddess: int, punishment: int, sub: int, subGoddess: Option<int>, task: int)
    requires ValidRun(ops) && FreshIds(After(ops), InvokeOp(Some(goddess), punishment, sub, subGoddess, task))
    ensures
      var s := After(ops);
      var (after, r) := Invoke(s, Some(goddess), punishment, sub, subGoddess, task);
      && (r.Ok? <==> (punishment in s.punishments && s.punishments[punishment].goddess == goddess
                      && s.punishments[punishment].active && subGoddess == Some(goddess)))
      && (r.Err? ==> after == s)
      && (r.Ok? ==> forall u, g ::
            (Balance(after.events, u, g) == Balance(s.events, u, g) + if u == sub && g == goddess then s.punishments[punishment].points else 0))
  {
    var s := After(ops);
    LedgerHolds(ops);
    if punishment in s.punishments {
      var t := Invoked(task, sub, goddess, s.punishments[punishment].points);
      InvokeSourceFree(s, t);
      forall u, g
        ensures Balance(s.events + [InvokeEvent(t)], u, g) == Balance(s.events, u, g) + if u == sub && g == goddess then t.points else 0
      {
        BalanceSnoc(s.events, InvokeEvent(t), u, g);
      }
    }
  }
}
