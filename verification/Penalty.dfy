/** The penalty engine: which rule applies, when its cooldown suppresses it, and what it costs. */
module Penalty {
  import opened Wrappers
  import opened Merits
  import Calendar
  import Rounding

  datatype Trigger = ContractMissed | RitualMissed | RollingTributeLate | TaskMissed
  datatype Action = NotifyOnly | ApplyPoints | ApplyFee

  datatype Rule = Rule(id: int, goddess: int, sub: Option<int>, trigger: Trigger, action: Action, points: int,
    minDaysLate: Option<int>, cooldownHours: int, active: bool, createdAt: int)

  datatype Fire = Fire(rule: int, sub: int, goddess: int, trigger: Trigger, action: Action, points: int,
    kind: SourceKind, source: Option<int>, at: int)

  datatype Query = Query(goddess: int, sub: int, trigger: Trigger, days: Option<int>)

  // ---------------------------------------------------------------- choosing a rule

  predicate MeetsThreshold(r: Rule, days: Option<int>) {
    days.Some? && r.minDaysLate.Some? ==> r.minDaysLate.value <= days.value
  }

  predicate InScope(r: Rule, q: Query, subScoped: bool) {
    && r.goddess == q.goddess && r.trigger == q.trigger && r.active
    && r.sub == if subScoped then Some(q.sub) else None
  }

  predicate Eligible(r: Rule, q: Query, subScoped: bool) {
    InScope(r, q, subScoped) && MeetsThreshold(r, q.days)
  }

  predicate HigherThreshold(a: Rule, b: Rule) {
    a.minDaysLate.Some? && (b.minDaysLate.None? || a.minDaysLate.value > b.minDaysLate.value)
  }

  // The sort order of the query: newest first without a lateness, highest threshold first with one.
  predicate Ahead(a: Rule, b: Rule, days: Option<int>) {
    if days.None? then a.createdAt > b.createdAt else HigherThreshold(a, b)
  }

  // The order of the rows stands for the database's choice among rules that sort equally.
  function FindBest(rules: seq<Rule>, q: Query, subScoped: bool): Option<Rule> {
    if rules == [] then None
    else
      var best := FindBest(rules[..|rules| - 1], q, subScoped);
      var last := rules[|rules| - 1];
      if Eligible(last, q, subScoped) && (best.None? || Ahead(last, best.value, q.days)) then Some(last) else best
  }

  function FindMatchingRule(rules: seq<Rule>, q: Query): Option<Rule> {
    var specific := FindBest(rules, q, true);
    if specific.Some? then specific else FindBest(rules, q, false)
  }

  lemma {:induction false} BestIsBest(rules: seq<Rule>, q: Query, subScoped: bool)
    ensures FindBest(rules, q, subScoped).None? <==> forall r | r in rules :: !Eligible(r, q, subScoped)
    ensures
      var best := FindBest(rules, q, subScoped);
      best.Some? ==> (best.value in rules && Eligible(best.value, q, subScoped)
                      && forall r | r in rules && Eligible(r, q, subScoped) :: !Ahead(r, best.value, q.days))
  {
    if rules == [] {
    } else {
      var init, last := rules[..|rules| - 1], rules[|rules| - 1];
      BestIsBest(init, q, subScoped);
      assert forall r | r in rules :: r in init || r == last;
    }
  }

  /** What the documentation promises: own rules before goddess-wide ones, then the highest threshold met. */
  predicate ProperMatch(rules: seq<Rule>, q: Query, r: Rule) {
    && r in rules && (r.sub.Some? || forall x | x in rules :: !Eligible(x, q, true))
    && Eligible(r, q, r.sub.Some?)
    && forall x | x in rules && Eligible(x, q, r.sub.Some?) :: !Ahead(x, r, q.days)
  }

  lemma MatchIsMostSpecific(rules: seq<Rule>, q: Query)
    ensures FindMatchingRule(rules, q).None? <==> forall r | r in rules :: !Eligible(r, q, true) && !Eligible(r, q, false)
    ensures FindMatchingRule(rules, q).Some? ==> ProperMatch(rules, q, FindMatchingRule(rules, q).value)
  {
    BestIsBest(rules, q, true);
    BestIsBest(rules, q, false);
  }

  /** An active rule of this goddess and trigger, for this sub or for all of hers, whose threshold, if any, a given lateness reaches. */
  predicate Applies(r: Rule, q: Query) {
    && r.active && r.goddess == q.goddess && r.trigger == q.trigger && (r.sub == Some(q.sub) || r.sub == None)
    && (q.days == None || r.minDaysLate == None || q.days.value >= r.minDaysLate.value)
  }

  /** A rule is found exactly when one applies; it comes before each other one that applies: own, then highest threshold, or newest. */
  lemma FoundRuleIs(rules: seq<Rule>, q: Query)
    ensures FindMatchingRule(rules, q).None? <==> forall r | r in rules :: !Applies(r, q)
    ensures FindMatchingRule(rules, q).Some? ==>
      var r := FindMatchingRule(rules, q).value;
      && r in rules && Applies(r, q)
      && forall x | x in rules && Applies(x, q) ::
           if x.sub != r.sub then x.sub == None
           else if q.days == None then x.createdAt <= r.createdAt
           else x.minDaysLate == None || (r.minDaysLate.Some? && x.minDaysLate.value <= r.minDaysLate.value)
  {
    MatchIsMostSpecific(rules, q);
    hide FindMatchingRule;
    assert forall r | r in rules :: Applies(r, q) <==> Eligible(r, q, true) || Eligible(r, q, false);
  }

  // ---------------------------------------------------------------- the job's choice

  predicate HasOwn(rules: seq<Rule>, q: Query) {
    exists r | r in rules :: InScope(r, q, true)
  }

  /** A newest active rule of the scope: the sub's own rules if there are any, else the goddess-wide ones. */
  predicate Newest(rules: seq<Rule>, q: Query, r: Rule) {
    && r in rules && InScope(r, q, HasOwn(rules, q))
    && forall x | x in rules && InScope(x, q, HasOwn(rules, q)) :: x.createdAt <= r.createdAt
  }

  /** Its threshold is met, and no other rule of the scope has a higher one that is met. */
  predicate Outranks(rules: seq<Rule>, q: Query, r: Rule, d: int) {
    && MeetsThreshold(r, Some(d))
    && forall x | x in rules && InScope(x, q, r.sub.Some?) && MeetsThreshold(x, Some(d)) :: !HigherThreshold(x, r)
  }

  ghost predicate SameRows(rules: seq<Rule>, others: seq<Rule>) {
    forall r :: r in rules <==> r in others
  }

  lemma JobPicksNewest(rules: seq<Rule>, order: seq<Rule>, q: Query)
    requires q.days.None? && SameRows(order, rules) && FindMatchingRule(order, q).Some?
    ensures Newest(rules, q, FindMatchingRule(order, q).value)
  {
    hide FindMatchingRule;
    MatchIsMostSpecific(order, q);
    var r := FindMatchingRule(order, q).value;
    assert r.sub.Some? <==> HasOwn(rules, q);
    assert forall x | x in rules && InScope(x, q, r.sub.Some?) :: Eligible(x, q, r.sub.Some?);
  }

  lemma {:induction false} FirstKept(r: Rule, rules: seq<Rule>, q: Query, subScoped: bool)
    requires Eligible(r, q, subScoped) && forall x | x in rules && Eligible(x, q, subScoped) :: !Ahead(x, r, q.days)
    ensures FindBest([r] + rules, q, subScoped) == Some(r)
  {
    var all := [r] + rules;
    if rules == [] {
      assert all[..0] == [];
    } else {
      assert all[..|all| - 1] == [r] + rules[..|rules| - 1];
      FirstKept(r, rules[..|rules| - 1], q, subScoped);
    }
  }

  /** Among newest rules of one age the database may return any. */
  lemma NewestCanBePicked(rules: seq<Rule>, q: Query, r: Rule)
    requires q.days.None? && Newest(rules, q, r)
    ensures SameRows([r] + rules, rules) && FindMatchingRule([r] + rules, q) == Some(r)
  {
    var own := HasOwn(rules, q);
    FirstKept(r, rules, q, own);
    BestIsBest([r] + rules, q, true);
    if !own {
      assert forall x | x in [r] + rules :: x in rules && !InScope(x, q, true);
    }
  }

  lemma ProperIff(rules: seq<Rule>, q: Query, r: Rule, d: int)
    requires Newest(rules, q, r)
    ensures ProperMatch(rules, q.(days := Some(d)), r) <==> Outranks(rules, q, r, d)
  {
    var days := q.(days := Some(d));
    assert forall x, own :: InScope(x, days, own) <==> InScope(x, q, own);
    assert r.sub.Some? <==> HasOwn(rules, q);
  }

  /**
   The daily job asks for the rolling-late rule without saying how late the sub is. For a sub `d`
   days late its choice is the documented one, whichever way the database breaks ties, exactly
   when every newest active rule of the scope outranks the others at `d` days.
   */
  lemma LatenessHonouredIff(rules: seq<Rule>, q: Query, d: int)
    requires q.days.None?
    ensures
      (forall order: seq<Rule> | SameRows(order, rules) && FindMatchingRule(order, q).Some? ::
         ProperMatch(rules, q.(days := Some(d)), FindMatchingRule(order, q).value))
      <==> forall r | r in rules && Newest(rules, q, r) :: Outranks(rules, q, r, d)
  {
    hide FindMatchingRule, ProperMatch, Newest, Outranks, SameRows;
    forall order: seq<Rule> | SameRows(order, rules) && FindMatchingRule(order, q).Some?
      ensures FindMatchingRule(order, q).value in rules && Newest(rules, q, FindMatchingRule(order, q).value)
      ensures ProperMatch(rules, q.(days := Some(d)), FindMatchingRule(order, q).value)
        <==> Outranks(rules, q, FindMatchingRule(order, q).value, d)
    {
      var r := FindMatchingRule(order, q).value;
      JobPicksNewest(rules, order, q);
      NewestIsThere(rules, q, r);
      ProperIff(rules, q, r, d);
    }
    forall r | r in rules && Newest(rules, q, r)
      ensures SameRows([r] + rules, rules) && FindMatchingRule([r] + rules, q) == Some(r)
    {
      NewestCanBePicked(rules, q, r);
    }
  }

  lemma NewestIsThere(rules: seq<Rule>, q: Query, r: Rule)
    requires Newest(rules, q, r)
    ensures r in rules
  {
  }

  /** So it is for every lateness exactly when each newest rule has the highest threshold of the scope and that is at most one day. */
  lemma ThresholdsHonouredIff(rules: seq<Rule>, q: Query)
    requires q.days.None?
    ensures
      (forall order: seq<Rule>, d: int | SameRows(order, rules) && FindMatchingRule(order, q).Some? && d >= 1 ::
         ProperMatch(rules, q.(days := Some(d)), FindMatchingRule(order, q).value))
      <==> forall r | r in rules && Newest(rules, q, r) ::
             (MeetsThreshold(r, Some(1)) && forall x | x in rules && InScope(x, q, r.sub.Some?) :: !HigherThreshold(x, r))
  {
    hide FindMatchingRule, ProperMatch, Newest, SameRows;
    forall d: int | d >= 1
      ensures (forall order: seq<Rule> | SameRows(order, rules) && FindMatchingRule(order, q).Some? ::
          ProperMatch(rules, q.(days := Some(d)), FindMatchingRule(order, q).value))
        <==> forall r | r in rules && Newest(rules, q, r) :: Outranks(rules, q, r, d)
    {
      LatenessHonouredIff(rules, q, d);
    }
    forall r | r in rules
      ensures (forall d: int | d >= 1 :: Outranks(rules, q, r, d))
        <==> (MeetsThreshold(r, Some(1)) && forall x | x in rules && InScope(x, q, r.sub.Some?) :: !HigherThreshold(x, r))
    {
      EveryLateness(rules, q, r);
    }
  }

  lemma EveryLateness(rules: seq<Rule>, q: Query, r: Rule)
    ensures (forall d: int | d >= 1 :: Outranks(rules, q, r, d))
      <==> (MeetsThreshold(r, Some(1)) && forall x | x in rules && InScope(x, q, r.sub.Some?) :: !HigherThreshold(x, r))
  {
    if forall d: int | d >= 1 :: Outranks(rules, q, r, d) {
      assert Outranks(rules, q, r, 1);
      forall x | x in rules && InScope(x, q, r.sub.Some?)
        ensures !HigherThreshold(x, r)
      {
        var d := if x.minDaysLate.Some? && x.minDaysLate.value >= 1 then x.minDaysLate.value else 1;
        assert Outranks(rules, q, r, d);
      }
    }
  }

  /** Without a lateness the thresholds have no influence at all on which rule is chosen. */
  lemma {:induction false} ThresholdsInert(rules: seq<Rule>, others: seq<Rule>, q: Query, subScoped: bool)
    requires q.days.None? && |rules| == |others|
    requires forall i | 0 <= i < |rules| :: others[i] == rules[i].(minDaysLate := others[i].minDaysLate)
    ensures
      match FindBest(rules, q, subScoped)
      case None => FindBest(others, q, subScoped).None?
      case Some(r) => exists x :: FindBest(others, q, subScoped) == Some(x) && x == r.(minDaysLate := x.minDaysLate)
  {
    if rules == [] {
    } else {
      ThresholdsInert(rules[..|rules| - 1], others[..|others| - 1], q, subScoped);
      var a, b := rules[|rules| - 1], others[|rules| - 1];
      assert b == a.(minDaysLate := b.minDaysLate);
    }
  }

  // One day late under a single thirty-day rule: the job applies it, the documented search does not.
  lemma ThirtyDayRuleOnDayOne()
    ensures
      var rule := Rule(1, 7, None, RollingTributeLate, ApplyPoints, -5, Some(30), 24, true, 0);
      var q := Query(7, 3, RollingTributeLate, Some(1));
      FindMatchingRule([rule], q).None? && FindMatchingRule([rule], q.(days := None)) == Some(rule)
  {
    var rule := Rule(1, 7, None, RollingTributeLate, ApplyPoints, -5, Some(30), 24, true, 0);
    var q := Query(7, 3, RollingTributeLate, Some(1));
    MatchIsMostSpecific([rule], q);
    MatchIsMostSpecific([rule], q.(days := None));
    assert rule in [rule] && Eligible(rule, q.(days := None), false);
  }

  // ---------------------------------------------------------------- applying a penalty

  datatype State = State(rules: seq<Rule>, fires: seq<Fire>, events: seq<MeritEvent>)

  // `now` is the clock at the cooldown check and `logged` the clock when the fire is written.
  datatype Call = Call(query: Query, kind: SourceKind, source: Option<int>, defaultDelta: int, now: int, logged: int)

  predicate SameKey(f: Fire, rule: int, sub: int, kind: SourceKind, source: Option<int>) {
    f.rule == rule && f.sub == sub && f.kind == kind && f.source == source
  }

  predicate FiredWithinCooldown(fires: seq<Fire>, rule: int, sub: int, kind: SourceKind, source: Option<int>, now: int, hours: int) {
    exists f | f in fires :: SameKey(f, rule, sub, kind, source) && f.at >= now - hours * Calendar.HOUR
  }

  function CallEvent(c: Call, delta: int): MeritEvent {
    MeritEvent(c.query.sub, c.query.goddess, c.kind, c.source, delta)
  }

  function FireOf(r: Rule, c: Call, points: int): Fire {
    Fire(r.id, c.query.sub, r.goddess, c.query.trigger, r.action, points, c.kind, c.source, c.logged)
  }

  function Apply(s: State, c: Call): (State, int) {
    match FindMatchingRule(s.rules, c.query)
    case None =>
      if c.defaultDelta == 0 then (s, 0)
      else (s.(events := Insert(s.events, CallEvent(c, c.defaultDelta))), c.defaultDelta)
    case Some(r) =>
      if FiredWithinCooldown(s.fires, r.id, c.query.sub, c.kind, c.source, c.now, r.cooldownHours) then (s, 0)
      else
        var event := CallEvent(c, r.points);
        var points := if r.action == ApplyPoints && !SourceTaken(s.events, event) then r.points else 0;
        (s.(events := if r.action == ApplyPoints then Insert(s.events, event) else s.events,
            fires := s.fires + [FireOf(r, c, points)]),
         points)
  }

  class PenaltyEngine {
    const merits: MeritTables
    var rules: seq<Rule>
    var fires: seq<Fire>

    constructor (merits: MeritTables)
      ensures this.merits == merits && Contents() == State([], [], merits.events)
    {
      this.merits := merits;
      rules, fires := [], [];
    }

    ghost function Contents(): State
      reads this, merits
    {
      State(rules, fires, merits.events)
    }

    method ApplyPenalty(c: Call) returns (applied: int)
      modifies this`fires, merits`events
      ensures (Contents(), applied) == Apply(old(Contents()), c)
    {
      var rule := FindMatchingRule(rules, c.query);
      if rule.None? {
        if c.defaultDelta == 0 {
          return 0;
        }
        var _ := merits.InsertIdempotent(CallEvent(c, c.defaultDelta));
        return c.defaultDelta;
      }
      if FiredWithinCooldown(fires, rule.value.id, c.query.sub, c.kind, c.source, c.now, rule.value.cooldownHours) {
        return 0;
      }
      applied := 0;
      if rule.value.action == ApplyPoints {
        var inserted := merits.InsertIdempotent(CallEvent(c, rule.value.points));
        if inserted {
          applied := rule.value.points;
        }
      }
      fires := fires + [FireOf(rule.value, c, applied)];
    }
  }

  /** What one call books and logs: the default, or the points of the found rule unless it cooled down or the source was charged before. */
  lemma CallEffect(s: State, c: Call)
    ensures
      var q := c.query;
      var unused := c.source.None? || forall e | e in s.events :: e.kind != c.kind || e.source != c.source;
      match FindMatchingRule(s.rules, q)
      case None =>
        Apply(s, c) == (State(s.rules, s.fires, s.events + if c.defaultDelta != 0 && unused
          then [MeritEvent(q.sub, q.goddess, c.kind, c.source, c.defaultDelta)] else []), c.defaultDelta)
      case Some(r) =>
        var cooling := exists f | f in s.fires ::
          f.rule == r.id && f.sub == q.sub && f.kind == c.kind && f.source == c.source && c.now <= f.at + r.cooldownHours * 3_600_000_000;
        var points := if r.action == ApplyPoints && unused then r.points else 0;
        if cooling then Apply(s, c) == (s, 0)
        else Apply(s, c) == (State(s.rules, s.fires + [Fire(r.id, q.sub, q.goddess, q.trigger, r.action, points, c.kind, c.source, c.logged)],
          s.events + if r.action == ApplyPoints && unused then [MeritEvent(q.sub, q.goddess, c.kind, c.source, r.points)] else []), points)
  {
    hide FindMatchingRule, Insert, SourceTaken;
    FoundRuleIs(s.rules, c.query);
    assert s.events + [] == s.events;
    match FindMatchingRule(s.rules, c.query)
    case None => InsertedIff(s.events, CallEvent(c, c.defaultDelta));
    case Some(r) =>
      InsertedIff(s.events, CallEvent(c, r.points));
      TakenIff(s.events, CallEvent(c, r.points));
  }

  lemma TakenIff(events: seq<MeritEvent>, e: MeritEvent)
    ensures SourceTaken(events, e) <==> Insert(events, e) == events
  {
    assert |events + [e]| != |events|;
  }

  /**
   The returned delta is what the sub's balance changed by, except when no rule matches and the
   default penalty was already charged for this source: then it reports a charge that was not made.
   */
  lemma DeltaIsBalanceChangeIff(s: State, c: Call)
    ensures
      var (after, delta) := Apply(s, c);
      (Balance(after.events, c.query.sub, c.query.goddess) == Balance(s.events, c.query.sub, c.query.goddess) + delta)
      <==> !(FindMatchingRule(s.rules, c.query).None? && c.defaultDelta != 0
             && SourceTaken(s.events, CallEvent(c, c.defaultDelta)))
  {
    hide FindMatchingRule, FiredWithinCooldown, Balance;
    match FindMatchingRule(s.rules, c.query)
    case None => BalanceSnoc(s.events, CallEvent(c, c.defaultDelta), c.query.sub, c.query.goddess);
    case Some(r) => BalanceSnoc(s.events, CallEvent(c, r.points), c.query.sub, c.query.goddess);
  }

  /**
   After a call that was not suppressed, the next one for the same sub and source is suppressed
   exactly until the rule's cooldown has passed since the first was logged.
   */
  lemma SuppressedIff(s: State, first: Call, second: Call)
    requires second.query == first.query && second.kind == first.kind && second.source == first.source && first.now <= second.now
    requires FindMatchingRule(s.rules, first.query).Some?
    requires
      var r := FindMatchingRule(s.rules, first.query).value;
      !FiredWithinCooldown(s.fires, r.id, first.query.sub, first.kind, first.source, first.now, r.cooldownHours)
    ensures
      var r, after := FindMatchingRule(s.rules, first.query).value, Apply(s, first).0;
      (Apply(after, second).0.fires == after.fires) <==> second.now - first.logged <= r.cooldownHours * Calendar.HOUR
    ensures
      var r, after := FindMatchingRule(s.rules, first.query).value, Apply(s, first).0;
      second.now - first.logged <= r.cooldownHours * Calendar.HOUR ==> Apply(after, second) == (after, 0)
  {
    hide FindMatchingRule;
    var r, after := FindMatchingRule(s.rules, first.query).value, Apply(s, first).0;
    var fire := after.fires[|s.fires|];
    assert after.fires == s.fires + [fire] && fire in after.fires;
    assert SameKey(fire, r.id, first.query.sub, first.kind, first.source) && fire.at == first.logged;
    assert forall f | f in after.fires :: f in s.fires || f == fire;
  }

  /** Without rules, the default penalty of a source charged twice is reported twice and booked once. */
  lemma RepeatedDefault(c: Call)
    requires c.defaultDelta != 0 && c.source.Some?
    ensures
      var first := Apply(State([], [], []), c);
      var second := Apply(first.0, c);
      && first.1 == second.1 == c.defaultDelta && second.0 == first.0
      && Balance(second.0.events, c.query.sub, c.query.goddess) == c.defaultDelta
  {
    InsertUses([], CallEvent(c, c.defaultDelta));
    InsertUses([CallEvent(c, c.defaultDelta)], CallEvent(c, c.defaultDelta));
    BalanceSnoc([], CallEvent(c, c.defaultDelta), c.query.sub, c.query.goddess);
    assert [] + [CallEvent(c, c.defaultDelta)] == [CallEvent(c, c.defaultDelta)];
  }

  // ---------------------------------------------------------------- runs

  datatype Op =
    | Penalise(call: Call)
    // the rule table after a create, update or delete; the fires of a rule that is gone go with it
    | SetRules(rules: seq<Rule>)
    | Credit(event: MeritEvent)

  function Filter(fires: seq<Fire>, keep: Fire -> bool): seq<Fire> {
    if fires == [] then []
    else Filter(fires[..|fires| - 1], keep) + if keep(fires[|fires| - 1]) then [fires[|fires| - 1]] else []
  }

  predicate HasRule(rules: seq<Rule>, id: int) {
    exists r | r in rules :: r.id == id
  }

  function Step(s: State, op: Op): State {
    match op
    case Penalise(c) => Apply(s, c).0
    case SetRules(rules) => State(rules, Filter(s.fires, (f: Fire) => HasRule(rules, f.rule)), s.events)
    case Credit(e) => s.(events := Insert(s.events, e))
  }

  function After(ops: seq<Op>): State {
    if ops == [] then State([], [], []) else Step(After(ops[..|ops| - 1]), ops[|ops| - 1])
  }

  predicate ClockForward(ops: seq<Op>) {
    forall op | op in ops && op.Penalise? :: op.call.now <= op.call.logged
  }

  ghost predicate Pairwise(fires: seq<Fire>, rel: (Fire, Fire) -> bool) {
    forall i, j | 0 <= i < j < |fires| :: rel(fires[i], fires[j])
  }

  lemma {:induction false} FilterPairwise(fires: seq<Fire>, keep: Fire -> bool, rel: (Fire, Fire) -> bool)
    requires Pairwise(fires, rel)
    ensures Pairwise(Filter(fires, keep), rel)
    ensures forall f | f in Filter(fires, keep) :: f in fires && keep(f)
  {
    if fires == [] {
    } else {
      var init, last := fires[..|fires| - 1], fires[|fires| - 1];
      FilterPairwise(init, keep, rel);
      forall f | f in init
        ensures rel(f, last)
      {
        var i :| 0 <= i < |init| && init[i] == f;
        assert rel(fires[i], fires[|fires| - 1]);
      }
    }
  }

  function SpacedBy(rule: int, hours: int): (Fire, Fire) -> bool {
    (a: Fire, b: Fire) =>
      a.rule == rule && SameKey(b, rule, a.sub, a.kind, a.source) ==> b.at - a.at > hours * Calendar.HOUR
  }

  predicate CooldownFixed(ops: seq<Op>, rule: int, hours: int) {
    forall op | op in ops && op.SetRules? :: forall r | r in op.rules && r.id == rule :: r.cooldownHours == hours
  }

  /** Two fires of one rule for the same sub and source are more than its cooldown apart. */
  lemma {:induction false} FiresAreSpaced(ops: seq<Op>, rule: int, hours: int)
    requires ClockForward(ops) && CooldownFixed(ops, rule, hours)
    ensures Pairwise(After(ops).fires, SpacedBy(rule, hours))
    ensures forall r | r in After(ops).rules && r.id == rule :: r.cooldownHours == hours
  {
    hide FindMatchingRule;
    if ops == [] {
    } else {
      var init, last := ops[..|ops| - 1], ops[|ops| - 1];
      FiresAreSpaced(init, rule, hours);
      var s := After(init);
      match last
      case Penalise(c) =>
        MatchIsMostSpecific(s.rules, c.query);
      case SetRules(rules) =>
        FilterPairwise(s.fires, (f: Fire) => HasRule(rules, f.rule), SpacedBy(rule, hours));
      case Credit(_) =>
    }
  }

  // The fires of one key from time `lo` to time `hi`.
  function FiresBetween(fires: seq<Fire>, rule: int, sub: int, kind: SourceKind, source: Option<int>, lo: int, hi: int): seq<Fire> {
    Filter(fires, (f: Fire) => SameKey(f, rule, sub, kind, source) && lo <= f.at <= hi)
  }

  lemma {:induction false} SpacedFiresReach(fires: seq<Fire>, gap: int, lo: int)
    requires forall i | 0 <= i < |fires| :: lo <= fires[i].at
    requires forall i, j | 0 <= i < j < |fires| :: fires[j].at - fires[i].at > gap
    ensures fires != [] ==> fires[|fires| - 1].at >= lo + (|fires| - 1) * gap
  {
    if |fires| <= 1 {
    } else {
      SpacedFiresReach(fires[..|fires| - 1], gap, lo);
    }
  }

  lemma SpacedCount(fires: seq<Fire>, gap: int, lo: int, span: nat)
    requires gap > 0
    requires forall i | 0 <= i < |fires| :: lo <= fires[i].at <= lo + span
    requires forall i, j | 0 <= i < j < |fires| :: fires[j].at - fires[i].at > gap
    ensures |fires| <= span / gap + 1
  {
    SpacedFiresReach(fires, gap, lo);
    if fires != [] {
      QuotientBound(|fires| - 1, gap, span);
    }
  }

  lemma HitsAreSpaced(fires: seq<Fire>, rule: int, hours: int, sub: int, kind: SourceKind, source: Option<int>, lo: int, hi: int)
    requires Pairwise(fires, SpacedBy(rule, hours))
    ensures
      var hits := FiresBetween(fires, rule, sub, kind, source, lo, hi);
      && (forall i | 0 <= i < |hits| :: lo <= hits[i].at <= hi)
      && (forall i, j | 0 <= i < j < |hits| :: hits[j].at - hits[i].at > hours * Calendar.HOUR)
  {
    var keep := (f: Fire) => SameKey(f, rule, sub, kind, source) && lo <= f.at <= hi;
    FilterPairwise(fires, keep, SpacedBy(rule, hours));
    var hits := FiresBetween(fires, rule, sub, kind, source, lo, hi);
    assert hits == Filter(fires, keep);
    assert forall i | 0 <= i < |hits| :: hits[i] in hits;
    forall i, j | 0 <= i < j < |hits|
      ensures hits[j].at - hits[i].at > hours * Calendar.HOUR
    {
      assert SpacedBy(rule, hours)(hits[i], hits[j]);
    }
  }

  /** In any run, a span of time T holds at most T / cooldown + 1 fires of one rule, sub and source. */
  lemma FiresPerSpan(ops: seq<Op>, rule: int, hours: int, sub: int, kind: SourceKind, source: Option<int>, lo: int, span: nat)
    requires ClockForward(ops) && CooldownFixed(ops, rule, hours) && hours > 0
    ensures |FiresBetween(After(ops).fires, rule, sub, kind, source, lo, lo + span)| <= span / (hours * Calendar.HOUR) + 1
  {
    hide After, FiresBetween, Pairwise;
    FiresAreSpaced(ops, rule, hours);
    HitsAreSpaced(After(ops).fires, rule, hours, sub, kind, source, lo, lo + span);
    SpacedCount(FiresBetween(After(ops).fires, rule, sub, kind, source, lo, lo + span), hours * Calendar.HOUR, lo, span);
  }

  lemma QuotientBound(n: int, gap: int, span: nat)
    requires gap > 0 && n * gap <= span
    ensures n <= span / gap
  {
    var q := span / gap;
    assert span < q * gap + gap;
    if q < n {
      MoreGaps(n, q, gap);
    }
  }

  lemma MoreGaps(n: int, q: int, gap: int)
    requires q < n && 0 < gap
    ensures q * gap + gap <= n * gap
  {
    Rounding.Scale(q + 1, n, gap);
    assert (q + 1) * gap == q * gap + gap;
  }

  predicate SourceUsed(events: seq<MeritEvent>, kind: SourceKind, source: Option<int>) {
    SourceTaken(events, MeritEvent(0, 0, kind, source, 0))
  }

  function PaysOnce(): (Fire, Fire) -> bool {
    (a: Fire, b: Fire) => a.action == ApplyPoints && a.source.Some? && b.kind == a.kind && b.source == a.source ==> b.points == 0
  }

  /**
   One event per source in any run; so after a points rule has fired for a source, every later
   fire for it, by any rule and however long after, is worth no points.
   */
  lemma {:induction false} LaterFiresPayNothing(ops: seq<Op>)
    ensures UniqueSources(After(ops).events)
    ensures forall f | f in After(ops).fires && f.action == ApplyPoints && f.source.Some? :: SourceUsed(After(ops).events, f.kind, f.source)
    ensures Pairwise(After(ops).fires, PaysOnce())
  {
    hide FindMatchingRule, FiredWithinCooldown;
    if ops == [] {
    } else {
      var init, last := ops[..|ops| - 1], ops[|ops| - 1];
      LaterFiresPayNothing(init);
      var s, after := After(init), After(ops);
      match last
      case Penalise(c) =>
        ApplyPaysOnce(s, c);
      case SetRules(rules) =>
        FilterPairwise(s.fires, (f: Fire) => HasRule(rules, f.rule), PaysOnce());
      case Credit(_) => assert s.events <= after.events;
      UsedStaysUsed(s.events, after.events);
    }
  }

  lemma InsertUses(events: seq<MeritEvent>, e: MeritEvent)
    ensures SourceTaken(events, e) <==> SourceUsed(events, e.kind, e.source)
    ensures e.source.Some? ==> SourceUsed(Insert(events, e), e.kind, e.source)
  {
    var bare := MeritEvent(0, 0, e.kind, e.source, 0);
    assert forall i | 0 <= i < |events| :: SameSource(events[i], e) <==> SameSource(events[i], bare);
    if !SourceTaken(events, e) && e.source.Some? {
      assert SameSource((events + [e])[|events|], bare);
    }
  }

  lemma ApplyPaysOnce(s: State, c: Call)
    requires UniqueSources(s.events)
    ensures
      var after := Apply(s, c).0;
      && UniqueSources(after.events) && s.events <= after.events
      && (after.fires == s.fires
          || (exists f ::
                (after.fires == s.fires + [f]
                 && (f.action == ApplyPoints && f.source.Some? ==> SourceUsed(after.events, f.kind, f.source))
                 && (SourceUsed(s.events, f.kind, f.source) ==> f.points == 0))))
  {
    hide FindMatchingRule, FiredWithinCooldown;
    match FindMatchingRule(s.rules, c.query)
    case None =>
    case Some(r) =>
      InsertUses(s.events, CallEvent(c, r.points));
      var after := Apply(s, c).0;
      if after.fires != s.fires {
        var f := after.fires[|s.fires|];
        assert after.fires == s.fires + [f];
      }
  }

  lemma UsedStaysUsed(events: seq<MeritEvent>, more: seq<MeritEvent>)
    requires events <= more
    ensures forall kind, source | SourceUsed(events, kind, source) :: SourceUsed(more, kind, source)
  {
    forall kind, source | SourceUsed(events, kind, source)
      ensures SourceUsed(more, kind, source)
    {
      var i :| 0 <= i < |events| && SameSource(events[i], MeritEvent(0, 0, kind, source, 0));
      assert SameSource(more[i], MeritEvent(0, 0, kind, source, 0));
    }
  }
}
