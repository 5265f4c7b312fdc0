/** Whole runs of the review tables: one outcome per item, points that match it, bulk results in closed form. */
module ReviewRuns {
  import opened Wrappers
  import opened Merits
  import opened Review
  import Penalty

  function Events(s: State): seq<MeritEvent> {
    s.penalties.events
  }

  predicate Used(events: seq<MeritEvent>, kind: SourceKind, id: int) {
    Penalty.SourceUsed(events, kind, Some(id))
  }

  predicate IsReviewed(t: Task) {
    t.status in {Approved, Declined}
  }

  /**
   A task is credited exactly when approved, with its own points; it is charged for a miss only
   when declined; it records who decided exactly when approved or declined.
   */
  predicate TaskSound(events: seq<MeritEvent>, id: int, t: Task) {
    && (t.status == Approved <==> Used(events, TaskComplete, id))
    && (Used(events, TaskMiss, id) ==> t.status == Declined)
    && (IsReviewed(t) <==> t.reviewedBy.Some?) && (IsReviewed(t) <==> t.reviewedAt.Some?)
    && (t.status == InReview || IsReviewed(t) ==> t.submittedAt.Some?)
    && (t.status == Open ==> t.submittedAt.None?)
    && (forall e | e in events && e.kind == TaskComplete && e.source == Some(id) :: e == MeritEvent(t.sub, t.goddess, TaskComplete, Some(id), t.pointsOnComplete))
  }

  /** A completion is credited exactly when completed; a miss is charged only when rejected, which always charges, or missed. */
  predicate OccurrenceSound(events: seq<MeritEvent>, o: Occurrence, id: int) {
    && (o.status == Completed <==> Used(events, RitualComplete, id))
    && (Used(events, RitualMiss, id) ==> o.status in {Rejected, Missed})
    && (o.status == Rejected ==> Used(events, RitualMiss, id))
    && (o.completedAt.Some? || o.reviewedBy.Some? <==> o.status in {Completed, Rejected})
    && !(o.completedAt.Some? && o.reviewedBy.Some?)
  }

  ghost predicate Sound(s: State) {
    && (forall id | id in s.tasks :: TaskSound(Events(s), id, s.tasks[id]))
    && (forall id | id in s.occurrences :: OccurrenceSound(Events(s), s.occurrences[id], id))
    && (forall id | id in s.occurrences :: s.occurrences[id].ritual in s.rituals)
    && OnePerDay(s.occurrences)
  }

  predicate OnePerDay(occurrences: map<int, Occurrence>) {
    forall a, b | a in occurrences && b in occurrences && a != b ::
      occurrences[a].ritual != occurrences[b].ritual || occurrences[a].date != occurrences[b].date
  }

  // ---------------------------------------------------------------- what a step adds to the merit ledger

  /** Events are only appended, and only of one kind and for the given sources. */
  predicate AddsOnly(events: seq<MeritEvent>, more: seq<MeritEvent>, kind: SourceKind, sources: set<Option<int>>) {
    && events <= more
    && (forall e | e in more :: e in events || (e.kind == kind && e.source in sources))
  }

  lemma InsertAdds(events: seq<MeritEvent>, e: MeritEvent)
    ensures AddsOnly(events, Insert(events, e), e.kind, {e.source})
    ensures e.source.Some? ==> Penalty.SourceUsed(Insert(events, e), e.kind, e.source)
  {
    Penalty.InsertUses(events, e);
  }

  lemma ApplyAdds(p: Penalty.State, c: Penalty.Call)
    ensures AddsOnly(p.events, Penalty.Apply(p, c).0.events, c.kind, {c.source})
  {
    hide Penalty.FindMatchingRule, Penalty.FiredWithinCooldown;
  }

  lemma UsedElsewhere(events: seq<MeritEvent>, more: seq<MeritEvent>, kind: SourceKind, sources: set<Option<int>>, k: SourceKind, id: int)
    requires AddsOnly(events, more, kind, sources) && !(k == kind && Some(id) in sources)
    ensures Used(more, k, id) <==> Used(events, k, id)
  {
    Penalty.UsedStaysUsed(events, more);
    if Used(more, k, id) {
      var i :| 0 <= i < |more| && SameSource(more[i], MeritEvent(0, 0, k, Some(id), 0));
      assert more[i] in events;
      var j :| 0 <= j < |events| && events[j] == more[i];
      assert SameSource(events[j], MeritEvent(0, 0, k, Some(id), 0));
    }
  }

  lemma TaskFrame(events: seq<MeritEvent>, more: seq<MeritEvent>, kind: SourceKind, sources: set<Option<int>>, id: int, t: Task)
    requires AddsOnly(events, more, kind, sources) && TaskSound(events, id, t)
    requires kind in {TaskComplete, TaskMiss} ==> Some(id) !in sources
    ensures TaskSound(more, id, t)
  {
    UsedElsewhere(events, more, kind, sources, TaskComplete, id);
    UsedElsewhere(events, more, kind, sources, TaskMiss, id);
  }

  lemma OccurrenceFrame(events: seq<MeritEvent>, more: seq<MeritEvent>, kind: SourceKind, sources: set<Option<int>>, id: int, o: Occurrence)
    requires AddsOnly(events, more, kind, sources) && OccurrenceSound(events, o, id)
    requires kind in {RitualComplete, RitualMiss} ==> Some(id) !in sources
    ensures OccurrenceSound(more, o, id)
  {
    UsedElsewhere(events, more, kind, sources, RitualComplete, id);
    UsedElsewhere(events, more, kind, sources, RitualMiss, id);
  }

  // A step that changes one task row and adds events for that task only.
  lemma TaskStepSound(s: State, after: State, id: int, kind: SourceKind)
    requires Sound(s) && kind in {TaskComplete, TaskMiss}
    requires id in after.tasks && after.tasks == s.tasks[id := after.tasks[id]]
    requires after.occurrences == s.occurrences && after.rituals == s.rituals
    requires AddsOnly(Events(s), Events(after), kind, {Some(id)}) && TaskSound(Events(after), id, after.tasks[id])
    ensures Sound(after)
  {
    hide TaskSound, OccurrenceSound, AddsOnly, OnePerDay;
    forall i | i in after.tasks
      ensures TaskSound(Events(after), i, after.tasks[i])
    {
      if i != id {
        TaskFrame(Events(s), Events(after), kind, {Some(id)}, i, s.tasks[i]);
      }
    }
    forall i | i in s.occurrences
      ensures OccurrenceSound(Events(after), s.occurrences[i], i)
    {
      OccurrenceFrame(Events(s), Events(after), kind, {Some(id)}, i, s.occurrences[i]);
    }
  }

  // A step that moves one occurrence, on the same ritual and date, and adds events for it only.
  lemma OccurrenceStepSound(s: State, after: State, id: int, kind: SourceKind)
    requires Sound(s) && kind in {RitualComplete, RitualMiss}
    requires id in s.occurrences && id in after.occurrences && after.occurrences == s.occurrences[id := after.occurrences[id]]
    requires after.occurrences[id].ritual == s.occurrences[id].ritual && after.occurrences[id].date == s.occurrences[id].date
    requires after.tasks == s.tasks && after.rituals == s.rituals
    requires AddsOnly(Events(s), Events(after), kind, {Some(id)}) && OccurrenceSound(Events(after), after.occurrences[id], id)
    ensures Sound(after)
  {
    hide TaskSound, OccurrenceSound, AddsOnly;
    forall i | i in s.tasks
      ensures TaskSound(Events(after), i, s.tasks[i])
    {
      TaskFrame(Events(s), Events(after), kind, {Some(id)}, i, s.tasks[i]);
    }
    forall i | i in after.occurrences
      ensures OccurrenceSound(Events(after), after.occurrences[i], i)
    {
      if i != id {
        OccurrenceFrame(Events(s), Events(after), kind, {Some(id)}, i, s.occurrences[i]);
      }
    }
  }

  // ---------------------------------------------------------------- one step

  lemma NoEventOf(events: seq<MeritEvent>, kind: SourceKind, id: int)
    requires !Used(events, kind, id)
    ensures forall e | e in events :: !(e.kind == kind && e.source == Some(id))
  {
    forall e | e in events
      ensures !(e.kind == kind && e.source == Some(id))
    {
      var i :| 0 <= i < |events| && events[i] == e;
      assert SameSource(events[i], MeritEvent(0, 0, kind, Some(id), 0)) <==> (e.kind == kind && e.source == Some(id));
    }
  }

  lemma ApproveSound(s: State, caller: Caller, id: int, now: int)
    requires Sound(s)
    ensures Sound(TaskApproved(s, caller, id, now).0)
  {
    hide OccurrenceSound, OnePerDay;
    var (after, error) := TaskApproved(s, caller, id, now);
    if error.None? {
      assert TaskSound(Events(s), id, s.tasks[id]);
      InsertAdds(Events(s), TaskCredit(id, after.tasks[id]));
      UsedElsewhere(Events(s), Events(after), TaskComplete, {Some(id)}, TaskMiss, id);
      NoEventOf(Events(s), TaskComplete, id);
      TaskStepSound(s, after, id, TaskComplete);
    }
  }

  lemma RejectSound(s: State, caller: Caller, id: int, reason: Option<string>, now: int)
    requires Sound(s)
    ensures Sound(TaskRejected(s, caller, id, reason, now).0)
  {
    hide OccurrenceSound, OnePerDay, Penalty.Apply, Penalty.SourceUsed;
    var (after, error) := TaskRejected(s, caller, id, reason, now);
    if error.None? {
      var t := after.tasks[id];
      assert TaskSound(Events(s), id, s.tasks[id]);
      ApplyAdds(s.penalties, PenaltyCall(t.goddess, t.sub, Penalty.TaskMissed, TaskMiss, id, t.pointsOnMiss, now));
      UsedElsewhere(Events(s), Events(after), TaskMiss, {Some(id)}, TaskComplete, id);
      NoEventOf(Events(after), TaskComplete, id);
      TaskStepSound(s, after, id, TaskMiss);
    }
  }

  // Steps that change a task before review and add no event.
  lemma DraftSound(s: State, after: State, id: int)
    requires Sound(s) && id in s.tasks && s.tasks[id].status == Open
    requires id in after.tasks && after == s.(tasks := s.tasks[id := after.tasks[id]])
    requires after.tasks[id].status in {Open, InReview, Cancelled}
    requires after.tasks[id].reviewedBy == s.tasks[id].reviewedBy && after.tasks[id].reviewedAt == s.tasks[id].reviewedAt
    requires if after.tasks[id].status == InReview then after.tasks[id].submittedAt.Some? else after.tasks[id].submittedAt == s.tasks[id].submittedAt
    ensures Sound(after)
  {
    assert TaskSound(Events(s), id, s.tasks[id]);
    NoEventOf(Events(s), TaskComplete, id);
    TaskStepSound(s, after, id, TaskMiss);
  }

  lemma CompleteSound(s: State, sub: int, id: int, note: Option<string>, evidence: Option<string>, now: int)
    requires Sound(s)
    ensures Sound(OccurrenceCompleted(s, sub, id, note, evidence, now).0)
  {
    hide TaskSound, OnePerDay;
    var (after, error) := OccurrenceCompleted(s, sub, id, note, evidence, now);
    if error.None? {
      var o := after.occurrences[id];
      assert OccurrenceSound(Events(s), s.occurrences[id], id);
      InsertAdds(Events(s), RitualCredit(id, o, s.rituals[o.ritual].pointsOnComplete));
      UsedElsewhere(Events(s), Events(after), RitualComplete, {Some(id)}, RitualMiss, id);
      OccurrenceStepSound(s, after, id, RitualComplete);
    }
  }

  lemma ReviewSound(s: State, caller: Caller, verdict: Verdict, id: int, now: int)
    requires Sound(s)
    ensures Sound(OccurrenceReviewed(s, caller, verdict, id, now).0)
  {
    hide TaskSound, OnePerDay;
    var (after, error) := OccurrenceReviewed(s, caller, verdict, id, now);
    if after != s {
      var o := after.occurrences[id];
      assert OccurrenceSound(Events(s), s.occurrences[id], id);
      if verdict.Approve? {
        InsertAdds(Events(s), RitualCredit(id, o, s.rituals[o.ritual].pointsOnComplete));
        UsedElsewhere(Events(s), Events(after), RitualComplete, {Some(id)}, RitualMiss, id);
        OccurrenceStepSound(s, after, id, RitualComplete);
      } else {
        InsertAdds(Events(s), RitualDebit(id, o, s.rituals[o.ritual].pointsOnMiss));
        UsedElsewhere(Events(s), Events(after), RitualMiss, {Some(id)}, RitualComplete, id);
        OccurrenceStepSound(s, after, id, RitualMiss);
      }
    }
  }

  // ---------------------------------------------------------------- bulk review

  predicate Reviewable(s: State, caller: Caller, item: Item) {
    && caller.goddess.Some?
    && match item.kind
       case TaskItem => item.id in s.tasks && s.tasks[item.id].goddess == caller.goddess.value && s.tasks[item.id].status == InReview
       case OccurrenceItem => item.id in s.occurrences && s.occurrences[item.id].goddess == caller.goddess.value
                              && s.occurrences[item.id].status == Submitted
  }

  lemma DispatchDecides(s: State, caller: Caller, verdict: Verdict, item: Item, reason: Option<string>, now: int)
    requires Sound(s)
    ensures
      var (after, error) := Dispatch(s, caller, verdict, item, reason, now);
      && Sound(after)
      && (error.None? <==> Reviewable(s, caller, item))
      && (error.Some? ==> after == s)
      && forall x :: Reviewable(after, caller, x) <==> (Reviewable(s, caller, x) && x != item)
  {
    hide TaskSound, OccurrenceSound, OnePerDay, Penalty.Apply, Insert;
    if item.kind.OccurrenceItem? {
      ReviewSound(s, caller, verdict, item.id, now);
    } else if verdict.Approve? {
      ApproveSound(s, caller, item.id, now);
    } else {
      RejectSound(s, caller, item.id, reason, now);
    }
  }

  // A rule that applies points and is not cooling down for this source.
  predicate RuleFires(p: Penalty.State, c: Penalty.Call, r: Penalty.Rule) {
    r.action == Penalty.ApplyPoints
    && !Penalty.FiredWithinCooldown(p.fires, r.id, c.query.sub, c.kind, c.source, c.now, r.cooldownHours)
  }

  // What the engine charges for a source not used before: the default, or the points of a rule that fires.
  function ChargeOf(p: Penalty.State, c: Penalty.Call): int {
    match Penalty.FindMatchingRule(p.rules, c.query)
    case None => c.defaultDelta
    case Some(r) => if RuleFires(p, c, r) then r.points else 0
  }

  // Whether it books anything.
  predicate Books(p: Penalty.State, c: Penalty.Call) {
    match Penalty.FindMatchingRule(p.rules, c.query)
    case None => c.defaultDelta != 0
    case Some(r) => RuleFires(p, c, r)
  }

  function RejectCall(id: int, t: Task, now: int): Penalty.Call {
    PenaltyCall(t.goddess, t.sub, Penalty.TaskMissed, TaskMiss, id, t.pointsOnMiss, now)
  }

  // Who an item belongs to, and what the verdict on it is worth.
  function Worth(s: State, verdict: Verdict, item: Item, now: int): (int, int, int)
    requires if item.kind.TaskItem? then item.id in s.tasks
      else item.id in s.occurrences && s.occurrences[item.id].ritual in s.rituals
  {
    if item.kind.TaskItem? then
      var t := s.tasks[item.id];
      (t.sub, t.goddess, if verdict.Approve? then t.pointsOnComplete else ChargeOf(s.penalties, RejectCall(item.id, t, now)))
    else
      var o := s.occurrences[item.id];
      var r := s.rituals[o.ritual];
      (o.sub, o.goddess, if verdict.Approve? then r.pointsOnComplete else r.pointsOnMiss)
  }

  lemma InsertPays(events: seq<MeritEvent>, e: MeritEvent, id: int)
    requires e.source == Some(id) && !Used(events, e.kind, id)
    ensures Balance(Insert(events, e), e.sub, e.goddess) == Balance(events, e.sub, e.goddess) + e.delta
    ensures forall u, g | (u, g) != (e.sub, e.goddess) :: Balance(Insert(events, e), u, g) == Balance(events, u, g)
  {
    Penalty.InsertUses(events, e);
    forall u, g
      ensures Balance(events + [e], u, g) == Balance(events, u, g) + if u == e.sub && g == e.goddess then e.delta else 0
    {
      BalanceSnoc(events, e, u, g);
    }
  }

  /**
   A review moves the balance of the item's own sub by what the verdict is worth, in full, and
   nobody else's: no earlier event of the item is in the way.
   */
  lemma ReviewPays(s: State, caller: Caller, verdict: Verdict, item: Item, reason: Option<string>, now: int)
    requires Sound(s) && Reviewable(s, caller, item)
    ensures
      var after := Dispatch(s, caller, verdict, item, reason, now).0;
      var (sub, goddess, points) := Worth(s, verdict, item, now);
      && Balance(Events(after), sub, goddess) == Balance(Events(s), sub, goddess) + points
      && forall u, g | (u, g) != (sub, goddess) :: Balance(Events(after), u, g) == Balance(Events(s), u, g)
  {
    hide Balance, OnePerDay, Used, Insert, Penalty.FiredWithinCooldown, Penalty.FindMatchingRule;
    if item.kind.TaskItem? {
      var t := s.tasks[item.id];
      assert TaskSound(Events(s), item.id, t);
      if verdict.Approve? {
        InsertPays(Events(s), TaskCredit(item.id, t), item.id);
      } else {
        ApplyPays(s.penalties, RejectCall(item.id, t, now), item.id);
      }
    } else {
      var o := s.occurrences[item.id];
      assert OccurrenceSound(Events(s), o, item.id);
      var r := s.rituals[o.ritual];
      if verdict.Approve? {
        InsertPays(Events(s), RitualCredit(item.id, o, r.pointsOnComplete), item.id);
      } else {
        InsertPays(Events(s), RitualDebit(item.id, o, r.pointsOnMiss), item.id);
      }
    }
  }

  /** Completing an occurrence without review credits its sub with the ritual's points, in full, and nobody else. */
  lemma CompletePays(s: State, sub: int, id: int, note: Option<string>, evidence: Option<string>, now: int)
    requires Sound(s) && id in s.occurrences && s.occurrences[id].sub == sub && s.occurrences[id].status == Pending
    requires s.rituals[s.occurrences[id].ritual].requiresProof ==> evidence.Some? && evidence.value != ""
    ensures
      var after := OccurrenceCompleted(s, sub, id, note, evidence, now).0;
      var goddess, points := s.occurrences[id].goddess, s.rituals[s.occurrences[id].ritual].pointsOnComplete;
      && Balance(Events(after), sub, goddess) == Balance(Events(s), sub, goddess) + points
      && forall u, g | (u, g) != (sub, goddess) :: Balance(Events(after), u, g) == Balance(Events(s), u, g)
  {
    hide Balance, OnePerDay, Used, Insert;
    var o := s.occurrences[id];
    assert OccurrenceSound(Events(s), o, id);
    InsertPays(Events(s), RitualCredit(id, o, s.rituals[o.ritual].pointsOnComplete), id);
  }

  // With a source not used before, the engine's answer is the change of the balance.
  lemma ApplyPays(p: Penalty.State, c: Penalty.Call, id: int)
    requires c.source == Some(id) && !Used(p.events, c.kind, id)
    ensures
      var (after, delta) := Penalty.Apply(p, c);
      && delta == ChargeOf(p, c)
      && Balance(after.events, c.query.sub, c.query.goddess) == Balance(p.events, c.query.sub, c.query.goddess) + delta
      && forall u, g | (u, g) != (c.query.sub, c.query.goddess) :: Balance(after.events, u, g) == Balance(p.events, u, g)
  {
    hide Balance, Used, Insert, Penalty.FiredWithinCooldown, Penalty.FindMatchingRule;
    match Penalty.FindMatchingRule(p.rules, c.query)
    case None => InsertPays(p.events, Penalty.CallEvent(c, c.defaultDelta), id);
    case Some(r) =>
      InsertPays(p.events, Penalty.CallEvent(c, r.points), id);
      Unused(p.events, Penalty.CallEvent(c, r.points), id);
  }

  lemma Unused(events: seq<MeritEvent>, e: MeritEvent, id: int)
    requires e.source == Some(id)
    ensures SourceTaken(events, e) <==> Used(events, e.kind, id)
  {
    Penalty.InsertUses(events, e);
  }

  // The items of a batch that wait for the caller's review and are not repeats, or else the others.
  function Chosen(s: State, caller: Caller, items: seq<Item>, chosen: bool): seq<Item> {
    if items == [] then []
    else
      var init, last := items[..|items| - 1], items[|items| - 1];
      Chosen(s, caller, init, chosen) + if (Reviewable(s, caller, last) && last !in init) == chosen then [last] else []
  }

  function FailedItems(failed: seq<Failure>): (items: seq<Item>)
    ensures |items| == |failed| && forall i | 0 <= i < |items| :: items[i] == failed[i].item
  {
    seq(|failed|, i requires 0 <= i < |failed| => failed[i].item)
  }

  /**
   In a batch an item succeeds exactly when it waits for the caller's review at the start and is
   not a repeat; both lists keep the batch's order, and afterwards no item of the batch waits.
   */
  lemma {:induction false} BulkSucceedsIff(s: State, caller: Caller, verdict: Verdict, items: seq<Item>, reason: Option<string>, now: int)
    requires Sound(s)
    ensures
      var out := BulkReviewed(s, caller, verdict, items, reason, now);
      && Sound(out.state)
      && out.succeeded == Chosen(s, caller, items, true)
      && FailedItems(out.failed) == Chosen(s, caller, items, false)
      && forall x :: Reviewable(out.state, caller, x) <==> (Reviewable(s, caller, x) && x !in items)
  {
    hide Sound, Reviewable, Dispatch;
    if items == [] {
    } else {
      var init := items[..|items| - 1];
      BulkSucceedsIff(s, caller, verdict, init, reason, now);
      DispatchDecides(BulkReviewed(s, caller, verdict, init, reason, now).state, caller, verdict, items[|items| - 1], reason, now);
      assert forall x :: x in items <==> (x in init || x == items[|items| - 1]);
    }
  }

  /** The two lists share out the batch. */
  lemma {:induction false} BulkPartitions(s: State, caller: Caller, items: seq<Item>)
    ensures multiset(Chosen(s, caller, items, true)) + multiset(Chosen(s, caller, items, false)) == multiset(items)
  {
    hide Reviewable, Chosen;
    if items == [] {
      NothingChosen(s, caller);
    } else {
      var init, last := items[..|items| - 1], items[|items| - 1];
      BulkPartitions(s, caller, init);
      LastChosen(s, caller, items, true);
      LastChosen(s, caller, items, false);
      assert items == init + [last];
    }
  }

  lemma NothingChosen(s: State, caller: Caller)
    ensures Chosen(s, caller, [], true) == [] && Chosen(s, caller, [], false) == []
  {
  }

  lemma LastChosen(s: State, caller: Caller, items: seq<Item>, chosen: bool)
    requires items != []
    ensures
      var init, last := items[..|items| - 1], items[|items| - 1];
      Chosen(s, caller, items, chosen)
        == if (Reviewable(s, caller, last) && last !in init) == chosen then Chosen(s, caller, init, chosen) + [last] else Chosen(s, caller, init, chosen)
  {
    hide Reviewable;
  }

  /** No item succeeds twice. */
  lemma {:induction false} BulkSucceedsOnce(s: State, caller: Caller, items: seq<Item>)
    ensures Distinct(Chosen(s, caller, items, true))
    ensures forall x | x in Chosen(s, caller, items, true) :: x in items
  {
    hide Reviewable;
    if items == [] {
    } else {
      BulkSucceedsOnce(s, caller, items[..|items| - 1]);
    }
  }

  // ---------------------------------------------------------------- the nightly passes

  function Sources(ids: seq<int>): set<Option<int>> {
    set id | id in ids :: Some(id)
  }

  lemma {:induction false} ChargeAdds(s: State, ids: seq<int>, now: int)
    requires Listed(s, ids)
    ensures AddsOnly(Events(s), ChargeMissed(s, ids, now).events, RitualMiss, Sources(ids))
  {
    hide Penalty.Apply;
    if ids == [] {
    } else {
      var init, last := ids[..|ids| - 1], ids[|ids| - 1];
      ChargeAdds(s, init, now);
      ApplyAdds(ChargeMissed(s, init, now), MissCall(s, last, now));
      assert Sources(ids) == Sources(init) + {Some(last)} by {
        assert ids == init + [last];
      }
    }
  }

  lemma MissedSound(s: State, date: int, ids: seq<int>, now: int)
    requires Sound(s) && ListsPending(s, date, ids)
    ensures Sound(MarkMissed(s, date, ids, now).0)
  {
    hide TaskSound, AddsOnly, Penalty.Apply, ChargeMissed;
    var after := MarkMissed(s, date, ids, now).0;
    ChargeAdds(s, ids, now);
    forall id | id in s.tasks
      ensures TaskSound(Events(after), id, s.tasks[id])
    {
      TaskFrame(Events(s), Events(after), RitualMiss, Sources(ids), id, s.tasks[id]);
    }
    forall id | id in after.occurrences
      ensures OccurrenceSound(Events(after), after.occurrences[id], id)
    {
      if id in PendingIds(s.occurrences, date) {
        UsedElsewhere(Events(s), Events(after), RitualMiss, Sources(ids), RitualComplete, id);
      } else {
        OccurrenceFrame(Events(s), Events(after), RitualMiss, Sources(ids), id, s.occurrences[id]);
      }
    }
  }

  predicate FiresElsewhere(fires: seq<Penalty.Fire>, more: seq<Penalty.Fire>, ids: seq<int>) {
    && fires <= more
    && (forall f | f in more :: f in fires || (f.source.Some? && f.source.value in ids))
  }

  lemma CooldownElsewhere(fires: seq<Penalty.Fire>, more: seq<Penalty.Fire>, ids: seq<int>, rule: int, sub: int, id: int, now: int, hours: int)
    requires FiresElsewhere(fires, more, ids) && id !in ids
    ensures Penalty.FiredWithinCooldown(more, rule, sub, RitualMiss, Some(id), now, hours)
      <==> Penalty.FiredWithinCooldown(fires, rule, sub, RitualMiss, Some(id), now, hours)
  {
    assert forall f | f in fires :: f in more;
  }

  // One call of the engine for a row whose source is not used yet.
  lemma CallCharges(p: Penalty.State, c: Penalty.Call, id: int)
    requires c.source == Some(id) && c.kind == RitualMiss && !Used(p.events, RitualMiss, id)
    ensures
      var after := Penalty.Apply(p, c).0;
      && after.rules == p.rules && FiresElsewhere(p.fires, after.fires, [id])
      && (Used(after.events, RitualMiss, id) <==> Books(p, c))
  {
    hide Used, Penalty.FiredWithinCooldown, Penalty.FindMatchingRule;
    UsedMeansSource(p.events, Penalty.CallEvent(c, c.defaultDelta), id);
    match Penalty.FindMatchingRule(p.rules, c.query)
    case None =>
    case Some(r) => UsedMeansSource(p.events, Penalty.CallEvent(c, r.points), id);
  }

  lemma UsedMeansSource(events: seq<MeritEvent>, e: MeritEvent, id: int)
    requires e.source == Some(id)
    ensures Used(Insert(events, e), e.kind, id)
  {
    Penalty.InsertUses(events, e);
  }

  lemma {:induction false} ChargesEach(s: State, ids: seq<int>, now: int)
    requires Listed(s, ids) && Distinct(ids)
    requires forall id | id in ids :: !Used(Events(s), RitualMiss, id)
    ensures ChargeMissed(s, ids, now).rules == s.penalties.rules
    ensures FiresElsewhere(s.penalties.fires, ChargeMissed(s, ids, now).fires, ids)
    ensures forall id | id in ids :: Used(ChargeMissed(s, ids, now).events, RitualMiss, id) <==> Books(s.penalties, MissCall(s, id, now))
  {
    hide Used, AddsOnly, Penalty.FindMatchingRule, Penalty.FiredWithinCooldown, Penalty.Apply;
    if ids == [] {
    } else {
      var init, last := ids[..|ids| - 1], ids[|ids| - 1];
      assert last in ids && ids == init + [last];
      ChargesEach(s, init, now);
      ChargeAdds(s, init, now);
      UsedElsewhere(Events(s), ChargeMissed(s, init, now).events, RitualMiss, Sources(init), RitualMiss, last);
      var before, call := ChargeMissed(s, init, now), MissCall(s, last, now);
      CallCharges(before, call, last);
      LastCharged(s, init, last, now);
      ApplyAdds(before, call);
      forall id | id in init
        ensures Used(ChargeMissed(s, ids, now).events, RitualMiss, id) <==> Used(before.events, RitualMiss, id)
      {
        UsedElsewhere(before.events, ChargeMissed(s, ids, now).events, RitualMiss, {Some(last)}, RitualMiss, id);
      }
    }
  }

  // The charges before it do not touch the cooldown of the last row.
  lemma LastCharged(s: State, init: seq<int>, last: int, now: int)
    requires Listed(s, init + [last]) && last !in init
    requires last in s.occurrences && s.occurrences[last].ritual in s.rituals && Listed(s, init)
    requires ChargeMissed(s, init, now).rules == s.penalties.rules
    requires FiresElsewhere(s.penalties.fires, ChargeMissed(s, init, now).fires, init)
    ensures Books(ChargeMissed(s, init, now), MissCall(s, last, now)) <==> Books(s.penalties, MissCall(s, last, now))
  {
    hide Penalty.FindMatchingRule, Penalty.FiredWithinCooldown, FiresElsewhere, ChargeMissed;
    var call := MissCall(s, last, now);
    match Penalty.FindMatchingRule(s.penalties.rules, call.query)
    case None =>
    case Some(r) =>
      CooldownElsewhere(s.penalties.fires, ChargeMissed(s, init, now).fires, init, r.id, call.query.sub, last, now, r.cooldownHours);
  }

  /**
   The pass charges a row it marks exactly when a rule that applies points is not cooling down
   for it or, where no rule applies, when its ritual costs points; it charges no other row.
   */
  lemma MissedCharged(s: State, date: int, ids: seq<int>, now: int)
    requires Sound(s) && ListsPending(s, date, ids)
    ensures
      var after := MarkMissed(s, date, ids, now).0;
      forall id | id in after.occurrences ::
        if after.occurrences[id] == s.occurrences[id] then Used(Events(after), RitualMiss, id) <==> Used(Events(s), RitualMiss, id)
        else after.occurrences[id].status == Missed && (Used(Events(after), RitualMiss, id) <==> Books(s.penalties, MissCall(s, id, now)))
  {
    hide Used, TaskSound, OnePerDay, Books, ChargeMissed, FiresElsewhere, AddsOnly;
    var after := MarkMissed(s, date, ids, now).0;
    forall id | id in ids
      ensures !Used(Events(s), RitualMiss, id)
    {
      assert OccurrenceSound(Events(s), s.occurrences[id], id);
    }
    ChargesEach(s, ids, now);
    ChargeAdds(s, ids, now);
    forall id | id in after.occurrences && after.occurrences[id] == s.occurrences[id]
      ensures Used(Events(after), RitualMiss, id) <==> Used(Events(s), RitualMiss, id)
    {
      assert id !in ids;
      UsedElsewhere(Events(s), Events(after), RitualMiss, Sources(ids), RitualMiss, id);
    }
  }

  /** After the pass no row of the date is pending, so a second pass changes nothing and reports nothing. */
  lemma MissedTwice(s: State, date: int, ids: seq<int>, now: int, again: seq<int>, later: int)
    requires ListsPending(s, date, ids) && ListsPending(MarkMissed(s, date, ids, now).0, date, again)
    ensures MarkMissed(MarkMissed(s, date, ids, now).0, date, again, later) == (MarkMissed(s, date, ids, now).0, 0)
  {
    assert again != [] ==> again[0] in again;
    var after := MarkMissed(s, date, ids, now).0;
    assert forall id | id in after.occurrences :: !PendingOn(after.occurrences[id], date);
    assert again == [] by {
      assert forall id | id in again :: id in PendingIds(after.occurrences, date);
    }
    assert PendingIds(after.occurrences, date) == {};
    assert MarkMissedByDate(after.occurrences, date) == after.occurrences;
  }

  /** The identifiers are new: of no row, and of no event a row left behind. */
  predicate FreshRows(s: State, rows: seq<Scheduled>) {
    && (forall i, j | 0 <= i < j < |rows| :: rows[i].id != rows[j].id)
    && (forall row | row in rows :: row.id !in s.occurrences && !Used(Events(s), RitualComplete, row.id) && !Used(Events(s), RitualMiss, row.id))
  }

  ghost predicate Seeded(s: State, after: State, date: int, rows: seq<Scheduled>) {
    && (forall id | id in s.occurrences :: id in after.occurrences && after.occurrences[id] == s.occurrences[id])
    && (forall id | id in after.occurrences && id !in s.occurrences :: exists row :: row in rows && row.id == id)
    && (forall ritual :: DayTaken(after.occurrences, ritual, date) <==>
                         (DayTaken(s.occurrences, ritual, date) || exists row :: row in rows && row.ritual == ritual))
  }

  lemma SeededMore(s: State, done: State, after: State, date: int, init: seq<Scheduled>, row: Scheduled)
    requires Seeded(s, done, date, init)
    requires if DayTaken(done.occurrences, row.ritual, date) then after == done
      else (row.id !in done.occurrences && row.id in after.occurrences
            && after.occurrences == done.occurrences[row.id := after.occurrences[row.id]])
    requires forall r :: DayTaken(after.occurrences, r, date) <==> (DayTaken(done.occurrences, r, date) || r == row.ritual)
    ensures Seeded(s, after, date, init + [row])
  {
    hide DayTaken;
    assert forall x :: x in init + [row] <==> (x in init || x == row);
  }

  /**
   Seeding keeps one row a ritual and day; it adds a row for exactly the scheduled rituals that
   had none, leaves the rest alone, and counts the rows it added.
   */
  lemma {:induction false} SeedSound(s: State, date: int, rows: seq<Scheduled>)
    requires Sound(s) && Known(s, rows) && FreshRows(s, rows)
    ensures
      var (after, inserted) := BulkCreateForDate(s, date, rows);
      && Sound(after)
      && inserted == |after.occurrences| - |s.occurrences|
      && Seeded(s, after, date, rows)
  {
    hide TaskSound, OccurrenceSound, Used, Seeded, DayTaken, OnePerDay, FreshRows, Known, Sound;
    if rows == [] {
      NothingSeeded(s, date);
    } else {
      var init, row := rows[..|rows| - 1], rows[|rows| - 1];
      InitFresh(s, rows);
      SeedSound(s, date, init);
      var done, after := BulkCreateForDate(s, date, init).0, BulkCreateForDate(s, date, rows).0;
      if !DayTaken(done.occurrences, row.ritual, date) {
        NotSeeded(s, done, date, init, row.id);
        InsertRow(done, after, row.id, row.ritual, date);
      }
      SeededMore(s, done, after, date, init, row);
    }
  }

  lemma InitFresh(s: State, rows: seq<Scheduled>)
    requires rows != [] && Known(s, rows) && FreshRows(s, rows)
    ensures
      var init, row := rows[..|rows| - 1], rows[|rows| - 1];
      && rows == init + [row] && Known(s, init) && FreshRows(s, init)
      && row.ritual in s.rituals && row.id !in s.occurrences && (forall x | x in init :: x.id != row.id)
      && !Used(Events(s), RitualComplete, row.id) && !Used(Events(s), RitualMiss, row.id)
  {
    hide Used;
    var init, row := rows[..|rows| - 1], rows[|rows| - 1];
    assert row in rows && rows == init + [row];
    assert forall x | x in init :: x in rows;
  }

  lemma NothingSeeded(s: State, date: int)
    ensures Seeded(s, s, date, [])
  {
  }

  lemma NotSeeded(s: State, done: State, date: int, rows: seq<Scheduled>, id: int)
    requires Seeded(s, done, date, rows) && id !in s.occurrences && forall row | row in rows :: row.id != id
    ensures id !in done.occurrences
  {
    hide DayTaken;
  }

  lemma InsertRow(s: State, after: State, id: int, ritual: int, date: int)
    requires Sound(s) && ritual in s.rituals && id !in s.occurrences && !DayTaken(s.occurrences, ritual, date)
    requires !Used(Events(s), RitualComplete, id) && !Used(Events(s), RitualMiss, id)
    requires after == s.(occurrences := s.occurrences[id := NewOccurrence(s.rituals[ritual], ritual, date)])
    ensures Sound(after) && |after.occurrences| == |s.occurrences| + 1
    ensures forall r :: DayTaken(after.occurrences, r, date) <==> (DayTaken(s.occurrences, r, date) || r == ritual)
  {
    hide TaskSound, Used;
    assert after.occurrences[id].ritual == ritual && after.occurrences[id].date == date;
    forall r | DayTaken(s.occurrences, r, date)
      ensures DayTaken(after.occurrences, r, date)
    {
      var i :| i in s.occurrences && s.occurrences[i].ritual == r && s.occurrences[i].date == date;
      assert after.occurrences[i] == s.occurrences[i];
    }
  }

  /** Running the seeding again for the same day, or for any of its rituals, inserts nothing. */
  lemma {:induction false} SeedTwice(s: State, date: int, rows: seq<Scheduled>)
    requires Known(s, rows) && forall row | row in rows :: DayTaken(s.occurrences, row.ritual, date)
    ensures BulkCreateForDate(s, date, rows) == (s, 0)
  {
    if rows == [] {
    } else {
      SeedTwice(s, date, rows[..|rows| - 1]);
      assert rows[|rows| - 1] in rows;
    }
  }

  // ---------------------------------------------------------------- runs

  datatype Op =
    | NewTask(id: int, sub: int, goddess: int, onComplete: int, onMiss: int)
    | SubmitTaskOp(sub: int, id: int, note: Option<string>, evidence: Option<string>, now: int)
    | UpdateTaskOp(caller: Caller, id: int, changeComplete: Option<int>, changeMiss: Option<int>)
    | CancelTaskOp(caller: Caller, id: int)
    | CompleteOp(sub: int, id: int, note: Option<string>, evidence: Option<string>, now: int)
    | SubmitOp(sub: int, id: int, note: Option<string>, evidence: Option<string>)
    // one review request is the dispatch of one item
    | ReviewOp(caller: Caller, verdict: Verdict, item: Item, reason: Option<string>, now: int)
    | BulkOp(caller: Caller, verdict: Verdict, items: seq<Item>, reason: Option<string>, now: int)
    | PanicOp(sub: int)
    | MissedOp(date: int, ids: seq<int>, now: int)
    | SeedOp(date: int, rows: seq<Scheduled>)
    | PutRitual(id: int, put: Ritual)
    | DropRitual(id: int)
    // rule changes and the merit ledger's other writers
    | OtherOp(op: Penalty.Op)

  predicate ItemKindOf(kind: SourceKind) {
    kind in {TaskComplete, TaskMiss, RitualComplete, RitualMiss}
  }

  predicate Allowed(s: State, op: Op) {
    match op
    case NewTask(id, _, _, _, _) => id !in s.tasks && !Used(Events(s), TaskComplete, id) && !Used(Events(s), TaskMiss, id)
    case MissedOp(date, ids, _) => ListsPending(s, date, ids)
    case SeedOp(_, rows) => Known(s, rows) && FreshRows(s, rows)
    case OtherOp(Penalise(c)) => !ItemKindOf(c.kind)
    case OtherOp(Credit(e)) => !ItemKindOf(e.kind)
    case _ => true
  }

  // A request that raises is rolled back.
  function Requested(s: State, r: (State, Option<Error>)): State {
    if r.1.Some? then s else r.0
  }

  function Step(s: State, op: Op): State
    requires Allowed(s, op)
  {
    match op
    case NewTask(id, sub, goddess, onComplete, onMiss) =>
      s.(tasks := s.tasks[id := Task(sub, goddess, onComplete, onMiss, Open, None, None, None, None, None, None)])
    case SubmitTaskOp(sub, id, note, evidence, now) => Requested(s, TaskSubmitted(s, sub, id, note, evidence, now))
    case UpdateTaskOp(caller, id, onComplete, onMiss) => Requested(s, TaskUpdated(s, caller, id, onComplete, onMiss))
    case CancelTaskOp(caller, id) => Requested(s, TaskCancelled(s, caller, id))
    case CompleteOp(sub, id, note, evidence, now) => Requested(s, OccurrenceCompleted(s, sub, id, note, evidence, now))
    case SubmitOp(sub, id, note, evidence) => Requested(s, OccurrenceSubmitted(s, sub, id, note, evidence))
    case ReviewOp(caller, verdict, item, reason, now) => Requested(s, Dispatch(s, caller, verdict, item, reason, now))
    case BulkOp(caller, verdict, items, reason, now) => BulkReviewed(s, caller, verdict, items, reason, now).state
    case PanicOp(sub) => s.(tasks := TasksStopped(s.tasks, sub))
    case MissedOp(date, ids, now) => MarkMissed(s, date, ids, now).0
    case SeedOp(date, rows) => BulkCreateForDate(s, date, rows).0
    case PutRitual(id, ritual) => s.(rituals := s.rituals[id := ritual])
    case DropRitual(id) =>
      s.(rituals := s.rituals - {id}, occurrences := map o | o in s.occurrences && s.occurrences[o].ritual != id :: s.occurrences[o])
    case OtherOp(other) => s.(penalties := Penalty.Step(s.penalties, other))
  }

  predicate ValidRun(s: State, ops: seq<Op>)
    decreases |ops|, 0
  {
    ops == [] || (ValidRun(s, ops[..|ops| - 1]) && Allowed(Run(s, ops[..|ops| - 1]), ops[|ops| - 1]))
  }

  function Run(s: State, ops: seq<Op>): State
    requires ValidRun(s, ops)
    decreases |ops|, 1
  {
    if ops == [] then s else Step(Run(s, ops[..|ops| - 1]), ops[|ops| - 1])
  }

  predicate TaskFinal(t: Task) {
    t.status in {Approved, Declined, Cancelled}
  }

  predicate OccurrenceFinal(o: Occurrence) {
    o.status in {Completed, Rejected, Missed}
  }

  // Final rows are left as they are, except that an occurrence goes with its deleted ritual.
  predicate KeepsFinal(s: State, after: State, dropped: Option<int>) {
    && (forall id | id in s.tasks && TaskFinal(s.tasks[id]) :: id in after.tasks && after.tasks[id] == s.tasks[id])
    && (forall id | id in s.occurrences && OccurrenceFinal(s.occurrences[id]) && Some(s.occurrences[id].ritual) != dropped ::
          id in after.occurrences && after.occurrences[id] == s.occurrences[id])
  }

  lemma DispatchKeepsFinal(s: State, caller: Caller, verdict: Verdict, item: Item, reason: Option<string>, now: int)
    ensures KeepsFinal(s, Dispatch(s, caller, verdict, item, reason, now).0, None)
  {
    hide Penalty.Apply, Insert;
  }

  lemma KeepsFinalSame(s: State)
    ensures KeepsFinal(s, s, None)
  {
  }

  lemma KeepsFinalTwice(s: State, middle: State, after: State)
    requires KeepsFinal(s, middle, None) && KeepsFinal(middle, after, None)
    ensures KeepsFinal(s, after, None)
  {
  }

  lemma {:induction false} BulkKeepsFinal(s: State, caller: Caller, verdict: Verdict, items: seq<Item>, reason: Option<string>, now: int)
    ensures KeepsFinal(s, BulkReviewed(s, caller, verdict, items, reason, now).state, None)
  {
    hide Dispatch, KeepsFinal;
    if items == [] {
      KeepsFinalSame(s);
    } else {
      var init := items[..|items| - 1];
      BulkKeepsFinal(s, caller, verdict, init, reason, now);
      var done := BulkReviewed(s, caller, verdict, init, reason, now).state;
      DispatchKeepsFinal(done, caller, verdict, items[|items| - 1], reason, now);
      KeepsFinalTwice(s, done, BulkReviewed(s, caller, verdict, items, reason, now).state);
    }
  }

  lemma OtherSound(s: State, op: Penalty.Op)
    requires Sound(s) && Allowed(s, OtherOp(op))
    ensures Sound(Step(s, OtherOp(op)))
  {
    hide TaskSound, OccurrenceSound, AddsOnly, OnePerDay, Penalty.Apply, Insert;
    var after := Step(s, OtherOp(op));
    var kind, source := Manual, None;
    match op {
      case Penalise(c) => ApplyAdds(s.penalties, c); kind, source := c.kind, c.source;
      case Credit(e) => InsertAdds(Events(s), e); kind, source := e.kind, e.source;
      case SetRules(_) => AddsNothing(Events(s), kind, {source});
    }
    forall id | id in s.tasks
      ensures TaskSound(Events(after), id, s.tasks[id])
    {
      TaskFrame(Events(s), Events(after), kind, {source}, id, s.tasks[id]);
    }
    forall id | id in s.occurrences
      ensures OccurrenceSound(Events(after), s.occurrences[id], id)
    {
      OccurrenceFrame(Events(s), Events(after), kind, {source}, id, s.occurrences[id]);
    }
  }

  lemma AddsNothing(events: seq<MeritEvent>, kind: SourceKind, sources: set<Option<int>>)
    ensures AddsOnly(events, events, kind, sources)
  {
  }

  lemma DropSound(s: State, id: int)
    requires Sound(s)
    ensures Sound(Step(s, DropRitual(id)))
  {
    hide TaskSound, OccurrenceSound;
  }

  lemma PanicSound(s: State, sub: int)
    requires Sound(s)
    ensures Sound(s.(tasks := TasksStopped(s.tasks, sub)))
  {
    hide OccurrenceSound, OnePerDay, Used;
    forall id | id in s.tasks
      ensures TaskSound(Events(s), id, TasksStopped(s.tasks, sub)[id])
    {
      assert TaskSound(Events(s), id, s.tasks[id]);
      if StopsTask(s.tasks[id], sub) {
        NoEventOf(Events(s), TaskComplete, id);
      }
    }
  }

  lemma NewTaskSound(s: State, op: Op)
    requires Sound(s) && op.NewTask? && Allowed(s, op)
    ensures Sound(Step(s, op))
  {
    hide OccurrenceSound, OnePerDay, Used;
    NoEventOf(Events(s), TaskComplete, op.id);
  }

  lemma SubmitSound(s: State, sub: int, id: int, note: Option<string>, evidence: Option<string>)
    requires Sound(s)
    ensures Sound(OccurrenceSubmitted(s, sub, id, note, evidence).0)
  {
    hide TaskSound, OnePerDay, Used;
    var (after, error) := OccurrenceSubmitted(s, sub, id, note, evidence);
    if error.None? {
      assert OccurrenceSound(Events(s), s.occurrences[id], id);
      OccurrenceStepSound(s, after, id, RitualMiss);
    }
  }

  lemma StepSound(s: State, op: Op)
    requires Sound(s) && Allowed(s, op)
    ensures Sound(Step(s, op))
  {
    match op
    case NewTask(_, _, _, _, _) => NewTaskSound(s, op);
    case SubmitTaskOp(_, id, _, _, _) => TaskDrafts(s, op, id);
    case UpdateTaskOp(_, id, _, _) => TaskDrafts(s, op, id);
    case CancelTaskOp(_, id) => TaskDrafts(s, op, id);
    case CompleteOp(sub, id, note, evidence, now) => CompleteSound(s, sub, id, note, evidence, now);
    case SubmitOp(sub, id, note, evidence) => SubmitSound(s, sub, id, note, evidence);
    case ReviewOp(caller, verdict, item, reason, now) => DispatchDecides(s, caller, verdict, item, reason, now);
    case BulkOp(caller, verdict, items, reason, now) => BulkSucceedsIff(s, caller, verdict, items, reason, now);
    case PanicOp(sub) => PanicSound(s, sub);
    case MissedOp(date, ids, now) => MissedSound(s, date, ids, now);
    case SeedOp(date, rows) => SeedSound(s, date, rows);
    case PutRitual(_, _) => assert Sound(Step(s, op)) by { hide TaskSound, OccurrenceSound; }
    case DropRitual(id) => DropSound(s, id);
    case OtherOp(other) => OtherSound(s, other);
  }

  lemma TaskDrafts(s: State, op: Op, id: int)
    requires Sound(s) && Allowed(s, op)
    requires (op.SubmitTaskOp? || op.UpdateTaskOp? || op.CancelTaskOp?) && op.id == id
    ensures Sound(Step(s, op))
  {
    hide OccurrenceSound, OnePerDay, Used;
    var after := Step(s, op);
    if after != s {
      assert TaskSound(Events(s), id, s.tasks[id]);
      DraftSound(s, after, id);
    }
  }

  lemma StepKeepsFinal(s: State, op: Op)
    requires Sound(s) && Allowed(s, op)
    ensures KeepsFinal(s, Step(s, op), if op.DropRitual? then Some(op.id) else None)
  {
    hide Penalty.Apply, Penalty.Step, Insert, ChargeMissed, Sound, Dispatch, BulkReviewed, BulkCreateForDate;
    match op
    case ReviewOp(caller, verdict, item, reason, now) => DispatchKeepsFinal(s, caller, verdict, item, reason, now);
    case BulkOp(caller, verdict, items, reason, now) => BulkKeepsFinal(s, caller, verdict, items, reason, now);
    case SeedOp(date, rows) => SeedSound(s, date, rows);
    case MissedOp(date, ids, now) =>
    case CompleteOp(_, _, _, _, _) => RowKeepsFinal(s, op);
    case SubmitOp(_, _, _, _) => RowKeepsFinal(s, op);
    case _ => TaskKeepsFinal(s, op);
  }

  lemma RowKeepsFinal(s: State, op: Op)
    requires Allowed(s, op) && (op.CompleteOp? || op.SubmitOp?)
    ensures KeepsFinal(s, Step(s, op), None)
  {
    hide Insert;
  }

  lemma TaskKeepsFinal(s: State, op: Op)
    requires Allowed(s, op)
    requires !op.CompleteOp? && !op.SubmitOp? && !op.ReviewOp? && !op.BulkOp? && !op.MissedOp? && !op.SeedOp?
    ensures KeepsFinal(s, Step(s, op), if op.DropRitual? then Some(op.id) else None)
  {
    hide Penalty.Step;
  }

  /**
   In any run from a sound state every task and occurrence stays sound: credited exactly when
   approved or completed, charged for a miss only otherwise, never both, one row a ritual and day.
   */
  lemma {:induction false} RunSound(s: State, ops: seq<Op>)
    requires Sound(s) && ValidRun(s, ops)
    ensures Sound(Run(s, ops))
    ensures forall id | id in Run(s, ops).tasks ::
      !(Used(Events(Run(s, ops)), TaskComplete, id) && Used(Events(Run(s, ops)), TaskMiss, id))
    ensures forall id | id in Run(s, ops).occurrences ::
      !(Used(Events(Run(s, ops)), RitualComplete, id) && Used(Events(Run(s, ops)), RitualMiss, id))
  {
    if ops == [] {
    } else {
      RunSound(s, ops[..|ops| - 1]);
      StepSound(Run(s, ops[..|ops| - 1]), ops[|ops| - 1]);
    }
    hide Used;
  }

  /** The empty tables are sound, so the above holds in every run from the beginning. */
  lemma EmptySound(rules: seq<Penalty.Rule>)
    ensures Sound(State(map[], map[], map[], Penalty.State(rules, [], [])))
  {
  }

  /** The first outcome of a task or occurrence is its only one, for the rest of the run. */
  lemma {:induction false} OutcomeIsFinal(s: State, ops: seq<Op>)
    requires Sound(s) && ValidRun(s, ops)
    ensures forall id | id in s.tasks && TaskFinal(s.tasks[id]) :: id in Run(s, ops).tasks && Run(s, ops).tasks[id] == s.tasks[id]
    ensures forall id | id in s.occurrences && OccurrenceFinal(s.occurrences[id])
                        && (forall op | op in ops :: op != DropRitual(s.occurrences[id].ritual)) ::
      id in Run(s, ops).occurrences && Run(s, ops).occurrences[id] == s.occurrences[id]
  {
    hide Step, Sound, Allowed;
    if ops == [] {
    } else {
      var init, last := ops[..|ops| - 1], ops[|ops| - 1];
      OutcomeIsFinal(s, init);
      RunSound(s, init);
      StepKeepsFinal(Run(s, init), last);
      assert last in ops && forall op | op in init :: op in ops;
    }
  }
}
