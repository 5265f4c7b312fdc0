/** Each task and each occurrence is a small machine of its own: which requests move its row, and to what. */
module Moves {
  import opened Wrappers
  import Merits
  import opened Review
  import opened ReviewRuns
  import Penalty

  // ---------------------------------------------------------------- tasks

  /** A task in review after a verdict of its own goddess; any other task as it was. */
  function TaskReviewed(t: Task, caller: Caller, verdict: Verdict, reason: Option<string>, now: int): Task {
    if t.status != InReview || caller.goddess != Some(t.goddess) then t
    else if verdict.Approve? then t.(status := Approved, reviewedAt := Some(now), reviewedBy := Some(caller.user))
    else t.(status := Declined, rejectionReason := reason, reviewedAt := Some(now), reviewedBy := Some(caller.user))
  }

  lemma DispatchMovesTask(s: State, caller: Caller, verdict: Verdict, item: Item, reason: Option<string>, now: int, id: int)
    requires id in s.tasks
    ensures
      var (after, error) := Dispatch(s, caller, verdict, item, reason, now);
      && id in after.tasks
      && after.tasks[id] == (if item == Item(TaskItem, id) then TaskReviewed(s.tasks[id], caller, verdict, reason, now) else s.tasks[id])
      && (error.Some? ==> after.tasks == s.tasks)
  {
    hide Penalty.Apply, Merits.Insert;
  }

  lemma {:induction false} BulkMovesTask(s: State, caller: Caller, verdict: Verdict, items: seq<Item>, reason: Option<string>, now: int, id: int)
    requires id in s.tasks
    ensures
      var after := BulkReviewed(s, caller, verdict, items, reason, now).state;
      && id in after.tasks
      && after.tasks[id] == if Item(TaskItem, id) in items then TaskReviewed(s.tasks[id], caller, verdict, reason, now) else s.tasks[id]
  {
    hide Dispatch;
    if items == [] {
    } else {
      var init := items[..|items| - 1];
      BulkMovesTask(s, caller, verdict, init, reason, now, id);
      DispatchMovesTask(BulkReviewed(s, caller, verdict, init, reason, now).state, caller, verdict, items[|items| - 1], reason, now, id);
    }
  }

  /** A task moves exactly by these requests: its own sub's, its own goddess's, and its sub's emergency stop. */
  lemma TaskMovesIff(s: State, op: Op, id: int)
    requires Allowed(s, op) && id in s.tasks
    ensures id in Step(s, op).tasks
    ensures
      var t := s.tasks[id];
      Step(s, op).tasks[id] ==
      match op
      case SubmitTaskOp(sub, i, note, evidence, now) =>
        if i == id && sub == t.sub && t.status == Open
        then Task(t.sub, t.goddess, t.pointsOnComplete, t.pointsOnMiss, InReview, note, evidence, t.rejectionReason, Some(now), t.reviewedAt, t.reviewedBy)
        else t
      case UpdateTaskOp(caller, i, onComplete, onMiss) =>
        if i == id && caller.goddess == Some(t.goddess) && t.status == Open
        then t.(pointsOnComplete := if onComplete.Some? then onComplete.value else t.pointsOnComplete,
                pointsOnMiss := if onMiss.Some? then onMiss.value else t.pointsOnMiss)
        else t
      case CancelTaskOp(caller, i) =>
        if i == id && caller.goddess == Some(t.goddess) && t.status == Open then t.(status := Cancelled) else t
      case ReviewOp(caller, verdict, item, reason, now) =>
        if item == Item(TaskItem, id) then TaskReviewed(t, caller, verdict, reason, now) else t
      case BulkOp(caller, verdict, items, reason, now) =>
        if Item(TaskItem, id) in items then TaskReviewed(t, caller, verdict, reason, now) else t
      case PanicOp(sub) => if sub == t.sub && (t.status == Open || t.status == InReview) then t.(status := Cancelled) else t
      case _ => t
  {
    hide Penalty.Apply, Penalty.Step, Merits.Insert, Dispatch, BulkReviewed, BulkCreateForDate, ChargeMissed, TaskReviewed;
    match op
    case ReviewOp(caller, verdict, item, reason, now) => DispatchMovesTask(s, caller, verdict, item, reason, now, id);
    case BulkOp(caller, verdict, items, reason, now) => BulkMovesTask(s, caller, verdict, items, reason, now, id);
    case SeedOp(date, rows) => assert BulkCreateForDate(s, date, rows).0.tasks == s.tasks;
    case _ =>
  }

  // ---------------------------------------------------------------- occurrences

  predicate ProofGiven(r: Ritual, evidence: Option<string>) {
    r.requiresProof ==> evidence.Some? && evidence.value != ""
  }

  /** A submitted occurrence after a verdict of its own goddess; any other as it was. */
  function OccurrenceJudged(o: Occurrence, caller: Caller, verdict: Verdict, now: int): Occurrence {
    if o.status != Submitted || caller.goddess != Some(o.goddess) then o
    else o.(status := if verdict.Approve? then Completed else Rejected, reviewedAt := Some(now), reviewedBy := Some(caller.user))
  }

  predicate RitualsThere(s: State) {
    forall id | id in s.occurrences :: s.occurrences[id].ritual in s.rituals
  }

  lemma DispatchMovesOccurrence(s: State, caller: Caller, verdict: Verdict, item: Item, reason: Option<string>, now: int, id: int)
    requires RitualsThere(s) && id in s.occurrences
    ensures
      var (after, error) := Dispatch(s, caller, verdict, item, reason, now);
      && RitualsThere(after) && after.occurrences.Keys == s.occurrences.Keys
      && after.occurrences[id] == (if item == Item(OccurrenceItem, id) then OccurrenceJudged(s.occurrences[id], caller, verdict, now) else s.occurrences[id])
      && (error.Some? ==> after.occurrences == s.occurrences)
  {
    hide Penalty.Apply, Merits.Insert;
  }

  lemma {:induction false} BulkMovesOccurrence(s: State, caller: Caller, verdict: Verdict, items: seq<Item>, reason: Option<string>, now: int, id: int)
    requires RitualsThere(s) && id in s.occurrences
    ensures
      var after := BulkReviewed(s, caller, verdict, items, reason, now).state;
      && RitualsThere(after) && id in after.occurrences
      && after.occurrences[id] == if Item(OccurrenceItem, id) in items then OccurrenceJudged(s.occurrences[id], caller, verdict, now) else s.occurrences[id]
  {
    hide Dispatch, RitualsThere;
    if items == [] {
    } else {
      var init := items[..|items| - 1];
      BulkMovesOccurrence(s, caller, verdict, init, reason, now, id);
      DispatchMovesOccurrence(BulkReviewed(s, caller, verdict, init, reason, now).state, caller, verdict, items[|items| - 1], reason, now, id);
    }
  }

  lemma {:induction false} SeedKeeps(s: State, date: int, rows: seq<Scheduled>, id: int)
    requires Known(s, rows) && id in s.occurrences && forall row | row in rows :: row.id != id
    ensures id in BulkCreateForDate(s, date, rows).0.occurrences && BulkCreateForDate(s, date, rows).0.occurrences[id] == s.occurrences[id]
  {
    hide DayTaken;
    if rows == [] {
    } else {
      SeedKeeps(s, date, rows[..|rows| - 1], id);
      assert rows[|rows| - 1] in rows;
    }
  }

  /**
   An occurrence moves exactly by these requests: its own sub's, with the proof its ritual asks
   for, its own goddess's verdict, and the missed pass of its date.  It goes only with its ritual.
   */
  lemma OccurrenceMovesIff(s: State, op: Op, id: int)
    requires Sound(s) && Allowed(s, op) && id in s.occurrences
    ensures id in Step(s, op).occurrences <==> op != DropRitual(s.occurrences[id].ritual)
    ensures
      var o := s.occurrences[id];
      op != DropRitual(o.ritual) ==> (Step(s, op).occurrences[id] ==
      match op
      case CompleteOp(sub, i, note, evidence, now) =>
        if i == id && sub == o.sub && o.status == Pending && ProofGiven(s.rituals[o.ritual], evidence)
        then Occurrence(o.ritual, o.sub, o.goddess, o.date, Completed, if note.Some? then note else o.note,
          if evidence.Some? then evidence else o.evidence, Some(now), o.reviewedAt, o.reviewedBy)
        else o
      case SubmitOp(sub, i, note, evidence) =>
        if i == id && sub == o.sub && o.status == Pending && ProofGiven(s.rituals[o.ritual], evidence)
        then Occurrence(o.ritual, o.sub, o.goddess, o.date, Submitted, if note.Some? then note else o.note,
          if evidence.Some? then evidence else o.evidence, o.completedAt, o.reviewedAt, o.reviewedBy)
        else o
      case ReviewOp(caller, verdict, item, reason, now) =>
        if item == Item(OccurrenceItem, id) then OccurrenceJudged(o, caller, verdict, now) else o
      case BulkOp(caller, verdict, items, reason, now) =>
        if Item(OccurrenceItem, id) in items then OccurrenceJudged(o, caller, verdict, now) else o
      case MissedOp(date, ids, now) => if o.date == date && o.status == Pending then o.(status := Missed) else o
      case _ => o)
  {
    hide Penalty.Apply, Penalty.Step, Merits.Insert, Dispatch, BulkReviewed, BulkCreateForDate, ChargeMissed, OccurrenceJudged, TaskSound, OccurrenceSound, OnePerDay;
    match op
    case ReviewOp(caller, verdict, item, reason, now) => DispatchMovesOccurrence(s, caller, verdict, item, reason, now, id);
    case BulkOp(caller, verdict, items, reason, now) => BulkMovesOccurrence(s, caller, verdict, items, reason, now, id);
    case SeedOp(date, rows) => SeedKeeps(s, date, rows, id);
    case CompleteOp(_, _, _, _, _) => RowMoves(s, op, id);
    case SubmitOp(_, _, _, _) => RowMoves(s, op, id);
    case _ =>
  }

  lemma RowMoves(s: State, op: Op, id: int)
    requires RitualsThere(s) && Allowed(s, op) && id in s.occurrences && (op.CompleteOp? || op.SubmitOp?)
    ensures id in Step(s, op).occurrences
    ensures
      var o := s.occurrences[id];
      Step(s, op).occurrences[id] ==
      if op.id == id && op.sub == o.sub && o.status == Pending && ProofGiven(s.rituals[o.ritual], op.evidence)
      then Occurrence(o.ritual, o.sub, o.goddess, o.date, if op.CompleteOp? then Completed else Submitted, if op.note.Some? then op.note else o.note,
        if op.evidence.Some? then op.evidence else o.evidence, if op.CompleteOp? then Some(op.now) else o.completedAt, o.reviewedAt, o.reviewedBy)
      else o
  {
    hide Merits.Insert;
  }

  // ---------------------------------------------------------------- new rows

  lemma {:induction false} SeededRow(s: State, date: int, rows: seq<Scheduled>, id: int)
    requires Known(s, rows) && id !in s.occurrences && id in BulkCreateForDate(s, date, rows).0.occurrences
    ensures exists row | row in rows ::
      (row.id == id && row.ritual in s.rituals
       && BulkCreateForDate(s, date, rows).0.occurrences[id]
          == Occurrence(row.ritual, s.rituals[row.ritual].sub, s.rituals[row.ritual].goddess, date, Pending, None, None, None, None, None))
  {
    hide DayTaken;
    var init, row := rows[..|rows| - 1], rows[|rows| - 1];
    assert row in rows && rows == init + [row];
    var done := BulkCreateForDate(s, date, init).0;
    if DayTaken(done.occurrences, row.ritual, date) || row.id != id {
      SeededRow(s, date, init, id);
    }
  }

  /** A task begins open with what it was given; an occurrence begins pending, for the sub and goddess of its scheduled ritual. */
  lemma NewRowsAre(s: State, op: Op, id: int)
    requires Sound(s) && Allowed(s, op)
    ensures id !in s.tasks && id in Step(s, op).tasks ==>
      op.NewTask? && op.id == id
      && Step(s, op).tasks[id] == Task(op.sub, op.goddess, op.onComplete, op.onMiss, Open, None, None, None, None, None, None)
    ensures id !in s.occurrences && id in Step(s, op).occurrences ==>
      op.SeedOp? && exists row | row in op.rows ::
        (row.id == id && row.ritual in s.rituals
         && Step(s, op).occurrences[id]
            == Occurrence(row.ritual, s.rituals[row.ritual].sub, s.rituals[row.ritual].goddess, op.date, Pending, None, None, None, None, None))
  {
    hide Penalty.Apply, Penalty.Step, Merits.Insert, Dispatch, BulkReviewed, BulkCreateForDate, ChargeMissed, TaskSound, OccurrenceSound, OnePerDay;
    match op
    case ReviewOp(caller, verdict, item, reason, now) => DispatchKeys(s, caller, verdict, item, reason, now);
    case BulkOp(caller, verdict, items, reason, now) => BulkKeys(s, caller, verdict, items, reason, now);
    case SeedOp(date, rows) =>
      assert BulkCreateForDate(s, date, rows).0.tasks == s.tasks;
      if id !in s.occurrences && id in Step(s, op).occurrences {
        SeededRow(s, date, rows, id);
      }
    case _ =>
  }

  lemma DispatchKeys(s: State, caller: Caller, verdict: Verdict, item: Item, reason: Option<string>, now: int)
    ensures
      var after := Dispatch(s, caller, verdict, item, reason, now).0;
      after.tasks.Keys == s.tasks.Keys && after.occurrences.Keys == s.occurrences.Keys
  {
    hide Penalty.Apply, Merits.Insert;
  }

  lemma {:induction false} BulkKeys(s: State, caller: Caller, verdict: Verdict, items: seq<Item>, reason: Option<string>, now: int)
    ensures
      var after := BulkReviewed(s, caller, verdict, items, reason, now).state;
      after.tasks.Keys == s.tasks.Keys && after.occurrences.Keys == s.occurrences.Keys
  {
    hide Dispatch;
    if items == [] {
    } else {
      BulkKeys(s, caller, verdict, items[..|items| - 1], reason, now);
      DispatchKeys(BulkReviewed(s, caller, verdict, items[..|items| - 1], reason, now).state, caller, verdict, items[|items| - 1], reason, now);
    }
  }

  // ---------------------------------------------------------------- the events

  lemma InsertFree(events: seq<Merits.MeritEvent>, e: Merits.MeritEvent, id: int)
    requires e.source == Some(id) && !Used(events, e.kind, id)
    ensures Merits.Insert(events, e) == events + [e] && !Merits.SourceTaken(events, e)
  {
    Unused(events, e, id);
  }

  /** The event a verdict writes, if any: for the item's own sub and goddess, once, in full. */
  lemma VerdictEvent(s: State, caller: Caller, verdict: Verdict, item: Item, reason: Option<string>, now: int)
    requires Sound(s) && Reviewable(s, caller, item)
    ensures Events(Dispatch(s, caller, verdict, item, reason, now).0) ==
      match item.kind
      case OccurrenceItem =>
        var o := s.occurrences[item.id];
        var r := s.rituals[o.ritual];
        Events(s) + [if verdict.Approve? then Merits.MeritEvent(o.sub, o.goddess, Merits.RitualComplete, Some(item.id), r.pointsOnComplete)
                     else Merits.MeritEvent(o.sub, o.goddess, Merits.RitualMiss, Some(item.id), r.pointsOnMiss)]
      case TaskItem =>
        var t := s.tasks[item.id];
        if verdict.Approve? then Events(s) + [Merits.MeritEvent(t.sub, t.goddess, Merits.TaskComplete, Some(item.id), t.pointsOnComplete)]
        else Events(s) + EngineEvents(s.penalties, t.sub, t.goddess, Penalty.TaskMissed, Merits.TaskMiss, item.id, t.pointsOnMiss, now)
  {
    hide Used, OnePerDay, Merits.Insert, Merits.SourceTaken, Penalty.FindMatchingRule;
    if item.kind.TaskItem? {
      var t := s.tasks[item.id];
      assert TaskSound(Events(s), item.id, t);
      if verdict.Approve? {
        InsertFree(Events(s), TaskCredit(item.id, t), item.id);
      } else {
        EngineWrites(s.penalties, t.sub, t.goddess, Penalty.TaskMissed, Merits.TaskMiss, item.id, t.pointsOnMiss, now);
      }
    } else {
      var o := s.occurrences[item.id];
      assert OccurrenceSound(Events(s), o, item.id);
      var r := s.rituals[o.ritual];
      InsertFree(Events(s), RitualCredit(item.id, o, r.pointsOnComplete), item.id);
      InsertFree(Events(s), RitualDebit(item.id, o, r.pointsOnMiss), item.id);
    }
  }

  /** A miss costs the points of the matching rule, unless that one applies none or fired within its hours; without a rule its own points. */
  function EngineEvents(p: Penalty.State, sub: int, goddess: int, trigger: Penalty.Trigger, kind: Merits.SourceKind, id: int, points: int, now: int): seq<Merits.MeritEvent> {
    match Penalty.FindMatchingRule(p.rules, Penalty.Query(goddess, sub, trigger, None))
    case None => if points == 0 then [] else [Merits.MeritEvent(sub, goddess, kind, Some(id), points)]
    case Some(r) =>
      if r.action == Penalty.ApplyPoints
         && forall f | f in p.fires && f.rule == r.id && f.sub == sub && f.kind == kind && f.source == Some(id) ::
              f.at < now - r.cooldownHours * 3_600_000_000
      then [Merits.MeritEvent(sub, goddess, kind, Some(id), r.points)]
      else []
  }

  lemma EngineWrites(p: Penalty.State, sub: int, goddess: int, trigger: Penalty.Trigger, kind: Merits.SourceKind, id: int, points: int, now: int)
    requires !Used(p.events, kind, id)
    ensures Penalty.Apply(p, PenaltyCall(goddess, sub, trigger, kind, id, points, now)).0.events
      == p.events + EngineEvents(p, sub, goddess, trigger, kind, id, points, now)
  {
    hide Used, Merits.Insert, Merits.SourceTaken, Penalty.FindMatchingRule;
    InsertFree(p.events, Merits.MeritEvent(sub, goddess, kind, Some(id), points), id);
    match Penalty.FindMatchingRule(p.rules, Penalty.Query(goddess, sub, trigger, None))
    case None =>
    case Some(r) => InsertFree(p.events, Merits.MeritEvent(sub, goddess, kind, Some(id), r.points), id);
  }

  lemma OtherSource(p: Penalty.State, q: Penalty.State, sub: int, goddess: int, trigger: Penalty.Trigger, kind: Merits.SourceKind, id: int, points: int, now: int)
    requires q.rules == p.rules && forall f: Penalty.Fire | f.source == Some(id) :: (f in p.fires <==> f in q.fires)
    ensures EngineEvents(p, sub, goddess, trigger, kind, id, points, now) == EngineEvents(q, sub, goddess, trigger, kind, id, points, now)
  {
  }

  function MissEvents(s: State, ids: seq<int>, now: int): seq<Merits.MeritEvent>
    requires Listed(s, ids)
  {
    if ids == [] then []
    else
      var init, id := ids[..|ids| - 1], ids[|ids| - 1];
      var o := s.occurrences[id];
      MissEvents(s, init, now)
        + EngineEvents(s.penalties, o.sub, o.goddess, Penalty.RitualMissed, Merits.RitualMiss, id, s.rituals[o.ritual].pointsOnMiss, now)
  }

  lemma {:induction false} ChargesWrite(s: State, ids: seq<int>, now: int)
    requires Listed(s, ids) && Distinct(ids) && forall id | id in ids :: !Used(Events(s), Merits.RitualMiss, id)
    ensures ChargeMissed(s, ids, now).events == Events(s) + MissEvents(s, ids, now)
  {
    hide Used, EngineEvents, Penalty.Apply, AddsOnly;
    if ids == [] {
    } else {
      var init, id := ids[..|ids| - 1], ids[|ids| - 1];
      assert id in ids && ids == init + [id];
      var o, before := s.occurrences[id], ChargeMissed(s, init, now);
      ChargesWrite(s, init, now);
      ChargesEach(s, init, now);
      ChargeAdds(s, init, now);
      UsedElsewhere(Events(s), before.events, Merits.RitualMiss, Sources(init), Merits.RitualMiss, id);
      var points := s.rituals[o.ritual].pointsOnMiss;
      EngineWrites(before, o.sub, o.goddess, Penalty.RitualMissed, Merits.RitualMiss, id, points, now);
      OtherSource(before, s.penalties, o.sub, o.goddess, Penalty.RitualMissed, Merits.RitualMiss, id, points, now);
    }
  }

  /** What the missed pass writes: for each pending row of the date, in order, its own charge or none. */
  lemma MissedWrites(s: State, date: int, ids: seq<int>, now: int)
    requires Sound(s) && ListsPending(s, date, ids)
    ensures Events(MarkMissed(s, date, ids, now).0) == Events(s) + MissEvents(s, ids, now)
    ensures forall id :: id in ids <==> (id in s.occurrences && s.occurrences[id].date == date && s.occurrences[id].status == Pending)
  {
    hide Used, TaskSound, OnePerDay, ChargeMissed, MissEvents;
    forall id | id in ids
      ensures !Used(Events(s), Merits.RitualMiss, id)
    {
      assert OccurrenceSound(Events(s), s.occurrences[id], id);
    }
    ChargesWrite(s, ids, now);
  }
}
