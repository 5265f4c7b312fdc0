/** Tasks and ritual occurrences: submission, review one by one or in bulk, the emergency stop, the nightly passes. */
module Review {
  import opened Wrappers
  import opened Merits
  import Penalty

  datatype TaskStatus = Open | InReview | Approved | Declined | Cancelled

  datatype Task = Task(sub: int, goddess: int, pointsOnComplete: int, pointsOnMiss: int, status: TaskStatus,
    note: Option<string>, evidence: Option<string>, rejectionReason: Option<string>,
    submittedAt: Option<int>, reviewedAt: Option<int>, reviewedBy: Option<int>)

  datatype OccurrenceStatus = Pending | Submitted | Completed | Rejected | Missed

  datatype Ritual = Ritual(sub: int, goddess: int, pointsOnComplete: int, pointsOnMiss: int, requiresProof: bool)

  datatype Occurrence = Occurrence(ritual: int, sub: int, goddess: int, date: int, status: OccurrenceStatus,
    note: Option<string>, evidence: Option<string>,
    completedAt: Option<int>, reviewedAt: Option<int>, reviewedBy: Option<int>)

  datatype State = State(tasks: map<int, Task>, rituals: map<int, Ritual>, occurrences: map<int, Occurrence>, penalties: Penalty.State)

  // The user making the request and the goddess profile it resolves to, if any.
  datatype Caller = Caller(user: int, goddess: Option<int>)

  datatype ItemKind = OccurrenceItem | TaskItem
  datatype Item = Item(kind: ItemKind, id: int)
  datatype Verdict = Approve | Reject

  function Credited(s: State, e: MeritEvent): State {
    s.(penalties := s.penalties.(events := Insert(s.penalties.events, e)))
  }

  function PenaltyCall(goddess: int, sub: int, trigger: Penalty.Trigger, kind: SourceKind, source: int, delta: int, now: int): Penalty.Call {
    Penalty.Call(Penalty.Query(goddess, sub, trigger, None), kind, Some(source), delta, now, now)
  }

  // ---------------------------------------------------------------- tasks

  function TaskSubmitted(s: State, sub: int, id: int, note: Option<string>, evidence: Option<string>, now: int): (State, Option<Error>) {
    if id !in s.tasks then (s, Some(NotFound))
    else if s.tasks[id].sub != sub then (s, Some(Forbidden))
    else if s.tasks[id].status != Open then (s, Some(Conflict))
    else
      var t := s.tasks[id].(status := InReview, note := note, evidence := evidence, submittedAt := Some(now));
      (s.(tasks := s.tasks[id := t]), None)
  }

  // None when the caller may act on it.
  function TaskRefusal(s: State, caller: Caller, id: int): Option<Error> {
    if caller.goddess.None? then Some(Forbidden)
    else if id !in s.tasks then Some(NotFound)
    else if s.tasks[id].goddess != caller.goddess.value then Some(Forbidden)
    else None
  }

  function TaskUpdated(s: State, caller: Caller, id: int, onComplete: Option<int>, onMiss: Option<int>): (State, Option<Error>) {
    if TaskRefusal(s, caller, id).Some? then (s, TaskRefusal(s, caller, id))
    else if s.tasks[id].status != Open then (s, Some(Conflict))
    else
      var t := s.tasks[id];
      var u := t.(pointsOnComplete := if onComplete.Some? then onComplete.value else t.pointsOnComplete,
                  pointsOnMiss := if onMiss.Some? then onMiss.value else t.pointsOnMiss);
      (s.(tasks := s.tasks[id := u]), None)
  }

  function TaskCancelled(s: State, caller: Caller, id: int): (State, Option<Error>) {
    if TaskRefusal(s, caller, id).Some? then (s, TaskRefusal(s, caller, id))
    else if s.tasks[id].status != Open then (s, Some(Conflict))
    else (s.(tasks := s.tasks[id := s.tasks[id].(status := Cancelled)]), None)
  }

  function TaskCredit(id: int, t: Task): MeritEvent {
    MeritEvent(t.sub, t.goddess, TaskComplete, Some(id), t.pointsOnComplete)
  }

  function TaskApproved(s: State, caller: Caller, id: int, now: int): (State, Option<Error>) {
    if TaskRefusal(s, caller, id).Some? then (s, TaskRefusal(s, caller, id))
    else if s.tasks[id].status != InReview then (s, Some(Conflict))
    else
      var t := s.tasks[id].(status := Approved, reviewedAt := Some(now), reviewedBy := Some(caller.user));
      (Credited(s.(tasks := s.tasks[id := t]), TaskCredit(id, t)), None)
  }

  function TaskRejected(s: State, caller: Caller, id: int, reason: Option<string>, now: int): (State, Option<Error>) {
    if TaskRefusal(s, caller, id).Some? then (s, TaskRefusal(s, caller, id))
    else if s.tasks[id].status != InReview then (s, Some(Conflict))
    else
      var t := s.tasks[id].(status := Declined, rejectionReason := reason, reviewedAt := Some(now), reviewedBy := Some(caller.user));
      var call := PenaltyCall(t.goddess, t.sub, Penalty.TaskMissed, TaskMiss, id, t.pointsOnMiss, now);
      (s.(tasks := s.tasks[id := t], penalties := Penalty.Apply(s.penalties, call).0), None)
  }

  predicate StopsTask(t: Task, sub: int) {
    t.sub == sub && t.status in {Open, InReview}
  }

  // The emergency stop: a sub's open tasks and those in review are cancelled in one update.
  function TasksStopped(tasks: map<int, Task>, sub: int): map<int, Task> {
    map id | id in tasks :: if StopsTask(tasks[id], sub) then tasks[id].(status := Cancelled) else tasks[id]
  }

  // ---------------------------------------------------------------- occurrences

  function OccurrenceRefusal(s: State, caller: Caller, id: int): Option<Error> {
    if caller.goddess.None? then Some(Forbidden)
    else if id !in s.occurrences then Some(NotFound)
    else if s.occurrences[id].goddess != caller.goddess.value then Some(Forbidden)
    else None
  }

  // The checks complete and submit share; None when the sub may act on the pending occurrence.
  function SubRefusal(s: State, sub: int, id: int, evidence: Option<string>): Option<Error> {
    if id !in s.occurrences then Some(NotFound)
    else if s.occurrences[id].sub != sub then Some(Forbidden)
    else if s.occurrences[id].status != Pending then Some(Conflict)
    else if s.occurrences[id].ritual !in s.rituals then Some(NotFound)
    else if s.rituals[s.occurrences[id].ritual].requiresProof && (evidence.None? || evidence.value == "") then Some(BadRequest)
    else None
  }

  function OrElse(change: Option<string>, current: Option<string>): Option<string> {
    if change.Some? then change else current
  }

  function RitualCredit(id: int, o: Occurrence, points: int): MeritEvent {
    MeritEvent(o.sub, o.goddess, RitualComplete, Some(id), points)
  }

  function RitualDebit(id: int, o: Occurrence, points: int): MeritEvent {
    MeritEvent(o.sub, o.goddess, RitualMiss, Some(id), points)
  }

  function OccurrenceCompleted(s: State, sub: int, id: int, note: Option<string>, evidence: Option<string>, now: int): (State, Option<Error>) {
    if SubRefusal(s, sub, id, evidence).Some? then (s, SubRefusal(s, sub, id, evidence))
    else
      var row := s.occurrences[id];
      var o := row.(status := Completed, completedAt := Some(now), note := OrElse(note, row.note), evidence := OrElse(evidence, row.evidence));
      (Credited(s.(occurrences := s.occurrences[id := o]), RitualCredit(id, o, s.rituals[o.ritual].pointsOnComplete)), None)
  }

  function OccurrenceSubmitted(s: State, sub: int, id: int, note: Option<string>, evidence: Option<string>): (State, Option<Error>) {
    if SubRefusal(s, sub, id, evidence).Some? then (s, SubRefusal(s, sub, id, evidence))
    else
      var row := s.occurrences[id];
      var o := row.(status := Submitted, note := OrElse(note, row.note), evidence := OrElse(evidence, row.evidence));
      (s.(occurrences := s.occurrences[id := o]), None)
  }

  // The row is marked before its ritual is looked up, so a missing ritual fails after the change.
  function OccurrenceReviewed(s: State, caller: Caller, verdict: Verdict, id: int, now: int): (State, Option<Error>) {
    if OccurrenceRefusal(s, caller, id).Some? then (s, OccurrenceRefusal(s, caller, id))
    else if s.occurrences[id].status != Submitted then (s, Some(Conflict))
    else
      var status := if verdict.Approve? then Completed else Rejected;
      var o := s.occurrences[id].(status := status, reviewedAt := Some(now), reviewedBy := Some(caller.user));
      var marked := s.(occurrences := s.occurrences[id := o]);
      if o.ritual !in s.rituals then (marked, Some(NotFound))
      else if verdict.Approve? then (Credited(marked, RitualCredit(id, o, s.rituals[o.ritual].pointsOnComplete)), None)
      else (Credited(marked, RitualDebit(id, o, s.rituals[o.ritual].pointsOnMiss)), None)
  }

  // ---------------------------------------------------------------- bulk review

  function Dispatch(s: State, caller: Caller, verdict: Verdict, item: Item, reason: Option<string>, now: int): (State, Option<Error>) {
    if item.kind.OccurrenceItem? then OccurrenceReviewed(s, caller, verdict, item.id, now)
    else if verdict.Approve? then TaskApproved(s, caller, item.id, now)
    else TaskRejected(s, caller, item.id, reason, now)
  }

  datatype Failure = Failure(item: Item, error: Error)
  datatype BulkOut = BulkOut(state: State, succeeded: seq<Item>, failed: seq<Failure>)

  // Each item runs on the state its predecessors left, failed ones included.
  function BulkReviewed(s: State, caller: Caller, verdict: Verdict, items: seq<Item>, reason: Option<string>, now: int): BulkOut {
    if items == [] then BulkOut(s, [], [])
    else
      var done := BulkReviewed(s, caller, verdict, items[..|items| - 1], reason, now);
      var item := items[|items| - 1];
      var (after, error) := Dispatch(done.state, caller, verdict, item, reason, now);
      if error.None? then BulkOut(after, done.succeeded + [item], done.failed)
      else BulkOut(after, done.succeeded, done.failed + [Failure(item, error.value)])
  }

  // ---------------------------------------------------------------- the nightly passes

  predicate PendingOn(o: Occurrence, date: int) {
    o.date == date && o.status == Pending
  }

  function PendingIds(occurrences: map<int, Occurrence>, date: int): set<int> {
    set id | id in occurrences && PendingOn(occurrences[id], date)
  }

  function MarkMissedByDate(occurrences: map<int, Occurrence>, date: int): map<int, Occurrence> {
    map id | id in occurrences :: if PendingOn(occurrences[id], date) then occurrences[id].(status := Missed) else occurrences[id]
  }

  predicate Distinct<T(==)>(s: seq<T>) {
    forall i, j | 0 <= i < j < |s| :: s[i] != s[j]
  }

  // The pending rows of a date joined with their rituals, in the order the database lists them.
  predicate ListsPending(s: State, date: int, ids: seq<int>) {
    && Distinct(ids)
    && (forall id | id in ids :: id in PendingIds(s.occurrences, date) && s.occurrences[id].ritual in s.rituals)
    && (forall id | id in PendingIds(s.occurrences, date) && s.occurrences[id].ritual in s.rituals :: id in ids)
  }

  function MissCall(s: State, id: int, now: int): Penalty.Call
    requires id in s.occurrences && s.occurrences[id].ritual in s.rituals
  {
    var o := s.occurrences[id];
    PenaltyCall(o.goddess, o.sub, Penalty.RitualMissed, RitualMiss, id, s.rituals[o.ritual].pointsOnMiss, now)
  }

  predicate Listed(s: State, ids: seq<int>) {
    forall id | id in ids :: id in s.occurrences && s.occurrences[id].ritual in s.rituals
  }

  function ChargeMissed(s: State, ids: seq<int>, now: int): Penalty.State
    requires Listed(s, ids)
  {
    if ids == [] then s.penalties
    else Penalty.Apply(ChargeMissed(s, ids[..|ids| - 1], now), MissCall(s, ids[|ids| - 1], now)).0
  }

  function MarkMissed(s: State, date: int, ids: seq<int>, now: int): (State, int)
    requires ListsPending(s, date, ids)
  {
    (s.(occurrences := MarkMissedByDate(s.occurrences, date), penalties := ChargeMissed(s, ids, now)),
     |PendingIds(s.occurrences, date)|)
  }

  // One scheduled row: the identifier it would get and its ritual.
  datatype Scheduled = Scheduled(id: int, ritual: int)

  predicate DayTaken(occurrences: map<int, Occurrence>, ritual: int, date: int) {
    exists id | id in occurrences :: occurrences[id].ritual == ritual && occurrences[id].date == date
  }

  function NewOccurrence(r: Ritual, ritual: int, date: int): Occurrence {
    Occurrence(ritual, r.sub, r.goddess, date, Pending, None, None, None, None, None)
  }

  predicate Known(s: State, rows: seq<Scheduled>) {
    forall row | row in rows :: row.ritual in s.rituals
  }

  // Inserts a row unless its ritual already has one on that date.
  function BulkCreateForDate(s: State, date: int, rows: seq<Scheduled>): (State, int)
    requires Known(s, rows)
    ensures BulkCreateForDate(s, date, rows).0 == s.(occurrences := BulkCreateForDate(s, date, rows).0.occurrences)
  {
    if rows == [] then (s, 0)
    else
      var (done, inserted) := BulkCreateForDate(s, date, rows[..|rows| - 1]);
      var row := rows[|rows| - 1];
      if DayTaken(done.occurrences, row.ritual, date) then (done, inserted)
      else (done.(occurrences := done.occurrences[row.id := NewOccurrence(s.rituals[row.ritual], row.ritual, date)]), inserted + 1)
  }

  // ---------------------------------------------------------------- the controllers

  class ReviewTables {
    const engine: Penalty.PenaltyEngine
    var tasks: map<int, Task>
    var rituals: map<int, Ritual>
    var occurrences: map<int, Occurrence>

    constructor (engine: Penalty.PenaltyEngine)
      ensures this.engine == engine && Contents() == State(map[], map[], map[], engine.Contents())
    {
      this.engine := engine;
      tasks, rituals, occurrences := map[], map[], map[];
    }

    ghost function Contents(): State
      reads this, engine, engine.merits
    {
      State(tasks, rituals, occurrences, engine.Contents())
    }

    method SubmitTask(sub: int, id: int, note: Option<string>, evidence: Option<string>, now: int) returns (error: Option<Error>)
      modifies this`tasks
      ensures (Contents(), error) == TaskSubmitted(old(Contents()), sub, id, note, evidence, now)
    {
      if id !in tasks {
        return Some(NotFound);
      }
      var task := tasks[id];
      if task.sub != sub {
        return Some(Forbidden);
      }
      if task.status != Open {
        return Some(Conflict);
      }
      tasks := tasks[id := task.(status := InReview, note := note, evidence := evidence, submittedAt := Some(now))];
      return None;
    }

    method RequireOwnedTask(caller: Caller, id: int) returns (error: Option<Error>)
      ensures error == TaskRefusal(Contents(), caller, id)
    {
      if caller.goddess.None? {
        return Some(Forbidden);
      }
      if id !in tasks {
        return Some(NotFound);
      }
      return if tasks[id].goddess != caller.goddess.value then Some(Forbidden) else None;
    }

    method UpdateTask(caller: Caller, id: int, onComplete: Option<int>, onMiss: Option<int>) returns (error: Option<Error>)
      modifies this`tasks
      ensures (Contents(), error) == TaskUpdated(old(Contents()), caller, id, onComplete, onMiss)
    {
      error := RequireOwnedTask(caller, id);
      if error.Some? {
        return;
      }
      if tasks[id].status != Open {
        return Some(Conflict);
      }
      var task := tasks[id];
      if onComplete.Some? {
        task := task.(pointsOnComplete := onComplete.value);
      }
      if onMiss.Some? {
        task := task.(pointsOnMiss := onMiss.value);
      }
      tasks := tasks[id := task];
    }

    method CancelTask(caller: Caller, id: int) returns (error: Option<Error>)
      modifies this`tasks
      ensures (Contents(), error) == TaskCancelled(old(Contents()), caller, id)
    {
      error := RequireOwnedTask(caller, id);
      if error.Some? {
        return;
      }
      if tasks[id].status != Open {
        return Some(Conflict);
      }
      tasks := tasks[id := tasks[id].(status := Cancelled)];
    }

    method CancelPendingTasksForSub(sub: int) returns (cancelled: int)
      modifies this`tasks
      ensures Contents() == old(Contents()).(tasks := TasksStopped(old(tasks), sub))
      ensures cancelled == |set id | id in old(tasks) && old(tasks)[id] != tasks[id]|
    {
      var stopped := set id | id in tasks && StopsTask(tasks[id], sub);
      assert stopped == set id | id in tasks && TasksStopped(tasks, sub)[id] != tasks[id];
      cancelled := |stopped|;
      tasks := TasksStopped(tasks, sub);
      assert stopped == set id | id in old(tasks) && old(tasks)[id] != tasks[id];
    }

    method ApproveTask(caller: Caller, id: int, now: int) returns (error: Option<Error>)
      modifies this`tasks, engine.merits`events
      ensures (Contents(), error) == TaskApproved(old(Contents()), caller, id, now)
    {
      error := RequireOwnedTask(caller, id);
      if error.Some? {
        return;
      }
      if tasks[id].status != InReview {
        return Some(Conflict);
      }
      var task := tasks[id].(status := Approved, reviewedAt := Some(now), reviewedBy := Some(caller.user));
      tasks := tasks[id := task];
      var _ := engine.merits.InsertIdempotent(TaskCredit(id, task));
    }

    method RejectTask(caller: Caller, id: int, reason: Option<string>, now: int) returns (error: Option<Error>)
      modifies this`tasks, engine`fires, engine.merits`events
      ensures (Contents(), error) == TaskRejected(old(Contents()), caller, id, reason, now)
    {
      error := RequireOwnedTask(caller, id);
      if error.Some? {
        return;
      }
      if tasks[id].status != InReview {
        return Some(Conflict);
      }
      var task := tasks[id].(status := Declined, rejectionReason := reason, reviewedAt := Some(now), reviewedBy := Some(caller.user));
      tasks := tasks[id := task];
      var _ := engine.ApplyPenalty(PenaltyCall(task.goddess, task.sub, Penalty.TaskMissed, TaskMiss, id, task.pointsOnMiss, now));
    }

    method CompleteOccurrence(sub: int, id: int, note: Option<string>, evidence: Option<string>, now: int) returns (error: Option<Error>)
      modifies this`occurrences, engine.merits`events
      ensures (Contents(), error) == OccurrenceCompleted(old(Contents()), sub, id, note, evidence, now)
    {
      error := RequirePending(sub, id, evidence);
      if error.Some? {
        return;
      }
      var row := occurrences[id];
      row := row.(status := Completed, completedAt := Some(now));
      if note.Some? {
        row := row.(note := note);
      }
      if evidence.Some? {
        row := row.(evidence := evidence);
      }
      occurrences := occurrences[id := row];
      var _ := engine.merits.InsertIdempotent(RitualCredit(id, row, rituals[row.ritual].pointsOnComplete));
    }

    method SubmitOccurrence(sub: int, id: int, note: Option<string>, evidence: Option<string>) returns (error: Option<Error>)
      modifies this`occurrences
      ensures (Contents(), error) == OccurrenceSubmitted(old(Contents()), sub, id, note, evidence)
    {
      error := RequirePending(sub, id, evidence);
      if error.Some? {
        return;
      }
      var row := occurrences[id].(status := Submitted);
      if note.Some? {
        row := row.(note := note);
      }
      if evidence.Some? {
        row := row.(evidence := evidence);
      }
      occurrences := occurrences[id := row];
    }

    method RequirePending(sub: int, id: int, evidence: Option<string>) returns (error: Option<Error>)
      ensures error == SubRefusal(Contents(), sub, id, evidence)
    {
      if id !in occurrences {
        return Some(NotFound);
      }
      var row := occurrences[id];
      if row.sub != sub {
        return Some(Forbidden);
      }
      if row.status != Pending {
        return Some(Conflict);
      }
      if row.ritual !in rituals {
        return Some(NotFound);
      }
      if rituals[row.ritual].requiresProof && (evidence.None? || evidence.value == "") {
        return Some(BadRequest);
      }
      return None;
    }

    method ReviewOccurrence(caller: Caller, verdict: Verdict, id: int, now: int) returns (error: Option<Error>)
      modifies this`occurrences, engine.merits`events
      ensures (Contents(), error) == OccurrenceReviewed(old(Contents()), caller, verdict, id, now)
    {
      if caller.goddess.None? {
        return Some(Forbidden);
      }
      if id !in occurrences {
        return Some(NotFound);
      }
      if occurrences[id].goddess != caller.goddess.value {
        return Some(Forbidden);
      }
      if occurrences[id].status != Submitted {
        return Some(Conflict);
      }
      var status := if verdict.Approve? then Completed else Rejected;
      var row := occurrences[id].(status := status, reviewedAt := Some(now), reviewedBy := Some(caller.user));
      occurrences := occurrences[id := row];
      if row.ritual !in rituals {
        return Some(NotFound);
      }
      var ritual := rituals[row.ritual];
      if verdict.Approve? {
        var _ := engine.merits.InsertIdempotent(RitualCredit(id, row, ritual.pointsOnComplete));
      } else {
        var _ := engine.merits.InsertIdempotent(RitualDebit(id, row, ritual.pointsOnMiss));
      }
      return None;
    }

    method BulkAction(caller: Caller, verdict: Verdict, items: seq<Item>, reason: Option<string>, now: int)
      returns (succeeded: seq<Item>, failed: seq<Failure>)
      modifies this`tasks, this`occurrences, engine`fires, engine.merits`events
      ensures BulkOut(Contents(), succeeded, failed) == BulkReviewed(old(Contents()), caller, verdict, items, reason, now)
    {
      hide TaskApproved, TaskRejected, OccurrenceReviewed;
      succeeded, failed := [], [];
      for i := 0 to |items|
        invariant BulkOut(Contents(), succeeded, failed) == BulkReviewed(old(Contents()), caller, verdict, items[..i], reason, now)
      {
        var item := items[i];
        var error;
        if item.kind.OccurrenceItem? {
          error := ReviewOccurrence(caller, verdict, item.id, now);
        } else if verdict.Approve? {
          error := ApproveTask(caller, item.id, now);
        } else {
          error := RejectTask(caller, item.id, reason, now);
        }
        if error.None? {
          succeeded := succeeded + [item];
        } else {
          failed := failed + [Failure(item, error.value)];
        }
        assert items[..i + 1][..i] == items[..i];
      }
      assert items[..|items|] == items;
    }

    method MarkMissedForToday(date: int, pending: seq<int>, now: int) returns (updated: int)
      requires ListsPending(Contents(), date, pending)
      modifies this`occurrences, engine`fires, engine.merits`events
      ensures (Contents(), updated) == MarkMissed(old(Contents()), date, pending, now)
    {
      hide Penalty.Apply;
      ghost var before := Contents();
      assert ListsPending(before, date, pending);
      assert forall id | id in pending :: id in PendingIds(before.occurrences, date);
      assert forall i | 0 <= i < |pending| :: pending[i] in pending;
      updated := |PendingIds(occurrences, date)|;
      var rows := occurrences;
      occurrences := MarkMissedByDate(occurrences, date);
      for i := 0 to |pending|
        invariant occurrences == MarkMissedByDate(rows, date)
        invariant Listed(before, pending[..i])
        invariant engine.Contents() == ChargeMissed(before, pending[..i], now)
      {
        assert pending[..i + 1][..i] == pending[..i];
        assert pending[i] in PendingIds(before.occurrences, date);
        var row := rows[pending[i]];
        var _ := engine.ApplyPenalty(
          PenaltyCall(row.goddess, row.sub, Penalty.RitualMissed, RitualMiss, pending[i], rituals[row.ritual].pointsOnMiss, now));
      }
      assert pending[..|pending|] == pending;
    }
  }
}
