/** One page of the review queue: two limited listings, merged and cut to the limit. */
module ReviewQueue {
  import opened Wrappers
  import opened Review
  import opened ReviewRuns

  function Least(a: nat, b: nat): nat {
    if a < b then a else b
  }

  /** `page` holds `limit` rows, or all there are, and no row left out ranks above one taken. */
  ghost predicate Top(rows: set<Item>, limit: nat, page: set<Item>, rank: Item -> int) {
    && page <= rows && |page| == Least(limit, |rows|)
    && (forall r, p | r in rows && r !in page && p in page :: rank(r) <= rank(p))
  }

  function ById(): Item -> int {
    (item: Item) => item.id
  }

  /** The occurrences a page may draw on. The cursor compares the completion time, which may be missing. */
  function WaitingOccurrences(s: State, goddess: int, before: Option<int>): set<Item> {
    set id | id in s.occurrences
             && s.occurrences[id].goddess == goddess && s.occurrences[id].status == Submitted
             && (before.None? || (s.occurrences[id].completedAt.Some? && s.occurrences[id].completedAt.value < before.value))
      :: Item(OccurrenceItem, id)
  }

  function WaitingTasks(s: State, goddess: int, before: Option<int>): set<Item> {
    set id | id in s.tasks
             && s.tasks[id].goddess == goddess && s.tasks[id].status == InReview
             && (before.None? || (s.tasks[id].submittedAt.Some? && s.tasks[id].submittedAt.value < before.value))
      :: Item(TaskItem, id)
  }

  /** Without a cursor the listings hold exactly the items on which a review by that goddess succeeds. */
  lemma ListedIffReviewable(s: State, caller: Caller, verdict: Verdict, item: Item, reason: Option<string>, now: int)
    requires Sound(s) && caller.goddess.Some?
    ensures item in WaitingOccurrences(s, caller.goddess.value, None) + WaitingTasks(s, caller.goddess.value, None)
      <==> Dispatch(s, caller, verdict, item, reason, now).1.None?
  {
    hide Dispatch, Sound;
    DispatchDecides(s, caller, verdict, item, reason, now);
  }

  /**
   A waiting occurrence never has a completion time. So the listing that sorts by it falls back
   on the identifiers, and with a cursor no occurrence is listed at all.
   */
  lemma WaitingUnstamped(s: State, ops: seq<Op>, goddess: int, before: int)
    requires Sound(s) && ValidRun(s, ops)
    ensures forall id | id in Run(s, ops).occurrences && Run(s, ops).occurrences[id].status == Submitted ::
      Run(s, ops).occurrences[id].completedAt.None?
    ensures WaitingOccurrences(Run(s, ops), goddess, Some(before)) == {}
  {
    hide Run, Used;
    RunSound(s, ops);
    var after := Run(s, ops);
    assert forall id | id in after.occurrences :: OccurrenceSound(Events(after), after.occurrences[id], id);
  }

  lemma SmallerSubset(small: set<Item>, big: set<Item>)
    requires small <= big
    ensures |small| <= |big| && (|small| == |big| ==> small == big)
  {
    assert big == small + (big - small);
  }

  /** Cutting the task listing first loses nothing: the page of the cut listings is a page of everything. */
  lemma CutFirstIsEnough(occurrences: set<Item>, tasks: set<Item>, limit: nat, cut: set<Item>, page: set<Item>, shown: Item -> int)
    requires Top(tasks, limit, cut, shown) && Top(occurrences + cut, limit, page, shown)
    requires forall x | x in occurrences :: x.kind.OccurrenceItem?
    requires forall x | x in tasks :: x.kind.TaskItem?
    ensures Top(occurrences + tasks, limit, page, shown)
  {
    SmallerSubset(occurrences + cut, occurrences + tasks);
    SmallerSubset(cut, occurrences + cut);
    if cut != tasks {
      SmallerSubset(cut, tasks);
    }
    forall r, p | r in occurrences + tasks && r !in page && p in page
      ensures shown(r) <= shown(p)
    {
      if r in tasks && r !in cut && p !in cut && shown(r) > shown(p) {
        assert forall t | t in cut :: shown(t) > shown(p);
        assert cut <= page;
        SmallerSubset(cut + {p}, page);
      }
    }
  }

  lemma {:induction false} SubsetOfSize(rows: set<Item>, n: nat) returns (part: set<Item>)
    requires n <= |rows|
    ensures part <= rows && |part| == n
  {
    if n == 0 {
      part := {};
    } else {
      var x :| x in rows;
      var rest := SubsetOfSize(rows - {x}, n - 1);
      part := rest + {x};
    }
  }

  /**
   `listed` are the occurrences the first query returns, highest identifiers first. The page shows
   the newest waiting items, whenever they were submitted, exactly when at most `limit` occurrences wait.
   */
  lemma PageIsNewestIff(occurrences: set<Item>, tasks: set<Item>, limit: nat, listed: set<Item>)
    requires limit >= 1 && Top(occurrences, limit, listed, ById())
    requires forall x | x in occurrences :: x.kind.OccurrenceItem?
    requires forall x | x in tasks :: x.kind.TaskItem?
    ensures
      (forall shown: Item -> int, cut: set<Item>, page: set<Item> |
         Top(tasks, limit, cut, shown) && Top(listed + cut, limit, page, shown) :: Top(occurrences + tasks, limit, page, shown))
      <==> |occurrences| <= limit
  {
    if |occurrences| <= limit {
      SmallerSubset(listed, occurrences);
      forall shown: Item -> int, cut: set<Item>, page: set<Item> | Top(tasks, limit, cut, shown) && Top(listed + cut, limit, page, shown)
        ensures Top(occurrences + tasks, limit, page, shown)
      {
        CutFirstIsEnough(occurrences, tasks, limit, cut, page, shown);
      }
    } else {
      LateOccurrenceMissed(occurrences, tasks, limit, listed);
    }
  }

  lemma LevelTop(rows: set<Item>, limit: nat, page: set<Item>, rank: Item -> int)
    requires page <= rows && |page| == Least(limit, |rows|) && forall r | r in rows :: rank(r) == 0
    ensures Top(rows, limit, page, rank)
  {
  }

  lemma NotTop(rows: set<Item>, limit: nat, page: set<Item>, rank: Item -> int, missed: Item)
    requires page != {} && missed in rows && missed !in page && forall p | p in page :: rank(p) < rank(missed)
    ensures !Top(rows, limit, page, rank)
  {
    var p :| p in page;
  }

  lemma Unlisted(rows: set<Item>, limit: nat, listed: set<Item>) returns (missed: Item)
    requires Top(rows, limit, listed, ById()) && |rows| > limit
    ensures missed in rows && missed !in listed && |listed| == limit && listed <= rows
  {
    assert listed != rows;
    missed :| missed in rows && missed !in listed;
  }

  // One unlisted occurrence, submitted after everything else, is not on the page.
  lemma LateOccurrenceMissed(occurrences: set<Item>, tasks: set<Item>, limit: nat, listed: set<Item>)
    requires limit >= 1 && Top(occurrences, limit, listed, ById()) && |occurrences| > limit
    requires forall x | x in occurrences :: x.kind.OccurrenceItem?
    requires forall x | x in tasks :: x.kind.TaskItem?
    ensures exists shown: Item -> int, cut: set<Item>, page: set<Item> ::
      Top(tasks, limit, cut, shown) && Top(listed + cut, limit, page, shown) && !Top(occurrences + tasks, limit, page, shown)
  {
    hide Top;
    var late := Unlisted(occurrences, limit, listed);
    var cut := SubsetOfSize(tasks, Least(limit, |tasks|));
    var shown: Item -> int := (x: Item) => if x == late then 1 else 0;
    SmallerSubset(listed, listed + cut);
    LevelTop(tasks, limit, cut, shown);
    LevelTop(listed + cut, limit, listed, shown);
    NotTop(occurrences + tasks, limit, listed, shown, late);
  }
}
