/** When a contract is active and when it has ended, read off the requests of a whole run. */
module Standings {
  import opened Ledger
  import opened Runs
  import opened Wrappers

  /** Changed clauses, an end, or a buyout of the contract. */
  predicate Closes(op: Op, c: int) {
    match op
    case ReviseOp(d, _) => d == c
    case EndOp(d, _) => d == c
    case WriteOp(d, kind, _, _) => d == c && kind == BuyoutPaid
    case _ => false
  }

  predicate SignedAt(book: Book, ops: seq<Op>, i: nat, c: int)
    requires ValidRun(book, ops)
  {
    i < |ops| && ops[i].SignOp? && ops[i].contract == c && StandingOf(Run(book, ops[..i]), c).status == Unsigned
  }

  // Ended while active, and not by changed clauses.
  predicate EndedAt(book: Book, ops: seq<Op>, i: nat, c: int)
    requires ValidRun(book, ops)
  {
    i < |ops| && Closes(ops[i], c) && !ops[i].ReviseOp? && IsActive(Run(book, ops[..i]), c)
  }

  predicate OpenSince(ops: seq<Op>, i: nat, c: int) {
    forall j | i < j < |ops| :: !Closes(ops[j], c)
  }

  lemma StandingStep(book: Book, s: State, op: Op, c: int)
    requires Allowed(book, op)
    ensures
      var was := StandingOf(s, c);
      StandingOf(Step(book, s, op), c) ==
      if op.SignOp? && op.contract == c && was.status == Unsigned then Standing(Active, Some(op.now))
      else if Closes(op, c) && was.status == Active then (if op.ReviseOp? then Standing(Unsigned, None) else Standing(Ended, was.signedAt))
      else was
  {
    hide TickNow;
  }

  lemma SameMoments(book: Book, ops: seq<Op>, c: int)
    requires ValidRun(book, ops) && ops != []
    ensures
      var init, op := ops[..|ops| - 1], ops[|ops| - 1];
      && ValidRun(book, init)
      && (forall i: nat :: SignedAt(book, ops, i, c) <==>
            (SignedAt(book, init, i, c) || (i == |init| && op.SignOp? && op.contract == c && StandingOf(Run(book, init), c).status == Unsigned)))
      && (forall i: nat :: EndedAt(book, ops, i, c) <==>
            (EndedAt(book, init, i, c) || (i == |init| && Closes(op, c) && !op.ReviseOp? && IsActive(Run(book, init), c))))
      && (forall i: nat :: OpenSince(ops, i, c) <==> (OpenSince(init, i, c) && (i < |init| ==> !Closes(op, c))))
  {
    hide Run, Closes, StandingOf;
    var init := ops[..|ops| - 1];
    assert forall i: nat | i <= |init| :: ops[..i] == init[..i];
    assert forall i: nat | i < |init| :: ops[i] == init[i];
    forall i: nat
      ensures OpenSince(ops, i, c) <==> (OpenSince(init, i, c) && (i < |init| ==> !Closes(ops[|init|], c)))
    {
    }
  }

  /**
   A contract is active under a signature of time t exactly when a signature at t found it
   unsigned and nothing has revised, ended or bought it out since.  It has ended exactly when an
   end or a buyout found it active, and then for good.
   */
  lemma {:induction false} StandingIff(book: Book, ops: seq<Op>, c: int)
    requires ValidRun(book, ops)
    ensures forall t :: (StandingOf(Run(book, ops), c) == Standing(Active, Some(t))
      <==> exists i: nat :: SignedAt(book, ops, i, c) && ops[i].now == t && OpenSince(ops, i, c))
    ensures StandingOf(Run(book, ops), c).status == Active ==> StandingOf(Run(book, ops), c).signedAt.Some?
    ensures StandingOf(Run(book, ops), c).status == Ended <==> exists i: nat :: EndedAt(book, ops, i, c)
  {
    if ops == [] {
    } else {
      var init, op := ops[..|ops| - 1], ops[|ops| - 1];
      RunStep(book, ops);
      StandingIff(book, init, c);
      StandingStep(book, Run(book, init), op, c);
      SameMoments(book, ops, c);
      hide Run, Closes, StandingOf, SignedAt, EndedAt, OpenSince;
      if EndedAt(book, ops, |init|, c) {
        assert StandingOf(Run(book, ops), c).status == Ended;
      } else if StandingOf(Run(book, init), c).status == Ended {
        var i: nat :| EndedAt(book, init, i, c);
        assert EndedAt(book, ops, i, c);
      }
    }
  }
}
