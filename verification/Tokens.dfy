/** The life of a refresh token and of a reset token over a whole run: issued once, used up, expired. */
module Tokens {
  import opened Accounts
  import opened Wrappers

  function TimeOf(op: Op): Option<int> {
    match op
    case SignupOp(_, _, _, now) => Some(now)
    case LoginOp(_, _, now) => Some(now)
    case RefreshOp(_, _, now) => Some(now)
    case RequestResetOp(_, _, now) => Some(now)
    case ConfirmResetOp(_, now) => Some(now)
    case _ => None
  }

  predicate ClockForward(ops: seq<Op>) {
    forall i, j | 0 <= i < j < |ops| && TimeOf(ops[i]).Some? && TimeOf(ops[j]).Some? :: TimeOf(ops[i]).value <= TimeOf(ops[j]).value
  }

  // ---------------------------------------------------------------- one step

  /** The request gives `user` the token `raw` at time `at`. */
  predicate Issues(s: Tables, op: Op, raw: int, user: int, at: int) {
    match op
    case SignupOp(u, _, r, now) => r == raw && u == user && now == at
    case LoginOp(who, r, now) => r == raw && who == Some(user) && now == at && Login(s, who, r, now).1.Ok?
    case RefreshOp(r, newRaw, now) =>
      newRaw == raw && now == at && Refresh(s, r, newRaw, now).1.Ok? && r in s.tokens && s.tokens[r].user == user
    case _ => false
  }

  /** The request ends the token `raw` of `user`: it is exchanged, logged out, or goes with all of the user's tokens. */
  predicate Ends(s: Tables, op: Op, raw: int, user: int) {
    match op
    case RefreshOp(r, newRaw, now) => r == raw && Refresh(s, r, newRaw, now).1.Ok?
    case LogoutOp(r) => r == raw
    case ConfirmResetOp(reset, now) => ConfirmReset(s, reset, now).1.Ok? && reset in s.resets && s.resets[reset].user == user
    case BreachOp(goddess, u, entry) => u == user && Breach(s, goddess, u, entry).1.Ok?
    case _ => false
  }

  lemma StepToken(s: Tables, op: Op, raw: int)
    requires FreshIds(s, op)
    ensures raw in s.tokens ==> (raw in Step(s, op).tokens
      && Step(s, op).tokens[raw] == s.tokens[raw].(revoked := s.tokens[raw].revoked || Ends(s, op, raw, s.tokens[raw].user)))
    ensures raw !in s.tokens && raw in Step(s, op).tokens ==>
      !Step(s, op).tokens[raw].revoked && Issues(s, op, raw, Step(s, op).tokens[raw].user, Step(s, op).tokens[raw].expiresAt - 30 * 86_400)
  {
    hide Breached, Snapshot;
  }

  lemma IssueStored(s: Tables, op: Op, raw: int, user: int, at: int)
    requires FreshIds(s, op) && Issues(s, op, raw, user, at)
    ensures raw !in s.tokens && raw in Step(s, op).tokens && Step(s, op).tokens[raw] == Token(user, at + 30 * 86_400, false)
    ensures user in Step(s, op).users
  {
  }

  lemma UsersStay(s: Tables, op: Op, user: int)
    requires user in s.users
    ensures user in Step(s, op).users
  {
    hide Breached, Snapshot, RevokeAll;
  }

  // ---------------------------------------------------------------- whole runs

  predicate IssuedAt(s: Tables, ops: seq<Op>, i: nat, raw: int, user: int, at: int) {
    i < |ops| && Issues(After(s, ops[..i]), ops[i], raw, user, at)
  }

  predicate EndedAt(s: Tables, ops: seq<Op>, j: nat, raw: int, user: int) {
    j < |ops| && Ends(After(s, ops[..j]), ops[j], raw, user)
  }

  // Where a stored token comes from, and that its mark is set exactly if a later step ended it.
  lemma {:induction false} TokenOrigin(s: Tables, ops: seq<Op>, raw: int) returns (i: nat)
    requires s.tokens == map[] && ValidRun(s, ops) && raw in After(s, ops).tokens
    ensures
      var t := After(s, ops).tokens[raw];
      && IssuedAt(s, ops, i, raw, t.user, t.expiresAt - 30 * 86_400)
      && (t.revoked <==> exists j: nat :: i < j && EndedAt(s, ops, j, raw, t.user))
  {
    hide Step, Issues, Ends, FreshIds;
    if ops == [] {
      assert false;
    } else {
      var init, op := ops[..|ops| - 1], ops[|ops| - 1];
      var before := After(s, init);
      LastStep(s, ops);
      StepToken(before, op, raw);
      var t := After(s, ops).tokens[raw];
      if raw in before.tokens {
        i := TokenOrigin(s, init, raw);
        SameEvents(s, ops, raw, t.user);
        assert ops[..i] == init[..i];
        if Ends(before, op, raw, t.user) {
          assert EndedAt(s, ops, |init|, raw, t.user);
        } else if before.tokens[raw].revoked {
          var j: nat :| i < j && EndedAt(s, init, j, raw, t.user);
          assert EndedAt(s, ops, j, raw, t.user);
        }
      } else {
        i := |init|;
        assert forall j: nat | i < j :: !EndedAt(s, ops, j, raw, t.user);
      }
    }
  }

  lemma SameEvents(s: Tables, ops: seq<Op>, raw: int, user: int)
    requires ops != []
    ensures forall j: nat :: (EndedAt(s, ops, j, raw, user)
      <==> (EndedAt(s, ops[..|ops| - 1], j, raw, user)
            || (j == |ops| - 1 && Ends(After(s, ops[..|ops| - 1]), ops[|ops| - 1], raw, user))))
  {
    hide Ends, After;
    forall j: nat | j < |ops| - 1
      ensures ops[..j] == ops[..|ops| - 1][..j]
    {
    }
  }

  // What was issued is stored, for that user and thirty days.
  lemma {:induction false} IssuedStays(s: Tables, ops: seq<Op>, i: nat, raw: int, user: int, at: int)
    requires ValidRun(s, ops) && IssuedAt(s, ops, i, raw, user, at)
    ensures raw in After(s, ops).tokens && After(s, ops).tokens[raw].user == user
    ensures After(s, ops).tokens[raw].expiresAt == at + 30 * 86_400 && user in After(s, ops).users
    decreases |ops|
  {
    hide Step, Issues, Ends, FreshIds;
    var init, op := ops[..|ops| - 1], ops[|ops| - 1];
    LastStep(s, ops);
    if i == |ops| - 1 {
      assert ops[..i] == init;
      IssueStored(After(s, init), op, raw, user, at);
    } else {
      assert init[..i] == ops[..i];
      IssuedStays(s, init, i, raw, user, at);
      StepToken(After(s, init), op, raw);
      UsersStay(After(s, init), op, user);
    }
  }

  lemma {:induction false} IssuedOnce(s: Tables, ops: seq<Op>, i: nat, k: nat, raw: int, user: int, at: int, user': int, at': int)
    requires ValidRun(s, ops) && IssuedAt(s, ops, i, raw, user, at) && IssuedAt(s, ops, k, raw, user', at')
    ensures i == k
  {
    hide Step, Issues, FreshIds;
    if i < k {
      NotReissued(s, ops, i, k, raw, user, at, user', at');
    } else if k < i {
      NotReissued(s, ops, k, i, raw, user', at', user, at);
    }
  }

  lemma NotReissued(s: Tables, ops: seq<Op>, i: nat, k: nat, raw: int, user: int, at: int, user': int, at': int)
    requires ValidRun(s, ops) && i < k && IssuedAt(s, ops, i, raw, user, at)
    ensures !IssuedAt(s, ops, k, raw, user', at')
  {
    hide Step, Issues, FreshIds;
    if k < |ops| {
      RunPrefix(s, ops, k);
      RunPrefix(s, ops, k + 1);
      assert ops[..k][..i] == ops[..i] && ops[..k + 1][..k] == ops[..k];
      IssuedStays(s, ops[..k], i, raw, user, at);
      LastStep(s, ops[..k + 1]);
      StoredNotIssued(After(s, ops[..k]), ops[k], raw, user', at');
    }
  }

  lemma StoredNotIssued(s: Tables, op: Op, raw: int, user: int, at: int)
    requires FreshIds(s, op) && raw in s.tokens
    ensures !Issues(s, op, raw, user, at)
  {
  }

  /**
   A refresh is accepted exactly when the token was issued earlier in the run, not more than
   thirty days ago, and no step since has ended it.
   */
  lemma RefreshAcceptedIff(s: Tables, ops: seq<Op>, n: nat)
    requires Initial(s) && ValidRun(s, ops) && ClockForward(ops) && n < |ops| && ops[n].RefreshOp?
    ensures Accepts(s, ops, n, ops[n].raw)
      <==> exists i: nat, user, at :: i < n && IssuedAt(s, ops, i, ops[n].raw, user, at)
             && at <= ops[n].now <= at + 30 * 86_400
             && forall j: nat | i < j < n :: !EndedAt(s, ops, j, ops[n].raw, user)
  {
    hide Step, Issues, Ends, FreshIds, After, ValidRun;
    var raw, now, upTo := ops[n].raw, ops[n].now, ops[..n];
    RunPrefix(s, ops, n);
    BlacklistHolds(s, upTo);
    if raw in After(s, upTo).tokens {
      var t := After(s, upTo).tokens[raw];
      var i := TokenOrigin(s, upTo, raw);
      TimeOfIssue(s, upTo, i, raw, t.user, t.expiresAt - 30 * 86_400);
      assert ops[i] == upTo[i];
      PrefixIssue(s, ops, n, raw);
      AcceptsIff(s, ops, n);
      forall k: nat, user, at | k < n && IssuedAt(s, ops, k, raw, user, at)
        ensures k == i && user == t.user && at == t.expiresAt - 30 * 86_400
      {
        IssuedOnce(s, upTo, k, i, raw, user, at, t.user, t.expiresAt - 30 * 86_400);
        IssuedStays(s, upTo, k, raw, user, at);
      }
    } else {
      forall k: nat, user, at | k < n
        ensures !IssuedAt(s, ops, k, raw, user, at)
      {
        PrefixIssue(s, ops, n, raw);
        if IssuedAt(s, upTo, k, raw, user, at) {
          IssuedStays(s, upTo, k, raw, user, at);
        }
      }
    }
  }

  lemma PrefixIssue(s: Tables, ops: seq<Op>, n: nat, raw: int)
    requires n <= |ops|
    ensures forall k: nat, user, at | k < n :: IssuedAt(s, ops[..n], k, raw, user, at) <==> IssuedAt(s, ops, k, raw, user, at)
    ensures forall k: nat, user | k < n :: EndedAt(s, ops[..n], k, raw, user) <==> EndedAt(s, ops, k, raw, user)
  {
    hide Issues, Ends, After;
    assert forall k: nat | k < n :: ops[..n][..k] == ops[..k] && ops[..n][k] == ops[k];
  }

  lemma TimeOfIssue(s: Tables, ops: seq<Op>, i: nat, raw: int, user: int, at: int)
    requires IssuedAt(s, ops, i, raw, user, at)
    ensures TimeOf(ops[i]) == Some(at)
  {
  }

  lemma AcceptsIff(s: Tables, ops: seq<Op>, n: nat)
    requires n < |ops| && ops[n].RefreshOp? && ops[n].raw in After(s, ops[..n]).tokens
    requires RowsBelong(After(s, ops[..n]))
    ensures
      var t := After(s, ops[..n]).tokens[ops[n].raw];
      Accepts(s, ops, n, ops[n].raw) <==> (!t.revoked && ops[n].now <= t.expiresAt)
  {
  }

  // ---------------------------------------------------------------- reset tokens

  predicate RequestedAt(s: Tables, ops: seq<Op>, i: nat, reset: int, user: int, at: int) {
    && i < |ops| && ops[i].RequestResetOp? && ops[i].reset == reset && ops[i].user == user && ops[i].now == at
    && user in After(s, ops[..i]).users
  }

  predicate UsedAt(s: Tables, ops: seq<Op>, j: nat, reset: int) {
    j < |ops| && ops[j].ConfirmResetOp? && ops[j].reset == reset && ConfirmReset(After(s, ops[..j]), reset, ops[j].now).1.Ok?
  }

  lemma StepReset(s: Tables, op: Op, reset: int)
    requires FreshIds(s, op)
    ensures reset in s.resets ==> (reset in Step(s, op).resets
      && Step(s, op).resets[reset] == s.resets[reset].(used := s.resets[reset].used
           || (op.ConfirmResetOp? && op.reset == reset && ConfirmReset(s, reset, op.now).1.Ok?)))
    ensures reset !in s.resets ==>
      (reset in Step(s, op).resets <==> (op.RequestResetOp? && op.reset == reset && op.user in s.users))
    ensures reset !in s.resets && reset in Step(s, op).resets ==> Step(s, op).resets[reset] == Reset(op.user, op.now + 3_600, false)
    ensures op.RequestResetOp? && op.reset == reset ==> reset !in s.resets
  {
    hide Breached, Snapshot, RevokeAll;
  }

  /** Every stored reset token was requested once, for an hour, by a user that exists, and is marked exactly if a later step used it. */
  lemma {:induction false} ResetOrigin(s: Tables, ops: seq<Op>, reset: int) returns (i: nat)
    requires s.resets == map[] && ValidRun(s, ops) && reset in After(s, ops).resets
    ensures
      var r := After(s, ops).resets[reset];
      && RequestedAt(s, ops, i, reset, r.user, r.expiresAt - 3_600) && r.user in After(s, ops).users
      && (r.used <==> exists j: nat :: i < j && UsedAt(s, ops, j, reset))
      && (forall k: nat, user, at | RequestedAt(s, ops, k, reset, user, at) :: k == i)
  {
    hide Step, FreshIds, ConfirmReset;
    if ops == [] {
      assert false;
    } else {
      var init, op := ops[..|ops| - 1], ops[|ops| - 1];
      var before := After(s, init);
      LastStep(s, ops);
      StepReset(before, op, reset);
      SameResets(s, ops, reset);
      if reset in before.resets {
        i := ResetOrigin(s, init, reset);
        UsersStay(before, op, before.resets[reset].user);
        if before.resets[reset].used {
          var j: nat :| i < j && UsedAt(s, init, j, reset);
          assert UsedAt(s, ops, j, reset);
        } else if After(s, ops).resets[reset].used {
          assert UsedAt(s, ops, |init|, reset);
        }
      } else {
        i := |init|;
        Unrequested(s, init, reset);
        UsersStay(before, op, op.user);
      }
    }
  }

  lemma SameResets(s: Tables, ops: seq<Op>, reset: int)
    requires ops != []
    ensures
      var init, op := ops[..|ops| - 1], ops[|ops| - 1];
      && (forall j: nat :: UsedAt(s, ops, j, reset) <==>
            (UsedAt(s, init, j, reset)
             || (j == |init| && op.ConfirmResetOp? && op.reset == reset && ConfirmReset(After(s, init), reset, op.now).1.Ok?)))
      && (forall k: nat, user, at :: RequestedAt(s, ops, k, reset, user, at) <==>
            (RequestedAt(s, init, k, reset, user, at)
             || (k == |init| && op.RequestResetOp? && op.reset == reset && op.user == user && op.now == at && user in After(s, init).users)))
  {
    hide ConfirmReset, After;
    var init := ops[..|ops| - 1];
    assert forall j: nat | j < |init| :: ops[..j] == init[..j] && ops[j] == init[j];
  }

  lemma {:induction false} Unrequested(s: Tables, ops: seq<Op>, reset: int)
    requires ValidRun(s, ops) && reset !in After(s, ops).resets
    ensures forall k: nat, user, at :: !RequestedAt(s, ops, k, reset, user, at)
    ensures forall j: nat :: !UsedAt(s, ops, j, reset)
  {
    hide Step, FreshIds;
    if ops == [] {
    } else {
      var init := ops[..|ops| - 1];
      LastStep(s, ops);
      StepReset(After(s, init), ops[|ops| - 1], reset);
      SameResets(s, ops, reset);
      Unrequested(s, init, reset);
    }
  }

  /**
   A reset is accepted exactly when it was requested earlier in the run, not more than an hour
   ago, by a user that exists, and was not used since.
   */
  lemma ResetAcceptedIff(s: Tables, ops: seq<Op>, n: nat)
    requires Initial(s) && ValidRun(s, ops) && ClockForward(ops) && n < |ops| && ops[n].ConfirmResetOp?
    ensures UsedAt(s, ops, n, ops[n].reset)
      <==> exists i: nat, user, at :: i < n && RequestedAt(s, ops, i, ops[n].reset, user, at)
             && at <= ops[n].now <= at + 3_600
             && forall j: nat | i < j < n :: !UsedAt(s, ops, j, ops[n].reset)
  {
    hide Step, FreshIds, After, ValidRun;
    var reset, now, upTo := ops[n].reset, ops[n].now, ops[..n];
    RunPrefix(s, ops, n);
    PrefixResets(s, ops, n, reset);
    if reset in After(s, upTo).resets {
      var i := ResetOrigin(s, upTo, reset);
      assert ops[i] == upTo[i] && TimeOf(ops[i]).Some? && TimeOf(ops[n]) == Some(now);
    } else {
      Unrequested(s, upTo, reset);
    }
  }

  lemma PrefixResets(s: Tables, ops: seq<Op>, n: nat, reset: int)
    requires n <= |ops|
    ensures forall k: nat, user, at | k < n :: RequestedAt(s, ops[..n], k, reset, user, at) <==> RequestedAt(s, ops, k, reset, user, at)
    ensures forall k: nat | k < n :: UsedAt(s, ops[..n], k, reset) <==> UsedAt(s, ops, k, reset)
  {
    hide ConfirmReset, After;
    assert forall k: nat | k < n :: ops[..n][..k] == ops[..k] && ops[..n][k] == ops[k];
  }
}
