/** Which steps move a profile request, a declared payment or a user's profile, and to what. */
module ProfileMoves {
  import opened Wrappers
  import opened Profile

  /** The goddess the sub is linked to at this moment. */
  predicate Serves(s: State, sub: int, goddess: Option<int>) {
    goddess.Some? && sub in s.users && s.users[sub].goddess == goddess
  }

  /** The pay method is an enabled one of the goddess of the sub. */
  predicate MayPayBy(s: State, sub: int, payMethod: int) {
    && sub in s.users && s.users[sub].goddess.Some?
    && payMethod in s.payMethods && s.payMethods[payMethod] == PayMethod(s.users[sub].goddess.value, true)
  }

  /** A request moves exactly by these steps. */
  lemma RequestMovesIff(s: State, op: Op, id: int)
    requires Sound(s) && Allowed(s, op) && id in s.requests
    ensures id in Step(s, op).requests
    ensures
      var r := s.requests[id];
      Step(s, op).requests[id] ==
      match op
      case ApproveOp(goddess, i, now) =>
        if i == id && Serves(s, r.sub, goddess) && r.status == Pending then r.(status := Approved, resolvedAt := Some(now)) else r
      case FeeOp(goddess, i, fee) =>
        if i == id && Serves(s, r.sub, goddess) && r.status == Pending then r.(status := AwaitingFee, fee := Some(fee)) else r
      case RejectOp(goddess, i, reason, now) =>
        if i == id && Serves(s, r.sub, goddess) && (r.status == Pending || r.status == AwaitingFee)
        then r.(status := Rejected, resolutionNote := Some(reason), resolvedAt := Some(now))
        else r
      case AcceptOp(sub, i, payMethod, payment) =>
        if i == id && sub == r.sub && r.status == AwaitingFee && MayPayBy(s, sub, payMethod) then r.(feePayment := Some(payment)) else r
      case FeePaidOp(payment, now) =>
        if r.feePayment == Some(payment) && r.status == AwaitingFee && r.sub in s.users
        then r.(status := Approved, resolvedAt := Some(now))
        else r
      case _ => r
  {
    hide RequestOf, Patched;
    assert RequestSound(s, s.requests[id]);
    if op.FeePaidOp? {
      PaidRequest(s, op.payment, id);
    }
  }

  lemma PaidRequest(s: State, payment: int, id: int)
    requires Sound(s) && id in s.requests
    ensures s.requests[id].feePayment == Some(payment) <==> RequestOf(s.requests, payment) == Unique(id)
  {
    if s.requests[id].feePayment == Some(payment) {
      assert id in RequestsOf(s.requests, payment);
      forall a | a in RequestsOf(s.requests, payment)
        ensures a == id
      {
      }
    } else {
      assert id !in RequestsOf(s.requests, payment);
    }
  }

  /**
   A request is new exactly when some field is proposed, or when a real name is to replace
   another one; it begins pending and without a fee.
   */
  lemma NewRequestIff(s: State, op: Op, id: int)
    requires Sound(s) && Allowed(s, op) && id !in s.requests
    ensures id in Step(s, op).requests <==>
      match op
      case RequestOp(_, i, d) =>
        i == id && exists field | field in [d.firstName, d.lastName, d.displayName, d.notes, d.avatar, d.realName] :: field.Some? && field != Some("")
      case RealNameOp(sub, i, name) => i == id && sub in s.users && s.users[sub].realName.Some? && s.users[sub].realName != Some(name)
      case _ => false
    ensures id in Step(s, op).requests ==>
      Step(s, op).requests[id] ==
      Request(op.sub, Pending, if op.RequestOp? then op.diff else Diff(None, None, None, None, None, Some(op.name)), None, None, None, None)
  {
    hide RequestOf, Patched;
    if op.RequestOp? {
      var d := op.diff;
      var fields := [d.firstName, d.lastName, d.displayName, d.notes, d.avatar, d.realName];
      assert d.firstName == fields[0] && d.lastName == fields[1] && d.displayName == fields[2];
      assert d.notes == fields[3] && d.avatar == fields[4] && d.realName == fields[5];
    }
    if op.FeePaidOp? {
      PaidStays(s, op.payment, op.now);
    }
  }

  lemma PaidStays(s: State, payment: int, now: int)
    ensures FeePaid(s, payment, now).0.requests.Keys == s.requests.Keys
  {
    hide Patched;
    assert forall id :: RequestOf(s.requests, payment) == Unique(id) ==> id in RequestsOf(s.requests, payment);
  }

  /** A declared payment moves exactly by its own sub's edits and withdrawal and its own goddess's decision, while it is open. */
  lemma DeclarationMovesIff(s: State, op: Op, payment: int)
    requires Allowed(s, op) && payment in s.declarations
    ensures payment in Step(s, op).declarations
    ensures
      var d := s.declarations[payment];
      Step(s, op).declarations[payment] ==
      match op
      case EditOp(sub, p, amount, payMethod) =>
        if p == payment && sub == d.sub && d.status == Declared && (payMethod.Some? ==> MayPayBy(s, sub, payMethod.value))
        then d.(amount := if amount.Some? then amount.value else d.amount, payMethod := if payMethod.Some? then payMethod.value else d.payMethod)
        else d
      case WithdrawOp(sub, p) => if p == payment && sub == d.sub && d.status == Declared then d.(status := Withdrawn) else d
      case DecideOp(goddess, p, validated) =>
        if p == payment && goddess == Some(d.goddess) && d.status == Declared
        then d.(status := if validated then Validated else TurnedDown)
        else d
      case _ => d
  {
    hide FeePaid, ApprovedFree, FeeSet, Refused, RealNameUpdated, ChangeRequested;
    if op.FeePaidOp? || op.ApproveOp? || op.FeeOp? || op.RejectOp? || op.RealNameOp? || op.RequestOp? {
      DeclarationsKept(s, op);
    }
  }

  lemma DeclarationsKept(s: State, op: Op)
    requires op.FeePaidOp? || op.ApproveOp? || op.FeeOp? || op.RejectOp? || op.RealNameOp? || op.RequestOp?
    ensures Step(s, op).declarations == s.declarations
  {
    hide RequestOf, Patched;
  }

  /** A declaration is new exactly when a sub accepts the fee it was set, and it is of that fee, to the sub's goddess. */
  lemma NewDeclarationIff(s: State, op: Op, payment: int)
    requires Sound(s) && Allowed(s, op) && payment !in s.declarations
    ensures payment in Step(s, op).declarations <==>
      (op.AcceptOp? && op.payment == payment && op.id in s.requests && s.requests[op.id].sub == op.sub
       && s.requests[op.id].status == AwaitingFee && MayPayBy(s, op.sub, op.payMethod))
    ensures payment in Step(s, op).declarations ==>
      exists fee, goddess ::
        (s.requests[op.id].fee == Some(fee) && s.users[op.sub].goddess == Some(goddess)
         && Step(s, op).declarations[payment] == Declaration(op.sub, goddess, op.payMethod, fee, Declared))
  {
    hide RequestOf, Patched;
    if op.AcceptOp? && op.id in s.requests {
      assert RequestSound(s, s.requests[op.id]);
    }
  }

  predicate ApprovedNow(s: State, op: Op, id: int) {
    id in s.requests && s.requests[id].status != Approved && id in Step(s, op).requests && Step(s, op).requests[id].status == Approved
  }

  /** A profile shows the proposed fields as soon as a request of its sub is approved. */
  lemma ApprovedShows(s: State, op: Op, id: int)
    requires Sound(s) && Allowed(s, op) && ApprovedNow(s, op, id)
    ensures s.requests[id].sub in s.users
    ensures
      var r := s.requests[id];
      var user, d := s.users[r.sub], r.diff;
      Step(s, op).users == s.users[r.sub :=
        User(user.goddess, if d.firstName.Some? then d.firstName else user.firstName,
             if d.lastName.Some? then d.lastName else user.lastName,
             if d.avatar.Some? then d.avatar.value else user.avatar,
             if d.realName.Some? then d.realName else user.realName)]
  {
    hide RequestOf;
    RequestMovesIff(s, op, id);
    if op.FeePaidOp? {
      PaidRequest(s, op.payment, id);
    }
  }

  /** Apart from that, profiles change only when one is put and when a first real name is set. */
  lemma ProfilesMoveOnlyBy(s: State, op: Op)
    requires Sound(s) && Allowed(s, op) && forall id :: !ApprovedNow(s, op, id)
    ensures Step(s, op).users ==
      match op
      case PutUser(u, put) => s.users[u := put]
      case RealNameOp(sub, _, name) =>
        if sub in s.users && s.users[sub].realName.None? then s.users[sub := s.users[sub].(realName := Some(name))] else s.users
      case _ => s.users
  {
    hide RequestOf, Patched, ApprovedNow;
    if op.ApproveOp? {
      NotApproved(s, op, op.id);
    } else if op.FeePaidOp? && RequestOf(s.requests, op.payment).Unique? {
      var id := RequestOf(s.requests, op.payment).id;
      assert id in RequestsOf(s.requests, op.payment);
      NotApproved(s, op, id);
    }
  }

  lemma NotApproved(s: State, op: Op, id: int)
    requires !ApprovedNow(s, op, id)
    requires (op.ApproveOp? && op.id == id) || (op.FeePaidOp? && id in s.requests && RequestOf(s.requests, op.payment) == Unique(id))
    ensures Step(s, op).users == s.users
  {
    hide RequestOf, Patched;
  }
}
