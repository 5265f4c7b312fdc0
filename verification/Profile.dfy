/** Profile change requests: free approval, approval against a fee, rejection, and the declared payment of the fee. */
module Profile {
  import opened Wrappers

  datatype Status = Pending | Approved | Rejected | AwaitingFee

  datatype Diff = Diff(firstName: Option<string>, lastName: Option<string>, displayName: Option<string>,
    notes: Option<string>, avatar: Option<string>, realName: Option<string>)

  datatype Request = Request(sub: int, status: Status, diff: Diff, fee: Option<int>, feePayment: Option<int>,
    resolvedAt: Option<int>, resolutionNote: Option<string>)

  datatype User = User(goddess: Option<int>, firstName: Option<string>, lastName: Option<string>, avatar: string, realName: Option<string>)

  datatype PayMethod = PayMethod(goddess: int, enabled: bool)

  datatype DeclarationStatus = Declared | Validated | TurnedDown | Withdrawn
  datatype Declaration = Declaration(sub: int, goddess: int, payMethod: int, amount: int, status: DeclarationStatus)

  // `applied` is the history of the requests whose diff was applied, oldest first; no table stores it.
  datatype State = State(users: map<int, User>, requests: map<int, Request>, payMethods: map<int, PayMethod>,
    declarations: map<int, Declaration>, applied: seq<int>)

  // ---------------------------------------------------------------- making requests

  predicate Blank(field: Option<string>) {
    field.None? || field.value == ""
  }

  predicate NothingProposed(d: Diff) {
    && Blank(d.firstName) && Blank(d.lastName) && Blank(d.displayName)
    && Blank(d.notes) && Blank(d.avatar) && Blank(d.realName)
  }

  function NewRequest(sub: int, diff: Diff): Request {
    Request(sub, Pending, diff, None, None, None, None)
  }

  function ChangeRequested(s: State, sub: int, id: int, diff: Diff): (State, Option<Error>) {
    if NothingProposed(diff) then (s, Some(BadRequest))
    else (s.(requests := s.requests[id := NewRequest(sub, diff)]), None)
  }

  // A first real name is written at once; a different one becomes a request.
  function RealNameUpdated(s: State, sub: int, id: int, name: string): State {
    if sub !in s.users then s
    else if s.users[sub].realName.None? then s.(users := s.users[sub := s.users[sub].(realName := Some(name))])
    else if s.users[sub].realName.value != name then
      s.(requests := s.requests[id := NewRequest(sub, Diff(None, None, None, None, None, Some(name)))])
    else s
  }

  // ---------------------------------------------------------------- resolving them

  function Patched(u: User, d: Diff): User {
    u.(firstName := if d.firstName.Some? then d.firstName else u.firstName,
       lastName := if d.lastName.Some? then d.lastName else u.lastName,
       avatar := if d.avatar.Some? then d.avatar.value else u.avatar,
       realName := if d.realName.Some? then d.realName else u.realName)
  }

  function Resolved(s: State, id: int, status: Status, note: Option<string>, now: int): State
    requires id in s.requests
  {
    var r := s.requests[id];
    s.(requests := s.requests[id :=
      r.(status := status, resolutionNote := if note.Some? then note else r.resolutionNote, resolvedAt := Some(now))])
  }

  function ApplyAndApprove(s: State, id: int, now: int): (State, Option<Error>)
    requires id in s.requests
  {
    var r := s.requests[id];
    if r.sub !in s.users then (s, Some(NotFound))
    else
      var patched := s.(users := s.users[r.sub := Patched(s.users[r.sub], r.diff)], applied := s.applied + [id]);
      (Resolved(patched, id, Approved, None, now), None)
  }

  // None when the goddess may act on the request.
  function Refusal(s: State, goddess: Option<int>, id: int): Option<Error> {
    if id !in s.requests then Some(NotFound)
    else if goddess.None? then Some(Forbidden)
    else if s.requests[id].sub !in s.users || s.users[s.requests[id].sub].goddess != goddess then Some(Forbidden)
    else None
  }

  function ApprovedFree(s: State, goddess: Option<int>, id: int, now: int): (State, Option<Error>) {
    if Refusal(s, goddess, id).Some? then (s, Refusal(s, goddess, id))
    else if s.requests[id].status != Pending then (s, Some(Conflict))
    else ApplyAndApprove(s, id, now)
  }

  function FeeSet(s: State, goddess: Option<int>, id: int, fee: int): (State, Option<Error>) {
    if Refusal(s, goddess, id).Some? then (s, Refusal(s, goddess, id))
    else if s.requests[id].status != Pending then (s, Some(Conflict))
    else (s.(requests := s.requests[id := s.requests[id].(fee := Some(fee), status := AwaitingFee)]), None)
  }

  // `payment` is the identifier the new declaration gets.
  function FeeAccepted(s: State, sub: int, id: int, payMethod: int, payment: int): (State, Option<Error>) {
    if id !in s.requests then (s, Some(NotFound))
    else
      var r := s.requests[id];
      if r.sub != sub then (s, Some(Forbidden))
      else if r.status != AwaitingFee then (s, Some(Conflict))
      else if r.fee.None? then (s, Some(BadRequest))
      else if sub !in s.users || s.users[sub].goddess.None? then (s, Some(BadRequest))
      else
        var goddess := s.users[sub].goddess.value;
        if payMethod !in s.payMethods || s.payMethods[payMethod].goddess != goddess || !s.payMethods[payMethod].enabled then (s, Some(NotFound))
        else
          (s.(declarations := s.declarations[payment := Declaration(sub, goddess, payMethod, r.fee.value, Declared)],
              requests := s.requests[id := r.(feePayment := Some(payment))]),
           None)
  }

  function RequestsOf(requests: map<int, Request>, payment: int): set<int> {
    set id | id in requests && requests[id].feePayment == Some(payment)
  }

  datatype Lookup = Missing | Unique(id: int) | Ambiguous

  // A query for at most one row; more than one is an error of its own.
  function RequestOf(requests: map<int, Request>, payment: int): (found: Lookup)
    ensures found.Unique? ==> RequestsOf(requests, payment) == {found.id}
    ensures found.Missing? <==> RequestsOf(requests, payment) == {}
    ensures found.Ambiguous? <==> exists a, b :: a != b && a in RequestsOf(requests, payment) && b in RequestsOf(requests, payment)
  {
    var ids := RequestsOf(requests, payment);
    if !(exists a :: a in ids) then Missing
    else if exists a | a in ids :: ids == {a} then
      UniqueMember(ids);
      var a :| a in ids && ids == {a};
      Unique(a)
    else
      SeveralMembers(ids);
      Ambiguous
  }

  lemma UniqueMember(ids: set<int>)
    ensures forall a, b | a in ids && ids == {a} && b in ids && ids == {b} :: a == b
  {
  }

  lemma SeveralMembers(ids: set<int>)
    requires (exists a :: a in ids) && !(exists a | a in ids :: ids == {a})
    ensures exists a, b :: a != b && a in ids && b in ids
  {
    var a :| a in ids;
    assert exists b | b in ids :: b != a by {
      assert (forall b | b in ids :: b == a) ==> ids == {a};
    }
  }

  function FeePaid(s: State, payment: int, now: int): (State, Option<Error>) {
    match RequestOf(s.requests, payment)
    case Ambiguous => (s, Some(Conflict))
    case Missing => (s, None)
    case Unique(id) => if s.requests[id].status != AwaitingFee then (s, None) else ApplyAndApprove(s, id, now)
  }

  function Refused(s: State, goddess: Option<int>, id: int, reason: string, now: int): (State, Option<Error>) {
    if Refusal(s, goddess, id).Some? then (s, Refusal(s, goddess, id))
    else if s.requests[id].status !in {Pending, AwaitingFee} then (s, Some(Conflict))
    else (Resolved(s, id, Rejected, Some(reason), now), None)
  }

  // ---------------------------------------------------------------- declared payments

  // None when the sub may change the declaration.
  function OwnerRefusal(s: State, sub: int, payment: int): Option<Error> {
    if payment !in s.declarations then Some(NotFound)
    else if s.declarations[payment].sub != sub then Some(Forbidden)
    else if s.declarations[payment].status != Declared then Some(Conflict)
    else None
  }

  function MethodRefusal(s: State, sub: int, payMethod: int): Option<Error> {
    if sub !in s.users || s.users[sub].goddess.None? then Some(BadRequest)
    else if payMethod !in s.payMethods || s.payMethods[payMethod].goddess != s.users[sub].goddess.value then Some(NotFound)
    else if !s.payMethods[payMethod].enabled then Some(BadRequest)
    else None
  }

  function DeclarationEdited(s: State, sub: int, payment: int, amount: Option<int>, payMethod: Option<int>): (State, Option<Error>) {
    if OwnerRefusal(s, sub, payment).Some? then (s, OwnerRefusal(s, sub, payment))
    else if payMethod.Some? && MethodRefusal(s, sub, payMethod.value).Some? then (s, MethodRefusal(s, sub, payMethod.value))
    else
      var d := s.declarations[payment];
      var e := d.(amount := if amount.Some? then amount.value else d.amount,
                  payMethod := if payMethod.Some? then payMethod.value else d.payMethod);
      (s.(declarations := s.declarations[payment := e]), None)
  }

  function DeclarationWithdrawn(s: State, sub: int, payment: int): (State, Option<Error>) {
    if OwnerRefusal(s, sub, payment).Some? then (s, OwnerRefusal(s, sub, payment))
    else (s.(declarations := s.declarations[payment := s.declarations[payment].(status := Withdrawn)]), None)
  }

  // The goddess validates or rejects a declared payment.
  function DeclarationDecided(s: State, goddess: Option<int>, payment: int, validated: bool): (State, Option<Error>) {
    if goddess.None? then (s, Some(Forbidden))
    else if payment !in s.declarations then (s, Some(NotFound))
    else if s.declarations[payment].goddess != goddess.value then (s, Some(Forbidden))
    else if s.declarations[payment].status != Declared then (s, Some(Conflict))
    else
      var status := if validated then Validated else TurnedDown;
      (s.(declarations := s.declarations[payment := s.declarations[payment].(status := status)]), None)
  }

  // ---------------------------------------------------------------- the controller

  class ProfileTables {
    var users: map<int, User>
    var requests: map<int, Request>
    var payMethods: map<int, PayMethod>
    var declarations: map<int, Declaration>
    ghost var applied: seq<int>

    constructor ()
      ensures Contents() == State(map[], map[], map[], map[], [])
    {
      users, requests, payMethods, declarations, applied := map[], map[], map[], map[], [];
    }

    ghost function Contents(): State
      reads this
    {
      State(users, requests, payMethods, declarations, applied)
    }

    method RequestChange(sub: int, id: int, diff: Diff) returns (error: Option<Error>)
      modifies this`requests
      ensures (Contents(), error) == ChangeRequested(old(Contents()), sub, id, diff)
    {
      if NothingProposed(diff) {
        return Some(BadRequest);
      }
      requests := requests[id := NewRequest(sub, diff)];
      return None;
    }

    method AssertGoddessOwnsRequest(goddess: Option<int>, id: int) returns (error: Option<Error>)
      ensures error == Refusal(Contents(), goddess, id)
    {
      if id !in requests {
        return Some(NotFound);
      }
      if goddess.None? {
        return Some(Forbidden);
      }
      var sub := requests[id].sub;
      if sub !in users || users[sub].goddess != goddess {
        return Some(Forbidden);
      }
      return None;
    }

    method ApplyDiff(id: int) returns (error: Option<Error>)
      requires id in requests
      modifies this`users, this`applied
      ensures error == if requests[id].sub in old(users) then None else Some(NotFound)
      ensures users == if error.Some? then old(users)
                       else old(users)[requests[id].sub := Patched(old(users)[requests[id].sub], requests[id].diff)]
      ensures applied == if error.Some? then old(applied) else old(applied) + [id]
    {
      var r := requests[id];
      if r.sub !in users {
        return Some(NotFound);
      }
      var u := users[r.sub];
      if r.diff.firstName.Some? {
        u := u.(firstName := r.diff.firstName);
      }
      if r.diff.lastName.Some? {
        u := u.(lastName := r.diff.lastName);
      }
      if r.diff.avatar.Some? {
        u := u.(avatar := r.diff.avatar.value);
      }
      if r.diff.realName.Some? {
        u := u.(realName := r.diff.realName);
      }
      users := users[r.sub := u];
      applied := applied + [id];
      return None;
    }

    method SetStatus(id: int, status: Status, note: Option<string>, now: int)
      requires id in requests
      modifies this`requests
      ensures Contents() == Resolved(old(Contents()), id, status, note, now)
    {
      var r := requests[id].(status := status);
      if note.Some? {
        r := r.(resolutionNote := note);
      }
      r := r.(resolvedAt := Some(now));
      requests := requests[id := r];
    }

    method ApproveFree(goddess: Option<int>, id: int, now: int) returns (error: Option<Error>)
      modifies this`users, this`requests, this`applied
      ensures (Contents(), error) == ApprovedFree(old(Contents()), goddess, id, now)
    {
      error := AssertGoddessOwnsRequest(goddess, id);
      if error.Some? {
        return;
      }
      if requests[id].status != Pending {
        return Some(Conflict);
      }
      error := ApplyDiff(id);
      if error.None? {
        SetStatus(id, Approved, None, now);
      }
    }

    method SetFee(goddess: Option<int>, id: int, fee: int) returns (error: Option<Error>)
      modifies this`requests
      ensures (Contents(), error) == FeeSet(old(Contents()), goddess, id, fee)
    {
      error := AssertGoddessOwnsRequest(goddess, id);
      if error.Some? {
        return;
      }
      if requests[id].status != Pending {
        return Some(Conflict);
      }
      requests := requests[id := requests[id].(fee := Some(fee), status := AwaitingFee)];
    }

    method AcceptFee(sub: int, id: int, payMethod: int, payment: int) returns (error: Option<Error>)
      modifies this`requests, this`declarations
      ensures (Contents(), error) == FeeAccepted(old(Contents()), sub, id, payMethod, payment)
    {
      if id !in requests {
        return Some(NotFound);
      }
      var r := requests[id];
      if r.sub != sub {
        return Some(Forbidden);
      }
      if r.status != AwaitingFee {
        return Some(Conflict);
      }
      if r.fee.None? || sub !in users || users[sub].goddess.None? {
        return Some(BadRequest);
      }
      var goddess := users[sub].goddess.value;
      if payMethod !in payMethods || payMethods[payMethod].goddess != goddess || !payMethods[payMethod].enabled {
        return Some(NotFound);
      }
      declarations := declarations[payment := Declaration(sub, goddess, payMethod, r.fee.value, Declared)];
      requests := requests[id := r.(feePayment := Some(payment))];
      return None;
    }

    method OnFeePaid(payment: int, now: int) returns (error: Option<Error>)
      modifies this`users, this`requests, this`applied
      ensures (Contents(), error) == FeePaid(old(Contents()), payment, now)
    {
      match RequestOf(requests, payment) {
        case Ambiguous => return Some(Conflict);
        case Missing => return None;
        case Unique(id) =>
          if requests[id].status != AwaitingFee {
            return None;
          }
          error := ApplyDiff(id);
          if error.None? {
            SetStatus(id, Approved, None, now);
          }
      }
    }

    method EditPendingAsSub(sub: int, payment: int, amount: Option<int>, payMethod: Option<int>) returns (error: Option<Error>)
      modifies this`declarations
      ensures (Contents(), error) == DeclarationEdited(old(Contents()), sub, payment, amount, payMethod)
    {
      if payment !in declarations {
        return Some(NotFound);
      }
      var d := declarations[payment];
      if d.sub != sub {
        return Some(Forbidden);
      }
      if d.status != Declared {
        return Some(Conflict);
      }
      if payMethod.Some? {
        if sub !in users || users[sub].goddess.None? {
          return Some(BadRequest);
        }
        if payMethod.value !in payMethods || payMethods[payMethod.value].goddess != users[sub].goddess.value {
          return Some(NotFound);
        }
        if !payMethods[payMethod.value].enabled {
          return Some(BadRequest);
        }
        d := d.(payMethod := payMethod.value);
      }
      if amount.Some? {
        d := d.(amount := amount.value);
      }
      declarations := declarations[payment := d];
      return None;
    }

    method Reject(goddess: Option<int>, id: int, reason: string, now: int) returns (error: Option<Error>)
      modifies this`requests
      ensures (Contents(), error) == Refused(old(Contents()), goddess, id, reason, now)
    {
      error := AssertGoddessOwnsRequest(goddess, id);
      if error.Some? {
        return;
      }
      if requests[id].status !in {Pending, AwaitingFee} {
        return Some(Conflict);
      }
      SetStatus(id, Rejected, Some(reason), now);
    }
  }

  // ---------------------------------------------------------------- runs

  datatype Op =
    | RequestOp(sub: int, id: int, diff: Diff)
    | RealNameOp(sub: int, id: int, name: string)
    | ApproveOp(goddess: Option<int>, id: int, now: int)
    | FeeOp(goddess: Option<int>, id: int, fee: int)
    | AcceptOp(sub: int, id: int, payMethod: int, payment: int)
    | FeePaidOp(payment: int, now: int)
    | RejectOp(goddess: Option<int>, id: int, reason: string, now: int)
    // the sub edits or withdraws a declared payment, the goddess validates or rejects it
    | EditOp(sub: int, payment: int, amount: Option<int>, changeMethod: Option<int>)
    | WithdrawOp(sub: int, payment: int)
    | DecideOp(goddess: Option<int>, payment: int, validated: bool)
    // sign-ups, profile edits, links to a goddess; payment methods
    | PutUser(id: int, user: User)
    | PutPayMethod(id: int, put: PayMethod)

  predicate Allowed(s: State, op: Op) {
    match op
    case RequestOp(_, id, _) => id !in s.requests && id !in s.applied
    case RealNameOp(_, id, _) => id !in s.requests && id !in s.applied
    case AcceptOp(_, _, _, payment) => payment !in s.declarations
    case FeeOp(_, _, fee) => 0 < fee
    case EditOp(_, _, amount, _) => amount.Some? ==> 0 < amount.value
    case _ => true
  }

  function Step(s: State, op: Op): State {
    match op
    case RequestOp(sub, id, diff) => ChangeRequested(s, sub, id, diff).0
    case RealNameOp(sub, id, name) => RealNameUpdated(s, sub, id, name)
    case ApproveOp(goddess, id, now) => ApprovedFree(s, goddess, id, now).0
    case FeeOp(goddess, id, fee) => FeeSet(s, goddess, id, fee).0
    case AcceptOp(sub, id, payMethod, payment) => FeeAccepted(s, sub, id, payMethod, payment).0
    case FeePaidOp(payment, now) => FeePaid(s, payment, now).0
    case RejectOp(goddess, id, reason, now) => Refused(s, goddess, id, reason, now).0
    case EditOp(sub, payment, amount, payMethod) => DeclarationEdited(s, sub, payment, amount, payMethod).0
    case WithdrawOp(sub, payment) => DeclarationWithdrawn(s, sub, payment).0
    case DecideOp(goddess, payment, validated) => DeclarationDecided(s, goddess, payment, validated).0
    case PutUser(id, user) => s.(users := s.users[id := user])
    case PutPayMethod(id, put) => s.(payMethods := s.payMethods[id := put])
  }

  function After(ops: seq<Op>): State {
    if ops == [] then State(map[], map[], map[], map[], []) else Step(After(ops[..|ops| - 1]), ops[|ops| - 1])
  }

  predicate ValidRun(ops: seq<Op>) {
    ops == [] || (ValidRun(ops[..|ops| - 1]) && Allowed(After(ops[..|ops| - 1]), ops[|ops| - 1]))
  }

  predicate IsResolved(r: Request) {
    r.status in {Approved, Rejected}
  }

  /** A resolution time comes with a resolution, a fee with waiting for it, and a linked payment is a declaration by that sub. */
  predicate RequestSound(s: State, r: Request) {
    && (IsResolved(r) <==> r.resolvedAt.Some?)
    && (r.status == Pending ==> r.fee.None?)
    && (r.status == AwaitingFee ==> r.fee.Some?)
    && (r.feePayment.Some? ==>
        (r.fee.Some? && r.feePayment.value in s.declarations && s.declarations[r.feePayment.value].sub == r.sub))
    && (r.status == Approved && r.fee.Some? ==> r.feePayment.Some?)
  }

  /** Every request is sound, no payment serves two, and the diffs applied are those of the approved requests, once each. */
  ghost predicate Sound(s: State) {
    && (forall id | id in s.requests :: RequestSound(s, s.requests[id]))
    && (forall a, b | a in s.requests && b in s.requests && a != b && s.requests[a].feePayment.Some? ::
          s.requests[a].feePayment != s.requests[b].feePayment)
    && (forall id :: id in s.applied <==> (id in s.requests && s.requests[id].status == Approved))
    && (forall i, j | 0 <= i < j < |s.applied| :: s.applied[i] != s.applied[j])
  }

  lemma ApproveSound(s: State, id: int, now: int)
    requires Sound(s) && id in s.requests && s.requests[id].status in {Pending, AwaitingFee}
    requires s.requests[id].fee.Some? ==> s.requests[id].feePayment.Some?
    ensures Sound(ApplyAndApprove(s, id, now).0)
  {
    var after := ApplyAndApprove(s, id, now).0;
    if after != s {
      assert id !in s.applied;
      assert after.applied == s.applied + [id];
    }
  }

  // A request is made or moved, without approving it; a payment it is newly linked to was not linked before.
  lemma MoveSound(s: State, after: State, id: int)
    requires Sound(s) && id in after.requests && id !in s.applied
    requires after == s.(requests := s.requests[id := after.requests[id]], declarations := after.declarations)
    requires forall p | p in s.declarations :: p in after.declarations && after.declarations[p].sub == s.declarations[p].sub
    requires RequestSound(after, after.requests[id]) && after.requests[id].status != Approved
    requires
      var link := after.requests[id].feePayment;
      link.Some? ==> (id in s.requests && link == s.requests[id].feePayment) || link.value !in s.declarations
    ensures Sound(after)
  {
    forall a | a in after.requests && a != id
      ensures RequestSound(after, after.requests[a])
      ensures after.requests[a].feePayment.Some? ==> after.requests[a].feePayment != after.requests[id].feePayment
    {
      var r := s.requests[a];
      assert after.requests[a] == r && RequestSound(s, r);
      if r.feePayment.Some? {
        var p: int := r.feePayment.value;
        assert after.declarations[p].sub == s.declarations[p].sub;
      }
    }
  }

  lemma AcceptSound(s: State, op: Op)
    requires Sound(s) && Allowed(s, op) && op.AcceptOp?
    ensures Sound(Step(s, op))
  {
    var after := Step(s, op);
    if after != s {
      assert RequestSound(s, s.requests[op.id]);
      MoveSound(s, after, op.id);
    }
  }

  // A step that leaves the requests and the owners of the declarations alone.
  lemma OthersSound(s: State, after: State)
    requires Sound(s) && after.requests == s.requests && after.applied == s.applied
    requires forall p | p in s.declarations :: p in after.declarations && after.declarations[p].sub == s.declarations[p].sub
    ensures Sound(after)
  {
    forall a | a in after.requests
      ensures RequestSound(after, after.requests[a])
    {
      var r := s.requests[a];
      assert RequestSound(s, r);
      if r.feePayment.Some? {
        var p: int := r.feePayment.value;
        assert after.declarations[p].sub == s.declarations[p].sub;
      }
    }
  }

  lemma PaymentSound(s: State, op: Op)
    requires Sound(s) && (op.EditOp? || op.WithdrawOp? || op.DecideOp? || op.PutUser? || op.PutPayMethod?)
    ensures Sound(Step(s, op))
  {
    hide MethodRefusal, Sound;
    OthersSound(s, Step(s, op));
  }

  lemma MakeSound(s: State, op: Op)
    requires Sound(s) && Allowed(s, op) && (op.RequestOp? || op.RealNameOp?)
    ensures Sound(Step(s, op))
  {
    hide NothingProposed;
    var after := Step(s, op);
    if after.requests != s.requests {
      MoveSound(s, after, op.id);
    }
  }

  lemma DecideSound(s: State, op: Op)
    requires Sound(s) && (op.FeeOp? || op.RejectOp?)
    ensures Sound(Step(s, op))
  {
    var after := Step(s, op);
    if after != s {
      assert RequestSound(s, s.requests[op.id]);
      MoveSound(s, after, op.id);
    }
  }

  lemma ApprovalSound(s: State, op: Op)
    requires Sound(s) && (op.ApproveOp? || op.FeePaidOp?)
    ensures Sound(Step(s, op))
  {
    hide RequestsOf, ApplyAndApprove, Sound;
    match op
    case ApproveOp(goddess, id, now) =>
      if Refusal(s, goddess, id).None? && s.requests[id].status == Pending {
        SoundRow(s, id);
        ApproveSound(s, id, now);
      }
    case FeePaidOp(payment, now) =>
      PaidRequest(s, payment);
      var found := RequestOf(s.requests, payment);
      if found.Unique? && s.requests[found.id].status == AwaitingFee {
        ApproveSound(s, found.id, now);
      }
  }

  lemma SoundRow(s: State, id: int)
    requires Sound(s) && id in s.requests
    ensures RequestSound(s, s.requests[id])
  {
  }

  lemma StepSound(s: State, op: Op)
    requires Sound(s) && Allowed(s, op)
    ensures Sound(Step(s, op))
  {
    match op
    case RequestOp(_, _, _) => MakeSound(s, op);
    case RealNameOp(_, _, _) => MakeSound(s, op);
    case ApproveOp(_, _, _) => ApprovalSound(s, op);
    case FeePaidOp(_, _) => ApprovalSound(s, op);
    case FeeOp(_, _, _) => DecideSound(s, op);
    case RejectOp(_, _, _, _) => DecideSound(s, op);
    case AcceptOp(_, _, _, _) => AcceptSound(s, op);
    case _ => PaymentSound(s, op);
  }

  lemma PaidRequest(s: State, payment: int)
    ensures RequestOf(s.requests, payment).Unique? ==>
      (RequestOf(s.requests, payment).id in s.requests && s.requests[RequestOf(s.requests, payment).id].feePayment == Some(payment))
  {
    var found := RequestOf(s.requests, payment);
    if found.Unique? {
      assert found.id in RequestsOf(s.requests, payment);
    }
  }

  /** The guarantees above hold in every run: in particular no diff is ever applied twice. */
  lemma {:induction false} RunSound(ops: seq<Op>)
    requires ValidRun(ops)
    ensures Sound(After(ops))
  {
    hide Step, Allowed;
    if ops == [] {
    } else {
      RunSound(ops[..|ops| - 1]);
      StepSound(After(ops[..|ops| - 1]), ops[|ops| - 1]);
    }
  }

  /** Approved and rejected are absorbing: no later step changes any field of the request. */
  lemma ResolvedIsFinal(s: State, op: Op, id: int)
    requires Allowed(s, op) && id in s.requests && IsResolved(s.requests[id])
    ensures id in Step(s, op).requests && Step(s, op).requests[id] == s.requests[id]
  {
    hide Patched, NothingProposed, RequestsOf;
    if op.FeePaidOp? {
      PaidRequest(s, op.payment);
    }
  }

  /**
   A request becomes approved by exactly two kinds of step: a free approval while pending, and the
   payment it is linked to at that moment while it waits for its fee.
   */
  lemma ApprovedOnlyBy(ops: seq<Op>, op: Op, id: int)
    requires ValidRun(ops) && Allowed(After(ops), op) && id in After(ops).requests && !IsResolved(After(ops).requests[id])
    ensures
      var s := After(ops);
      var r := s.requests[id];
      (Step(s, op).requests[id].status == Approved) <==>
        (|| (r.status == Pending && op.ApproveOp? && op.id == id && op.goddess.Some? && r.sub in s.users && s.users[r.sub].goddess == op.goddess)
         || (r.status == AwaitingFee && op.FeePaidOp? && r.feePayment == Some(op.payment) && r.sub in s.users))
  {
    hide Patched, NothingProposed, RequestsOf, Sound;
    hide After, ValidRun, Step;
    RunSound(ops);
    var s := After(ops);
    SoundRow(s, id);
    if op.FeePaidOp? {
      NeverAmbiguous(ops, op.payment);
      PaidRequest(s, op.payment);
      PaymentApproves(s, op, id);
    } else {
      OtherApproves(s, op, id);
    }
  }

  lemma PaymentApproves(s: State, op: Op, id: int)
    requires op.FeePaidOp? && id in s.requests && !IsResolved(s.requests[id])
    requires s.requests[id].status == AwaitingFee ==> s.requests[id].fee.Some?
    requires s.requests[id].status == Pending ==> s.requests[id].feePayment.None?
    requires
      var found := RequestOf(s.requests, op.payment);
      !found.Ambiguous? && (found.Unique? ==> found.id in s.requests && s.requests[found.id].feePayment == Some(op.payment))
      && (s.requests[id].feePayment == Some(op.payment) ==> found == Unique(id))
    ensures
      var r := s.requests[id];
      id in Step(s, op).requests
      && (Step(s, op).requests[id].status == Approved
          <==> (r.status == AwaitingFee && r.feePayment == Some(op.payment) && r.sub in s.users))
  {
    hide Patched, RequestsOf, RequestOf;
  }

  lemma OtherApproves(s: State, op: Op, id: int)
    requires !op.FeePaidOp? && Allowed(s, op) && id in s.requests && !IsResolved(s.requests[id])
    ensures
      var r := s.requests[id];
      id in Step(s, op).requests
      && (Step(s, op).requests[id].status == Approved
          <==> (r.status == Pending && op.ApproveOp? && op.id == id && op.goddess.Some? && r.sub in s.users && s.users[r.sub].goddess == op.goddess))
  {
    hide Patched, NothingProposed, MethodRefusal;
  }

  /** No payment is linked to two requests, so the lookup by payment never finds more than one. */
  lemma NeverAmbiguous(ops: seq<Op>, payment: int)
    requires ValidRun(ops)
    ensures !RequestOf(After(ops).requests, payment).Ambiguous?
    ensures forall id | id in After(ops).requests && After(ops).requests[id].feePayment == Some(payment) ::
      RequestOf(After(ops).requests, payment) == Unique(id)
  {
    RunSound(ops);
    var requests := After(ops).requests;
    forall id | id in requests && requests[id].feePayment == Some(payment)
      ensures RequestOf(requests, payment) == Unique(id)
    {
      assert id in RequestsOf(requests, payment);
    }
  }

  /** The last amount an edit gave a payment since it was declared. */
  function LastEdit(ops: seq<Op>, payment: int): Option<int> {
    if ops == [] then None
    else
      var init, op := ops[..|ops| - 1], ops[|ops| - 1];
      if op.AcceptOp? && op.payment == payment then None
      else if op.EditOp? && op.payment == payment && op.amount.Some?
              && DeclarationEdited(After(init), op.sub, payment, op.amount, op.changeMethod).1.None? then op.amount
      else LastEdit(init, payment)
  }

  lemma {:induction false} LinkedAmount(ops: seq<Op>, id: int, payment: int)
    requires ValidRun(ops) && id in After(ops).requests && After(ops).requests[id].feePayment == Some(payment)
    ensures
      var s := After(ops);
      && s.requests[id].fee.Some? && payment in s.declarations
      && s.declarations[payment].amount == if LastEdit(ops, payment).Some? then LastEdit(ops, payment).value else s.requests[id].fee.value
  {
    hide Step, Allowed, Sound, DeclarationEdited;
    if ops == [] {
      assert false;
    } else {
      var init, op := ops[..|ops| - 1], ops[|ops| - 1];
      var s := After(init);
      RunSound(init);
      if id in s.requests && s.requests[id].feePayment == Some(payment) {
        LinkedAmount(init, id, payment);
        KeepsFee(s, op, id);
        AmountStep(s, op, payment);
      } else {
        LinkMeansAccept(s, op, id, payment);
      }
    }
  }

  // Only an edit changes the amount of a declaration that is there.
  lemma AmountStep(s: State, op: Op, payment: int)
    requires Allowed(s, op) && payment in s.declarations
    ensures !(op.AcceptOp? && op.payment == payment) && payment in Step(s, op).declarations
    ensures
      var edited := op.EditOp? && op.payment == payment && op.amount.Some?
        && DeclarationEdited(s, op.sub, payment, op.amount, op.changeMethod).1.None?;
      Step(s, op).declarations[payment].amount == if edited then op.amount.value else s.declarations[payment].amount
  {
    hide Patched, NothingProposed, RequestsOf, MethodRefusal;
  }

  // The fee of a linked request stays.
  lemma KeepsFee(s: State, op: Op, id: int)
    requires Sound(s) && Allowed(s, op) && id in s.requests && s.requests[id].feePayment.Some?
    ensures id in Step(s, op).requests && Step(s, op).requests[id].fee == s.requests[id].fee
  {
    hide Patched, NothingProposed, RequestsOf, MethodRefusal, Sound;
    SoundRow(s, id);
    if op.FeePaidOp? {
      PaidRequest(s, op.payment);
    }
  }

  lemma LinkMeansAccept(s: State, op: Op, id: int, payment: int)
    requires Sound(s) && Allowed(s, op) && id in Step(s, op).requests && Step(s, op).requests[id].feePayment == Some(payment)
    requires !(id in s.requests && s.requests[id].feePayment == Some(payment))
    ensures op.AcceptOp? && op.payment == payment && op.id == id
    ensures
      var after := Step(s, op);
      && payment in after.declarations && after.requests[id].fee.Some?
      && after.declarations[payment].amount == after.requests[id].fee.value
  {
    hide Patched, NothingProposed, RequestsOf, MethodRefusal, Sound;
    if op.FeePaidOp? {
      PaidRequest(s, op.payment);
    }
  }

  /**
   The linked payment is of the fee exactly when the sub has not edited its amount since
   accepting, or has last set it to the fee.
   */
  lemma LinkedAmountIff(ops: seq<Op>, id: int, payment: int)
    requires ValidRun(ops) && id in After(ops).requests && After(ops).requests[id].feePayment == Some(payment)
    ensures
      var s := After(ops);
      && payment in s.declarations && s.requests[id].fee.Some?
      && (s.declarations[payment].amount == s.requests[id].fee.value
          <==> LastEdit(ops, payment) in {None, s.requests[id].fee})
  {
    LinkedAmount(ops, id, payment);
  }

  function SampleRun(): seq<Op> {
    [PutUser(1, User(Some(7), None, None, "", None)), PutPayMethod(5, PayMethod(7, true)),
     RequestOp(1, 2, SampleDiff()), FeeOp(Some(7), 2, 10_000), AcceptOp(1, 2, 5, 9), EditOp(1, 9, Some(1), None)]
  }

  lemma AfterSnoc(ops: seq<Op>, n: nat)
    requires n < |ops| && ValidRun(ops[..n]) && Allowed(After(ops[..n]), ops[n])
    ensures ValidRun(ops[..n + 1]) && After(ops[..n + 1]) == Step(After(ops[..n]), ops[n])
  {
    assert ops[..n + 1][..n] == ops[..n];
  }

  function SampleState(request: Request, declarations: map<int, Declaration>): State {
    State(map[1 := User(Some(7), None, None, "", None)], map[2 := request], map[5 := PayMethod(7, true)], declarations, [])
  }

  function SampleDiff(): Diff {
    Diff(Some("A"), None, None, None, None, None)
  }

  lemma SampleRequested()
    ensures ValidRun(SampleRun()[..3])
    ensures After(SampleRun()[..3]) == SampleState(NewRequest(1, SampleDiff()), map[])
  {
    hide After, ValidRun;
    var ops := SampleRun();
    EmptyRun();
    assert ops[..0] == [];
    AfterSnoc(ops, 0);
    AfterSnoc(ops, 1);
    AfterSnoc(ops, 2);
  }

  lemma SampleAfter()
    ensures ValidRun(SampleRun())
    ensures After(SampleRun()) == SampleState(Request(1, AwaitingFee, SampleDiff(), Some(10_000), Some(9), None, None),
        map[9 := Declaration(1, 7, 5, 1, Declared)])
  {
    hide After, ValidRun;
    var ops := SampleRun();
    SampleRequested();
    AfterSnoc(ops, 3);
    AfterSnoc(ops, 4);
    AfterSnoc(ops, 5);
    assert ops[..6] == ops;
  }

  /** A fee of a hundred pounds, accepted, then edited down to a penny: paying the penny approves the request. */
  lemma FeeUndercut(now: int)
    ensures ValidRun(SampleRun())
    ensures
      var s := After(SampleRun());
      && 2 in s.requests && s.requests[2].fee == Some(10_000) && s.requests[2].feePayment == Some(9)
      && 9 in s.declarations && s.declarations[9].amount == 1
      && 2 in FeePaid(s, 9, now).0.requests && FeePaid(s, 9, now).0.requests[2].status == Approved
  {
    hide After, ValidRun, SampleRun, RequestOf, RequestsOf;
    SampleAfter();
    NeverAmbiguous(SampleRun(), 9);
  }

  lemma EmptyRun()
    ensures ValidRun([]) && After([]) == State(map[], map[], map[], map[], [])
  {
  }

  /** Accepting the fee again moves the link: the payment declared first then approves nothing when it is paid. */
  lemma SupersededPaymentIgnored(ops: seq<Op>, op: Op, first: int, now: int)
    requires ValidRun(ops) && Allowed(After(ops), op) && op.AcceptOp? && op.id in After(ops).requests
    requires After(ops).requests[op.id].feePayment == Some(first)
    ensures
      var s := After(ops);
      FeeAccepted(s, op.sub, op.id, op.payMethod, op.payment).1.None? ==> FeePaid(Step(s, op), first, now) == (Step(s, op), None)
  {
    RunSound(ops);
    var s := After(ops);
    var after := Step(s, op);
    if FeeAccepted(s, op.sub, op.id, op.payMethod, op.payment).1.None? {
      assert first in s.declarations by {
        assert RequestSound(s, s.requests[op.id]);
      }
      forall id | id in after.requests
        ensures after.requests[id].feePayment != Some(first)
      {
        assert id != op.id ==> s.requests[op.id].feePayment != s.requests[id].feePayment;
      }
      assert RequestsOf(after.requests, first) == {};
    }
  }

  ghost predicate NoPaidApproval(s: State) {
    forall id | id in s.requests && s.requests[id].fee.Some? :: s.requests[id].status != Approved
  }

  lemma StepNoPaidApproval(s: State, op: Op)
    requires Sound(s) && Allowed(s, op) && NoPaidApproval(s) && !op.FeePaidOp?
    ensures NoPaidApproval(Step(s, op))
  {
    hide Patched, NothingProposed, Sound;
    if op.ApproveOp? && op.id in s.requests {
      SoundRow(s, op.id);
    }
  }

  /** Nothing but the fee-paid step approves a request with a fee; without that step none ever is. */
  lemma {:induction false} FeeNeedsFeePaid(ops: seq<Op>)
    requires ValidRun(ops) && forall op | op in ops :: !op.FeePaidOp?
    ensures NoPaidApproval(After(ops))
  {
    hide Step, Allowed, Sound;
    if ops == [] {
    } else {
      var init, last := ops[..|ops| - 1], ops[|ops| - 1];
      assert last in ops && forall op | op in init :: op in ops;
      FeeNeedsFeePaid(init);
      RunSound(init);
      StepNoPaidApproval(After(init), last);
    }
  }

  predicate Shows(u: User, d: Diff) {
    && (d.firstName.Some? ==> u.firstName == d.firstName)
    && (d.lastName.Some? ==> u.lastName == d.lastName)
    && (d.avatar.Some? ==> u.avatar == d.avatar.value)
    && (d.realName.Some? ==> u.realName == d.realName)
  }

  /** Approval makes the profile show the proposal; it changes the user exactly when the proposal differs from what the profile shows. */
  lemma ApprovalShowsDiff(s: State, goddess: Option<int>, id: int, now: int)
    requires ApprovedFree(s, goddess, id, now).1.None?
    ensures
      var after, r := ApprovedFree(s, goddess, id, now).0, s.requests[id];
      && r.sub in after.users && Shows(after.users[r.sub], r.diff)
      && (after.users == s.users <==> Shows(s.users[r.sub], r.diff))
      && (forall u | u in s.users && u != r.sub :: after.users[u] == s.users[u])
  {
  }
}
