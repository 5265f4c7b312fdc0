/** Which requests move a user's status, a blacklist entry or a contract, and to what. */
module Statuses {
  import opened Wrappers
  import opened Sums
  import opened Accounts

  /** The goddess the user is linked to breaches a user she has not blacklisted yet. */
  predicate MayBreach(s: Tables, goddess: Option<int>, user: int) {
    goddess.Some? && user in s.users && s.users[user].goddess == goddess && s.users[user].status != Blacklisted
  }

  /** The goddess who wrote the entry closes it, for a fee that is not negative. */
  predicate MayForgive(s: Tables, goddess: Option<int>, entry: int, fee: int) {
    entry in s.entries && goddess == Some(s.entries[entry].goddess) && s.entries[entry].feePaid.None? && 0 <= fee
  }

  lemma UserMovesIff(s: Tables, op: Op, u: int)
    requires FreshIds(s, op)
    ensures u in s.users ==> u in Step(s, op).users
    ensures u in s.users ==> (Step(s, op).users[u] ==
      var user := s.users[u];
      match op
      case PromoteOp(v) => if v == u && user.status == PendingEntryTribute then user.(status := Active) else user
      case BreachOp(goddess, v, _) => if v == u && MayBreach(s, goddess, u) then user.(status := Blacklisted) else user
      case ForgiveOp(goddess, entry, fee) => if MayForgive(s, goddess, entry, fee) && s.entries[entry].sub == u then user.(status := Active) else user
      case _ => user)
    ensures u !in s.users ==> (u in Step(s, op).users <==> (op.SignupOp? && op.user == u))
    ensures u !in s.users && u in Step(s, op).users ==> Step(s, op).users[u] == User(Some(op.profile), PendingEntryTribute)
  {
    hide Breached, Snapshot, RevokeAll;
  }

  /** The sum of the balances of the sub's active contracts. */
  function Frozen(contracts: seq<Contract>, sub: int): int {
    Sum(seq(|contracts|, i requires 0 <= i < |contracts| =>
      if contracts[i].sub == sub && contracts[i].active then contracts[i].balance else 0))
  }

  lemma {:induction false} SnapshotIsSum(contracts: seq<Contract>, sub: int)
    ensures Snapshot(contracts, sub) == Frozen(contracts, sub)
  {
    if contracts == [] {
    } else {
      var init := contracts[..|contracts| - 1];
      SnapshotIsSum(init, sub);
      var balances := seq(|contracts|, i requires 0 <= i < |contracts| =>
        if contracts[i].sub == sub && contracts[i].active then contracts[i].balance else 0);
      assert balances[..|init|] == seq(|init|, i requires 0 <= i < |init| =>
        if init[i].sub == sub && init[i].active then init[i].balance else 0);
    }
  }

  /** An entry is new exactly for a breach, freezing the sum of the sub's active balances; it changes only by the one forgiveness. */
  lemma EntryMovesIff(s: Tables, op: Op, entry: int)
    requires FreshIds(s, op)
    ensures entry in s.entries ==> entry in Step(s, op).entries
    ensures entry in s.entries ==> (Step(s, op).entries[entry] ==
      if op.ForgiveOp? && op.entry == entry && MayForgive(s, op.goddess, entry, op.fee)
      then s.entries[entry].(feePaid := Some(op.fee))
      else s.entries[entry])
    ensures entry !in s.entries ==>
      (entry in Step(s, op).entries <==> (op.BreachOp? && op.entry == entry && MayBreach(s, op.goddess, op.user)))
    ensures entry !in s.entries && entry in Step(s, op).entries ==> (Step(s, op).entries[entry] ==
      Entry(op.goddess.value, op.user, Frozen(s.contracts, op.user), None))
  {
    hide Breached, Snapshot, RevokeAll, Frozen;
    if op.BreachOp? {
      SnapshotIsSum(s.contracts, op.user);
    }
  }

  /** A contract changes only when its sub is breached while it is active, and keeps its balance then. */
  lemma ContractMovesIff(s: Tables, op: Op, i: nat)
    requires FreshIds(s, op) && i < |s.contracts|
    ensures |Step(s, op).contracts| == |s.contracts|
    ensures Step(s, op).contracts[i] ==
      var c := s.contracts[i];
      if op.BreachOp? && MayBreach(s, op.goddess, op.user) && c.sub == op.user && c.active
      then Contract(c.sub, false, true, c.balance)
      else c
  {
    hide Snapshot, RevokeAll;
  }

  /** A login gets a token exactly for a known account that is neither blacklisted nor deleted. */
  lemma LoginIff(s: Tables, who: Option<int>, raw: int, now: int)
    requires raw !in s.tokens
    ensures Login(s, who, raw, now).1.Ok?
      <==> (who.Some? && who.value in s.users
            && (s.users[who.value].status == PendingEntryTribute || s.users[who.value].status == Active))
    ensures Login(s, who, raw, now).1.Ok? <==> raw in Login(s, who, raw, now).0.tokens
  {
  }
}
