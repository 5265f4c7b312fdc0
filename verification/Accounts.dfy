/**
 Accounts: refresh tokens, password reset, and the breach that blacklists a sub until it is
 forgiven.  Raw tokens stand for themselves: hashing is taken to be injective.
 */
module Accounts {
  import opened Wrappers

  const REFRESH_TTL := 30 * 86_400
  const RESET_TTL := 60 * 60

  datatype Status = PendingEntryTribute | Active | Blacklisted | Deleted
  datatype User = User(goddess: Option<int>, status: Status)
  datatype Token = Token(user: int, expiresAt: int, revoked: bool)
  datatype Reset = Reset(user: int, expiresAt: int, used: bool)
  datatype Entry = Entry(goddess: int, sub: int, snapshot: int, feePaid: Option<int>)
  datatype Contract = Contract(sub: int, active: bool, breached: bool, balance: int)

  datatype Tables = Tables(users: map<int, User>, tokens: map<int, Token>, resets: map<int, Reset>,
    entries: map<int, Entry>, contracts: seq<Contract>)

  // ---------------------------------------------------------------- what each request does

  function RevokeAll(tokens: map<int, Token>, user: int): map<int, Token> {
    map raw | raw in tokens :: if tokens[raw].user == user then tokens[raw].(revoked := true) else tokens[raw]
  }

  function Breached(contracts: seq<Contract>, sub: int): seq<Contract> {
    seq(|contracts|, i requires 0 <= i < |contracts| =>
      if contracts[i].sub == sub && contracts[i].active then contracts[i].(active := false, breached := true)
      else contracts[i])
  }

  /** Total balance of the sub's active contracts. */
  function Snapshot(contracts: seq<Contract>, sub: int): int {
    if contracts == [] then 0
    else
      var last := contracts[|contracts| - 1];
      Snapshot(contracts[..|contracts| - 1], sub) + if last.sub == sub && last.active then last.balance else 0
  }

  // `who` is the account the credentials match.
  function Login(s: Tables, who: Option<int>, raw: int, now: int): (Tables, Result<int>) {
    if who.None? || who.value !in s.users then (s, Err(Unauthorized))
    else if s.users[who.value].status in {Blacklisted, Deleted} then (s, Err(Forbidden))
    else (s.(tokens := s.tokens[raw := Token(who.value, now + REFRESH_TTL, false)]), Ok(raw))
  }

  function Refresh(s: Tables, raw: int, newRaw: int, now: int): (Tables, Result<int>) {
    if raw !in s.tokens || s.tokens[raw].revoked || s.tokens[raw].expiresAt < now
       || s.tokens[raw].user !in s.users then (s, Err(Unauthorized))
    else
      var t := s.tokens[raw];
      (s.(tokens := s.tokens[raw := t.(revoked := true)][newRaw := Token(t.user, now + REFRESH_TTL, false)]), Ok(newRaw))
  }

  function Logout(s: Tables, raw: int): Tables {
    if raw in s.tokens then s.(tokens := s.tokens[raw := s.tokens[raw].(revoked := true)]) else s
  }

  function ConfirmReset(s: Tables, reset: int, now: int): (Tables, Result<()>) {
    if reset !in s.resets || s.resets[reset].used || s.resets[reset].expiresAt < now
       || s.resets[reset].user !in s.users then (s, Err(BadRequest))
    else
      var r := s.resets[reset];
      (s.(resets := s.resets[reset := r.(used := true)], tokens := RevokeAll(s.tokens, r.user)), Ok(()))
  }

  // `goddess` is the profile of the caller, if it has one.
  function Breach(s: Tables, goddess: Option<int>, sub: int, entry: int): (Tables, Result<int>) {
    if goddess.None? then (s, Err(Forbidden))
    else if sub !in s.users || s.users[sub].goddess != goddess then (s, Err(NotFound))
    else if s.users[sub].status == Blacklisted then (s, Err(Conflict))
    else
      (Tables(s.users[sub := s.users[sub].(status := Blacklisted)], RevokeAll(s.tokens, sub), s.resets,
        s.entries[entry := Entry(goddess.value, sub, Snapshot(s.contracts, sub), None)],
        Breached(s.contracts, sub)), Ok(entry))
  }

  function Forgive(s: Tables, goddess: Option<int>, entry: int, fee: int): (Tables, Result<int>) {
    if goddess.None? then (s, Err(Forbidden))
    else if entry !in s.entries then (s, Err(NotFound))
    else if s.entries[entry].goddess != goddess.value then (s, Err(Forbidden))
    else if s.entries[entry].feePaid.Some? then (s, Err(Conflict))
    else if fee < 0 then (s, Err(BadRequest))
    else
      var e := s.entries[entry];
      (s.(entries := s.entries[entry := e.(feePaid := Some(fee))],
          users := if e.sub in s.users then s.users[e.sub := s.users[e.sub].(status := Active)] else s.users), Ok(entry))
  }

  /** A validated entry payment activates a sub that still owes it. */
  function Promote(s: Tables, sub: int): (Tables, Result<()>) {
    if sub !in s.users then (s, Err(NotFound))
    else if s.users[sub].status != PendingEntryTribute then (s, Err(BadRequest))
    else (s.(users := s.users[sub := s.users[sub].(status := Active)]), Ok(()))
  }

  class AccountTables {
    var users: map<int, User>
    var tokens: map<int, Token>
    var resets: map<int, Reset>
    var entries: map<int, Entry>
    var contracts: seq<Contract>

    ghost function State(): Tables
      reads this
    {
      Tables(users, tokens, resets, entries, contracts)
    }

    constructor (users: map<int, User>, contracts: seq<Contract>)
      ensures State() == Tables(users, map[], map[], map[], contracts)
    {
      this.users, this.contracts := users, contracts;
      tokens, resets, entries := map[], map[], map[];
    }

    method LoginAs(who: Option<int>, raw: int, now: int) returns (r: Result<int>)
      modifies this
      ensures (State(), r) == Login(old(State()), who, raw, now)
    {
      if who.None? || who.value !in users {
        return Err(Unauthorized);
      }
      if users[who.value].status == Blacklisted || users[who.value].status == Deleted {
        return Err(Forbidden);
      }
      tokens := tokens[raw := Token(who.value, now + REFRESH_TTL, false)];
      return Ok(raw);
    }

    method RefreshToken(raw: int, newRaw: int, now: int) returns (r: Result<int>)
      modifies this
      ensures (State(), r) == Refresh(old(State()), raw, newRaw, now)
    {
      if raw !in tokens || tokens[raw].revoked {
        return Err(Unauthorized);
      }
      var t := tokens[raw];
      if t.expiresAt < now || t.user !in users {
        return Err(Unauthorized);
      }
      tokens := tokens[raw := t.(revoked := true)];
      tokens := tokens[newRaw := Token(t.user, now + REFRESH_TTL, false)];
      return Ok(newRaw);
    }

    method LogoutToken(raw: int)
      modifies this
      ensures State() == Logout(old(State()), raw)
    {
      if raw in tokens && !tokens[raw].revoked {
        tokens := tokens[raw := tokens[raw].(revoked := true)];
      }
      assert raw in old(tokens) && old(tokens)[raw].revoked ==> old(tokens)[raw].(revoked := true) == old(tokens)[raw];
    }

    method RevokeAllRefresh(user: int)
      modifies this`tokens
      ensures tokens == RevokeAll(old(tokens), user)
    {
      var rows := set raw | raw in tokens && tokens[raw].user == user && !tokens[raw].revoked;
      while exists raw :: raw in rows
        invariant tokens.Keys == old(tokens).Keys
        invariant forall raw | raw in rows :: raw in tokens && tokens[raw].user == user
        invariant forall raw | raw in tokens ::
          tokens[raw] == if raw in rows then old(tokens)[raw] else RevokeAll(old(tokens), user)[raw]
        decreases rows
      {
        var raw :| raw in rows;
        tokens := tokens[raw := tokens[raw].(revoked := true)];
        rows := rows - {raw};
      }
      assert tokens.Keys == RevokeAll(old(tokens), user).Keys;
      assert forall raw | raw in tokens :: tokens[raw] == RevokeAll(old(tokens), user)[raw];
    }

    method ConfirmPasswordReset(reset: int, now: int) returns (r: Result<()>)
      modifies this
      ensures (State(), r) == ConfirmReset(old(State()), reset, now)
    {
      if reset !in resets || resets[reset].used || resets[reset].expiresAt < now || resets[reset].user !in users {
        return Err(BadRequest);
      }
      resets := resets[reset := resets[reset].(used := true)];
      RevokeAllRefresh(resets[reset].user);
      return Ok(());
    }

    method BreachSub(goddess: Option<int>, sub: int, entry: int) returns (r: Result<int>)
      modifies this
      ensures (State(), r) == Breach(old(State()), goddess, sub, entry)
    {
      if goddess.None? {
        return Err(Forbidden);
      }
      if sub !in users || users[sub].goddess != goddess {
        return Err(NotFound);
      }
      if users[sub].status == Blacklisted {
        return Err(Conflict);
      }
      var snapshot, i := 0, 0;
      while i < |contracts|
        invariant i <= |contracts| == |old(contracts)|
        invariant unchanged(`users) && unchanged(`tokens) && unchanged(`resets) && unchanged(`entries)
        invariant snapshot == Snapshot(old(contracts)[..i], sub)
        invariant forall j | 0 <= j < i :: contracts[j] == Breached(old(contracts), sub)[j]
        invariant forall j | i <= j < |contracts| :: contracts[j] == old(contracts)[j]
      {
        assert old(contracts)[..i + 1][..i] == old(contracts)[..i];
        if contracts[i].sub == sub && contracts[i].active {
          snapshot := snapshot + contracts[i].balance;
          contracts := contracts[i := contracts[i].(active := false, breached := true)];
        }
        i := i + 1;
      }
      assert old(contracts)[..i] == old(contracts);
      assert contracts == Breached(old(contracts), sub);
      users := users[sub := users[sub].(status := Blacklisted)];
      RevokeAllRefresh(sub);
      entries := entries[entry := Entry(goddess.value, sub, snapshot, None)];
      return Ok(entry);
    }

    method ForgiveEntry(goddess: Option<int>, entry: int, fee: int) returns (r: Result<int>)
      modifies this
      ensures (State(), r) == Forgive(old(State()), goddess, entry, fee)
    {
      if goddess.None? {
        return Err(Forbidden);
      }
      if entry !in entries {
        return Err(NotFound);
      }
      var e := entries[entry];
      if e.goddess != goddess.value {
        return Err(Forbidden);
      }
      if e.feePaid.Some? {
        return Err(Conflict);
      }
      if fee < 0 {
        return Err(BadRequest);
      }
      entries := entries[entry := e.(feePaid := Some(fee))];
      if e.sub in users {
        users := users[e.sub := users[e.sub].(status := Active)];
      }
      assert State() == Forgive(old(State()), goddess, entry, fee).0;
      return Ok(entry);
    }
  }

  // ---------------------------------------------------------------- runs

  datatype Op =
    | SignupOp(user: int, profile: int, raw: int, now: int)
    | LoginOp(who: Option<int>, raw: int, now: int)
    | RefreshOp(raw: int, newRaw: int, now: int)
    | LogoutOp(raw: int)
    | RequestResetOp(user: int, reset: int, now: int)
    | ConfirmResetOp(reset: int, now: int)
    | PromoteOp(user: int)
    | BreachOp(goddess: Option<int>, user: int, entry: int)
    | ForgiveOp(goddess: Option<int>, entry: int, fee: int)

  function Step(s: Tables, op: Op): Tables {
    match op
    case SignupOp(user, profile, raw, now) =>
      s.(users := s.users[user := User(Some(profile), PendingEntryTribute)],
         tokens := s.tokens[raw := Token(user, now + REFRESH_TTL, false)])
    case LoginOp(who, raw, now) => Login(s, who, raw, now).0
    case RefreshOp(raw, newRaw, now) => Refresh(s, raw, newRaw, now).0
    case LogoutOp(raw) => Logout(s, raw)
    case RequestResetOp(user, reset, now) =>
      if user in s.users then s.(resets := s.resets[reset := Reset(user, now + RESET_TTL, false)]) else s
    case ConfirmResetOp(reset, now) => ConfirmReset(s, reset, now).0
    case PromoteOp(user) => Promote(s, user).0
    case BreachOp(goddess, user, entry) => Breach(s, goddess, user, entry).0
    case ForgiveOp(goddess, entry, fee) => Forgive(s, goddess, entry, fee).0
  }

  /** New rows get identifiers that no row has. */
  predicate FreshIds(s: Tables, op: Op) {
    match op
    case SignupOp(user, _, raw, _) => user !in s.users && raw !in s.tokens
    case LoginOp(_, raw, _) => raw !in s.tokens
    case RefreshOp(raw, newRaw, _) => newRaw !in s.tokens
    case RequestResetOp(_, reset, _) => reset !in s.resets
    case BreachOp(_, _, entry) => entry !in s.entries
    case _ => true
  }

  function After(s: Tables, ops: seq<Op>): Tables {
    if ops == [] then s else Step(After(s, ops[..|ops| - 1]), ops[|ops| - 1])
  }

  predicate ValidRun(s: Tables, ops: seq<Op>) {
    ops == [] || (ValidRun(s, ops[..|ops| - 1]) && FreshIds(After(s, ops[..|ops| - 1]), ops[|ops| - 1]))
  }

  /** Only users so far, none of them blacklisted. */
  predicate Initial(s: Tables) {
    s.tokens == map[] && s.resets == map[] && s.entries == map[]
    && forall u | u in s.users :: s.users[u].status != Blacklisted
  }

  // ---------------------------------------------------------------- the blacklist

  predicate Live(s: Tables, raw: int, user: int) {
    raw in s.tokens && s.tokens[raw].user == user && !s.tokens[raw].revoked
  }

  predicate Open(s: Tables, entry: int, user: int) {
    entry in s.entries && s.entries[entry].sub == user && s.entries[entry].feePaid.None?
  }

  ghost predicate OneOpen(s: Tables, user: int) {
    exists e :: Open(s, e, user) && forall f :: Open(s, f, user) ==> f == e
  }

  ghost predicate Locked(s: Tables, user: int) {
    (forall raw :: !Live(s, raw, user)) && OneOpen(s, user)
  }

  /**
   A blacklisted user holds no unrevoked refresh token and exactly one unforgiven entry; nobody
   else has an unforgiven entry.
   */
  ghost predicate BlacklistInv(s: Tables) {
    RowsBelong(s) && forall u | u in s.users :: LockedIff(s, u)
  }

  ghost predicate RowsBelong(s: Tables) {
    && (forall raw | raw in s.tokens :: s.tokens[raw].user in s.users)
    && (forall e | e in s.entries :: s.entries[e].sub in s.users)
    && (forall reset | reset in s.resets :: s.resets[reset].user in s.users)
  }

  ghost predicate LockedIff(s: Tables, u: int)
    requires u in s.users
  {
    if s.users[u].status == Blacklisted then Locked(s, u) else forall e :: !Open(s, e, u)
  }

  lemma StepKeepsRows(s: Tables, op: Op)
    requires RowsBelong(s)
    ensures RowsBelong(Step(s, op))
  {
  }

  lemma BreachRows(s: Tables, goddess: Option<int>, user: int, entry: int, u: int)
    requires Breach(s, goddess, user, entry).1.Ok? && entry !in s.entries
    ensures var after := Breach(s, goddess, user, entry).0;
      && (forall e :: Open(after, e, u) <==> Open(s, e, u) || (e == entry && u == user))
      && (forall raw :: Live(after, raw, u) <==> Live(s, raw, u) && u != user)
      && !Open(s, entry, u)
  {
    hide Breached, Snapshot;
  }

  lemma BreachLocks(s: Tables, goddess: Option<int>, user: int, entry: int, u: int)
    requires u in s.users && LockedIff(s, u) && entry !in s.entries
    ensures u in Breach(s, goddess, user, entry).0.users
    ensures LockedIff(Breach(s, goddess, user, entry).0, u)
  {
    var after := Breach(s, goddess, user, entry).0;
    if Breach(s, goddess, user, entry).1.Ok? {
      BreachRows(s, goddess, user, entry, u);
      hide Open, Live, Breached, Snapshot, RevokeAll;
      if u == user {
        assert Open(after, entry, u);
      } else if s.users[u].status == Blacklisted {
        var e :| Open(s, e, u) && forall f :: Open(s, f, u) ==> f == e;
        assert Open(after, e, u);
      }
    }
  }

  lemma ForgiveRows(s: Tables, goddess: Option<int>, entry: int, fee: int, u: int)
    requires Forgive(s, goddess, entry, fee).1.Ok?
    ensures var after := Forgive(s, goddess, entry, fee).0;
      && (forall e :: Open(after, e, u) <==> Open(s, e, u) && e != entry)
      && (forall raw :: Live(after, raw, u) <==> Live(s, raw, u))
      && (Open(s, entry, u) <==> s.entries[entry].sub == u)
  {
  }

  lemma ForgiveUnlocks(s: Tables, goddess: Option<int>, entry: int, fee: int, u: int)
    requires u in s.users && LockedIff(s, u)
    ensures u in Forgive(s, goddess, entry, fee).0.users
    ensures LockedIff(Forgive(s, goddess, entry, fee).0, u)
  {
    var after := Forgive(s, goddess, entry, fee).0;
    if Forgive(s, goddess, entry, fee).1.Ok? {
      ForgiveRows(s, goddess, entry, fee, u);
      hide Open, Live;
      if s.entries[entry].sub != u && s.users[u].status == Blacklisted {
        var e :| Open(s, e, u) && forall f :: Open(s, f, u) ==> f == e;
        assert Open(after, e, u);
      }
    }
  }

  /** Every other request leaves the entries alone, and gives no blacklisted user a token. */
  lemma OtherRows(s: Tables, op: Op, u: int)
    requires !op.BreachOp? && !op.ForgiveOp?
    requires RowsBelong(s) && u in s.users && LockedIff(s, u) && FreshIds(s, op)
    ensures var after := Step(s, op);
      && u in after.users && after.entries == s.entries
      && ((after.users[u].status == Blacklisted) == (s.users[u].status == Blacklisted))
      && (s.users[u].status == Blacklisted ==> forall raw :: !Live(after, raw, u))
  {
    hide OneOpen;
    if op.RefreshOp? && Refresh(s, op.raw, op.newRaw, op.now).1.Ok? {
      assert Live(s, op.raw, s.tokens[op.raw].user);
    }
    if s.users[u].status == Blacklisted {
      forall raw ensures !Live(Step(s, op), raw, u) {
        assert !Live(s, raw, u);
      }
    }
  }

  lemma StepKeepsLock(s: Tables, op: Op, u: int)
    requires RowsBelong(s) && u in s.users && LockedIff(s, u) && FreshIds(s, op)
    ensures u in Step(s, op).users && LockedIff(Step(s, op), u)
  {
    hide Breached, Snapshot, RevokeAll;
    match op
    case BreachOp(goddess, user, entry) => BreachLocks(s, goddess, user, entry, u);
    case ForgiveOp(goddess, entry, fee) => ForgiveUnlocks(s, goddess, entry, fee, u);
    case _ =>
      OtherRows(s, op, u);
      SameEntries(s, Step(s, op), u);
  }

  lemma SameEntries(s: Tables, after: Tables, u: int)
    requires u in s.users && u in after.users && LockedIff(s, u)
    requires after.entries == s.entries
    requires (after.users[u].status == Blacklisted) == (s.users[u].status == Blacklisted)
    requires s.users[u].status == Blacklisted ==> forall raw :: !Live(after, raw, u)
    ensures LockedIff(after, u)
  {
    assert forall e :: Open(after, e, u) <==> Open(s, e, u);
  }

  lemma StepKeepsBlacklist(s: Tables, op: Op)
    requires BlacklistInv(s) && FreshIds(s, op)
    ensures BlacklistInv(Step(s, op))
  {
    var after := Step(s, op);
    StepKeepsRows(s, op);
    forall u | u in after.users
      ensures LockedIff(after, u)
    {
      if u in s.users {
        assert LockedIff(s, u);
        StepKeepsLock(s, op, u);
      } else {
        NewUserIsClear(s, op, u);
      }
    }
  }

  lemma NewUserIsClear(s: Tables, op: Op, u: int)
    requires RowsBelong(s) && u !in s.users && u in Step(s, op).users
    ensures LockedIff(Step(s, op), u)
  {
  }

  lemma {:induction false} BlacklistHolds(s: Tables, ops: seq<Op>)
    requires Initial(s) && ValidRun(s, ops)
    ensures BlacklistInv(After(s, ops))
  {
    if ops == [] {
    } else {
      BlacklistHolds(s, ops[..|ops| - 1]);
      StepKeepsBlacklist(After(s, ops[..|ops| - 1]), ops[|ops| - 1]);
    }
  }

  /** So in every reachable state a blacklisted user can neither log in nor refresh. */
  lemma BlacklistedLockedOut(s: Tables, ops: seq<Op>, user: int, raw: int, newRaw: int, now: int)
    requires Initial(s) && ValidRun(s, ops)
    requires user in After(s, ops).users && After(s, ops).users[user].status == Blacklisted
    ensures Login(After(s, ops), Some(user), newRaw, now) == (After(s, ops), Err(Forbidden))
    ensures raw in After(s, ops).tokens && After(s, ops).tokens[raw].user == user ==>
      Refresh(After(s, ops), raw, newRaw, now) == (After(s, ops), Err(Unauthorized))
  {
    BlacklistHolds(s, ops);
    assert LockedIff(After(s, ops), user) && Locked(After(s, ops), user);
    assert !Live(After(s, ops), raw, user);
  }

  // ---------------------------------------------------------------- token conservation

  function LiveTokens(s: Tables, user: int): set<int> {
    set raw | raw in s.tokens && Live(s, raw, user)
  }

  /** Logins plus signup less effective logouts since the user's tokens were last revoked together. */
  function Tally(s: Tables, ops: seq<Op>, user: int): int {
    if ops == [] then 0
    else
      var init, op := ops[..|ops| - 1], ops[|ops| - 1];
      var before, n := After(s, init), Tally(s, init, user);
      match op
      case SignupOp(u, _, _, _) => if u == user then n + 1 else n
      case LoginOp(who, raw, now) => if who == Some(user) && Login(before, who, raw, now).1.Ok? then n + 1 else n
      case LogoutOp(raw) => if Live(before, raw, user) then n - 1 else n
      case ConfirmResetOp(reset, now) =>
        if ConfirmReset(before, reset, now).1.Ok? && before.resets[reset].user == user then 0 else n
      case BreachOp(goddess, u, entry) => if u == user && Breach(before, goddess, u, entry).1.Ok? then 0 else n
      case _ => n
  }

  lemma StepTokens(s: Tables, op: Op, user: int)
    requires FreshIds(s, op)
    ensures
      var before, after := LiveTokens(s, user), LiveTokens(Step(s, op), user);
      match op
      case SignupOp(u, _, raw, _) => after == (if u == user then before + {raw} else before) && raw !in before
      case LoginOp(who, raw, now) =>
        after == (if who == Some(user) && Login(s, who, raw, now).1.Ok? then before + {raw} else before) && raw !in before
      case RefreshOp(raw, newRaw, now) =>
        if Refresh(s, raw, newRaw, now).1.Ok? && s.tokens[raw].user == user
        then after == before - {raw} + {newRaw} && raw in before && newRaw !in before
        else after == before
      case LogoutOp(raw) => after == before - {raw}
      case ConfirmResetOp(reset, now) =>
        after == if ConfirmReset(s, reset, now).1.Ok? && s.resets[reset].user == user then {} else before
      case BreachOp(goddess, u, entry) => after == if u == user && Breach(s, goddess, u, entry).1.Ok? then {} else before
      case _ => after == before
  {
  }

  /** A refresh keeps the number of a user's unrevoked tokens; it is always the tally. */
  lemma {:induction false} TokensConserved(s: Tables, ops: seq<Op>, user: int)
    requires Initial(s) && ValidRun(s, ops)
    ensures |LiveTokens(After(s, ops), user)| == Tally(s, ops, user)
  {
    if ops == [] {
    } else {
      var init, op := ops[..|ops| - 1], ops[|ops| - 1];
      TokensConserved(s, init, user);
      StepTokens(After(s, init), op, user);
    }
  }

  /** Operation `i` is a refresh that accepts `raw`. */
  predicate Accepts(s: Tables, ops: seq<Op>, i: nat, raw: int) {
    i < |ops| && ops[i].RefreshOp? && ops[i].raw == raw
    && Refresh(After(s, ops[..i]), raw, ops[i].newRaw, ops[i].now).1.Ok?
  }

  predicate Revoked(s: Tables, raw: int) {
    raw in s.tokens && s.tokens[raw].revoked
  }

  lemma StepKeepsRevoked(s: Tables, op: Op, raw: int)
    requires Revoked(s, raw) && FreshIds(s, op)
    ensures Revoked(Step(s, op), raw)
  {
    hide Breached, Snapshot;
  }

  lemma {:induction false} RevokedForGood(s: Tables, ops: seq<Op>, n: nat, raw: int)
    requires ValidRun(s, ops) && n <= |ops| && Revoked(After(s, ops[..n]), raw)
    ensures Revoked(After(s, ops), raw)
  {
    hide Revoked, Step, FreshIds;
    if n == |ops| {
      assert ops[..n] == ops;
    } else {
      var init := ops[..|ops| - 1];
      assert init[..n] == ops[..n];
      RevokedForGood(s, init, n, raw);
      StepKeepsRevoked(After(s, init), ops[|ops| - 1], raw);
    }
  }

  lemma {:induction false} RunPrefix(s: Tables, ops: seq<Op>, n: nat)
    requires ValidRun(s, ops) && n <= |ops|
    ensures ValidRun(s, ops[..n])
  {
    if n == |ops| {
      assert ops[..n] == ops;
    } else {
      assert ops[..|ops| - 1][..n] == ops[..n];
      RunPrefix(s, ops[..|ops| - 1], n);
    }
  }

  lemma AcceptRevokes(s: Tables, ops: seq<Op>, i: nat, raw: int)
    requires ValidRun(s, ops) && Accepts(s, ops, i, raw)
    ensures Revoked(After(s, ops[..i + 1]), raw)
  {
    hide ValidRun, After, Step, FreshIds;
    RunPrefix(s, ops, i + 1);
    assert ops[..i + 1][..i] == ops[..i];
    LastStep(s, ops[..i + 1]);
    RefreshRevokes(After(s, ops[..i]), ops[i]);
  }

  lemma LastStep(s: Tables, ops: seq<Op>)
    requires ValidRun(s, ops) && ops != []
    ensures After(s, ops) == Step(After(s, ops[..|ops| - 1]), ops[|ops| - 1])
    ensures FreshIds(After(s, ops[..|ops| - 1]), ops[|ops| - 1])
  {
  }

  lemma RefreshRevokes(s: Tables, op: Op)
    requires op.RefreshOp? && FreshIds(s, op) && Refresh(s, op.raw, op.newRaw, op.now).1.Ok?
    ensures Revoked(Step(s, op), op.raw)
  {
  }

  /** A raw token is accepted at most once in any run. */
  lemma AcceptedAtMostOnce(s: Tables, ops: seq<Op>, i: nat, j: nat, raw: int)
    requires ValidRun(s, ops) && i < j && Accepts(s, ops, i, raw)
    ensures !Accepts(s, ops, j, raw)
  {
    hide ValidRun, After;
    if j < |ops| {
      var upTo := ops[..j];
      RunPrefix(s, ops, j);
      AcceptRevokes(s, ops, i, raw);
      assert upTo[..i + 1] == ops[..i + 1];
      RevokedForGood(s, upTo, i + 1, raw);
    }
  }

  // ---------------------------------------------------------------- breach, preview, forgive

  datatype Preview = Preview(contracts: nat, balance: int, willBlacklist: bool)

  function ActiveCount(contracts: seq<Contract>, sub: int): nat {
    |set i | 0 <= i < |contracts| && contracts[i].sub == sub && contracts[i].active|
  }

  function BreachPreview(s: Tables, goddess: Option<int>, sub: int): Result<Preview> {
    if goddess.None? then Err(Forbidden)
    else if sub !in s.users || s.users[sub].goddess != goddess then Err(NotFound)
    else Ok(Preview(ActiveCount(s.contracts, sub), Snapshot(s.contracts, sub), s.users[sub].status != Blacklisted))
  }

  /**
   The preview foretells the breach: it succeeds when the preview says it will blacklist, it
   freezes the previewed balance, and the contracts it turns from active to breached are the
   previewed number; none of the sub's stays active.
   */
  lemma PreviewForetells(s: Tables, goddess: Option<int>, sub: int, entry: int)
    requires BreachPreview(s, goddess, sub).Ok?
    ensures
      var preview, (after, r) := BreachPreview(s, goddess, sub).value, Breach(s, goddess, sub, entry);
      && (preview.willBlacklist <==> r.Ok?)
      && (r.Ok? ==>
        && after.entries[entry].snapshot == preview.balance
        && preview.contracts == |set i | 0 <= i < |s.contracts| && after.contracts[i] != s.contracts[i]|
        && ActiveCount(after.contracts, sub) == 0
        && Snapshot(after.contracts, sub) == 0)
  {
    var (after, r) := Breach(s, goddess, sub, entry);
    if r.Ok? {
      assert (set i | 0 <= i < |s.contracts| && after.contracts[i] != s.contracts[i])
        == set i | 0 <= i < |s.contracts| && s.contracts[i].sub == sub && s.contracts[i].active;
      assert (set i | 0 <= i < |after.contracts| && after.contracts[i].sub == sub && after.contracts[i].active) == {};
      NothingToFreeze(after.contracts, sub);
    }
  }

  lemma {:induction false} NothingToFreeze(contracts: seq<Contract>, sub: int)
    requires forall i | 0 <= i < |contracts| :: !(contracts[i].sub == sub && contracts[i].active)
    ensures Snapshot(contracts, sub) == 0
  {
    if contracts == [] {
    } else {
      NothingToFreeze(contracts[..|contracts| - 1], sub);
    }
  }

  /**
   Forgiving a breach at once gives back the old status exactly when that was Active: a sub
   that still owed the entry tribute, or was deleted, comes back active.  Tokens stay revoked
   and contracts stay breached.
   */
  lemma ForgiveUndoesBreachIff(s: Tables, goddess: Option<int>, sub: int, entry: int, fee: int)
    requires Breach(s, goddess, sub, entry).1.Ok? && 0 <= fee
    ensures
      var breached := Breach(s, goddess, sub, entry).0;
      var (after, r) := Forgive(breached, goddess, entry, fee);
      && r.Ok?
      && (after.users == s.users <==> s.users[sub].status == Active)
      && after.users[sub].status == Active
      && after.tokens == RevokeAll(s.tokens, sub)
      && after.contracts == Breached(s.contracts, sub)
  {
    var breached := Breach(s, goddess, sub, entry).0;
    var after := Forgive(breached, goddess, entry, fee).0;
    assert after.users[sub] == s.users[sub].(status := Active);
    assert forall u | u in s.users && u != sub :: after.users[u] == s.users[u];
  }
}
