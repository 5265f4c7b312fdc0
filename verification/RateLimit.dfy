/**
 The two fixed-window rate limiters behind one interface: a dictionary of windows in memory,
 and a counter with a time to live in Redis.  Times are monotonic clock readings in seconds.
 */
module RateLimit {
  import opened Wrappers

  datatype Decision = Decision(allowed: bool, remaining: int, retryAfter: Option<int>)

  // ---------------------------------------------------------------- in memory

  datatype Window = Window(count: int, start: real)

  /** One check of one key: the window it leaves behind and the decision. */
  function MemoryStep(w: Option<Window>, now: real, limit: int, seconds: int): (Option<Window>, Decision) {
    var held := if w.Some? then w.value else Window(0, now);
    var live := if now - held.start >= seconds as real then Window(0, now) else held;
    if live.count >= limit then
      (w, Decision(false, 0, Some((seconds as real - (now - live.start)).Floor + 1)))
    else
      (Some(Window(live.count + 1, live.start)), Decision(true, limit - (live.count + 1), None))
  }

  class MemoryRateLimiter {
    var windows: map<string, Window>

    constructor ()
      ensures windows == map[]
    {
      windows := map[];
    }

    function At(key: string): Option<Window>
      reads this
    {
      if key in windows then Some(windows[key]) else None
    }

    method Check(now: real, key: string, limit: int, seconds: int) returns (r: Decision)
      modifies this
      ensures (At(key), r) == MemoryStep(old(At(key)), now, limit, seconds)
      ensures forall other | other != key :: At(other) == old(At(other))
    {
      var count, start := 0, now;
      if key in windows {
        count, start := windows[key].count, windows[key].start;
      }
      if now - start >= seconds as real {
        count, start := 0, now;
      }
      if count >= limit {
        // int() of a positive number rounds down
        var retryAfter := (seconds as real - (now - start)).Floor + 1;
        return Decision(false, 0, Some(retryAfter));
      }
      count := count + 1;
      windows := windows[key := Window(count, start)];
      return Decision(true, limit - count, None);
    }
  }

  // ---------------------------------------------------------------- in Redis

  // A stored counter; a key without an expiry never dies.
  datatype Counter = Counter(count: int, expiry: Option<real>)

  predicate Alive(c: Counter, now: real) {
    c.expiry.None? || now < c.expiry.value
  }

  /** Redis reports a time to live in seconds rounded to the nearest, and -1 when there is none. */
  function Ttl(c: Counter, now: real): int {
    if c.expiry.None? then -1 else (c.expiry.value - now + 0.5).Floor
  }

  /** INCR, TTL and perhaps EXPIRE, taken as one step. */
  function RedisStep(c: Option<Counter>, now: real, limit: int, seconds: int): (Option<Counter>, Decision) {
    var counted := if c.Some? && Alive(c.value, now) then c.value.(count := c.value.count + 1) else Counter(1, None);
    var reset := counted.count == 1 || Ttl(counted, now) == -1;
    var kept := if reset then counted.(expiry := Some(now + seconds as real)) else counted;
    var ttl := if reset then seconds else Ttl(counted, now);
    (Some(kept),
     if counted.count > limit then Decision(false, 0, Some(if ttl < 1 then 1 else ttl))
     else Decision(true, if limit - counted.count < 0 then 0 else limit - counted.count, None))
  }

  class RedisRateLimiter {
    var store: map<string, Counter>

    constructor ()
      ensures store == map[]
    {
      store := map[];
    }

    function At(key: string): Option<Counter>
      reads this
    {
      if key in store then Some(store[key]) else None
    }

    method Check(now: real, key: string, limit: int, seconds: int) returns (r: Decision)
      modifies this
      ensures (At(key), r) == RedisStep(old(At(key)), now, limit, seconds)
      ensures forall other | other != key :: At(other) == old(At(other))
    {
      if key in store && Alive(store[key], now) {
        store := store[key := store[key].(count := store[key].count + 1)];
      } else {
        store := store[key := Counter(1, None)];
      }
      var count, ttl := store[key].count, Ttl(store[key], now);
      if count == 1 || ttl == -1 {
        store := store[key := store[key].(expiry := Some(now + seconds as real))];
        ttl := seconds;
      }
      var remaining := if limit - count < 0 then 0 else limit - count;
      if count > limit {
        return Decision(false, 0, Some(if ttl < 1 then 1 else ttl));
      }
      return Decision(true, remaining, None);
    }
  }

  // ---------------------------------------------------------------- whole traces of one key

  predicate Clock(times: seq<real>) {
    forall i, j | 0 <= i < j < |times| :: times[i] <= times[j]
  }

  function MemoryState(times: seq<real>, limit: int, seconds: int): Option<Window> {
    if times == [] then None
    else MemoryStep(MemoryState(times[..|times| - 1], limit, seconds), times[|times| - 1], limit, seconds).0
  }

  function RedisState(times: seq<real>, limit: int, seconds: int): Option<Counter> {
    if times == [] then None
    else RedisStep(RedisState(times[..|times| - 1], limit, seconds), times[|times| - 1], limit, seconds).0
  }

  /** What the last call of the trace is told. */
  function MemoryLast(times: seq<real>, limit: int, seconds: int): Decision
    requires times != []
  {
    MemoryStep(MemoryState(times[..|times| - 1], limit, seconds), times[|times| - 1], limit, seconds).1
  }

  function RedisLast(times: seq<real>, limit: int, seconds: int): Decision
    requires times != []
  {
    RedisStep(RedisState(times[..|times| - 1], limit, seconds), times[|times| - 1], limit, seconds).1
  }

  /** How many calls made in [from, from + seconds) were allowed. */
  function AllowedIn(times: seq<real>, limit: int, seconds: int, from: real): nat {
    if times == [] then 0
    else
      var last := times[|times| - 1];
      AllowedIn(times[..|times| - 1], limit, seconds, from)
      + if from <= last < from + seconds as real && MemoryLast(times, limit, seconds).allowed then 1 else 0
  }

  // The count in the interval against the current window: a window opened before the interval
  // spent its first call outside it, and only one such window reaches into the interval.
  ghost predicate BurstInv(times: seq<real>, limit: int, seconds: int, from: real) {
    var n := AllowedIn(times, limit, seconds, from);
    match MemoryState(times, limit, seconds)
    case None => n == 0
    case Some(w) =>
      && 1 <= w.count <= limit
      && times != [] && w.start <= times[|times| - 1]
      && (times[|times| - 1] < from ==> n == 0)
      && (w.start < from ==> n <= w.count - 1)
      && (from <= w.start < from + seconds as real ==> n <= limit - 1 + w.count)
      && n <= 2 * limit - 1
  }

  lemma {:induction false} BurstInvHolds(times: seq<real>, limit: int, seconds: int, from: real)
    requires Clock(times) && 1 <= limit
    ensures BurstInv(times, limit, seconds, from)
  {
    if times == [] {
    } else {
      BurstInvHolds(times[..|times| - 1], limit, seconds, from);
    }
  }

  /** No half-open interval as long as the window holds more than twice the limit less one. */
  lemma BurstBound(times: seq<real>, limit: int, seconds: int, from: real)
    requires Clock(times) && 1 <= limit
    ensures AllowedIn(times, limit, seconds, from) <= 2 * limit - 1
  {
    BurstInvHolds(times, limit, seconds, from);
  }

  function Repeat(t: real, n: nat): seq<real> {
    seq(n, i => t)
  }

  /** One more call at `t`, when the window held before it is open and not full. */
  lemma CountsCall(before: seq<real>, t: real, limit: int, seconds: int, from: real)
    requires 0 < seconds && from <= t < from + seconds as real
    requires MemoryState(before, limit, seconds).Some?
    requires var w := MemoryState(before, limit, seconds).value; w.start <= t < w.start + seconds as real && w.count < limit
    ensures MemoryState(before + [t], limit, seconds)
      == Some(MemoryState(before, limit, seconds).value.(count := MemoryState(before, limit, seconds).value.count + 1))
    ensures AllowedIn(before + [t], limit, seconds, from) == AllowedIn(before, limit, seconds, from) + 1
  {
    assert (before + [t])[..|before|] == before;
  }

  lemma {:induction false} FillsWindow(before: seq<real>, t: real, n: nat, limit: int, seconds: int, from: real)
    requires 0 < seconds && from <= t < from + seconds as real
    requires before != [] && MemoryState(before, limit, seconds).Some?
    requires var w := MemoryState(before, limit, seconds).value;
      w.start <= t < w.start + seconds as real && w.count + n <= limit
    ensures MemoryState(before + Repeat(t, n), limit, seconds)
      == Some(MemoryState(before, limit, seconds).value.(count := MemoryState(before, limit, seconds).value.count + n))
    ensures AllowedIn(before + Repeat(t, n), limit, seconds, from) == AllowedIn(before, limit, seconds, from) + n
  {
    hide MemoryState, AllowedIn;
    var all := before + Repeat(t, n);
    if n == 0 {
      assert all == before;
    } else {
      FillsWindow(before, t, n - 1, limit, seconds, from);
      assert all == before + Repeat(t, n - 1) + [t];
      CountsCall(before + Repeat(t, n - 1), t, limit, seconds, from);
    }
  }

  /** One more call at `t`, when the window held before it is over by then. */
  lemma OpensWindow(before: seq<real>, t: real, limit: int, seconds: int, from: real)
    requires 1 <= limit && 0 < seconds && from <= t < from + seconds as real
    requires var w := MemoryState(before, limit, seconds); w.Some? ==> w.value.start + seconds as real <= t
    ensures MemoryState(before + [t], limit, seconds) == Some(Window(1, t))
    ensures AllowedIn(before + [t], limit, seconds, from) == AllowedIn(before, limit, seconds, from) + 1
  {
    assert (before + [t])[..|before|] == before;
  }

  lemma FirstCall(t: real, limit: int, seconds: int, from: real)
    requires 1 <= limit && 0 < seconds && t < from
    ensures MemoryState([t], limit, seconds) == Some(Window(1, t)) && AllowedIn([t], limit, seconds, from) == 0
  {
    assert [t][..0] == [];
  }

  /**
   The bound is reached for every limit and window: one call, the rest of its window half a
   window later, and a whole new window when the first one ends.
   */
  lemma BurstBoundIsTight(limit: int, seconds: int)
    requires 1 <= limit && 0 < seconds
    ensures exists times, from :: Clock(times) && AllowedIn(times, limit, seconds, from) == 2 * limit - 1
  {
    hide MemoryState, AllowedIn, MemoryLast;
    var w := seconds as real;
    var half := [0.0] + Repeat(w / 2.0, limit - 1);
    var all := half + [w] + Repeat(w, limit - 1);
    FirstCall(0.0, limit, seconds, w / 2.0);
    FillsWindow([0.0], w / 2.0, limit - 1, limit, seconds, w / 2.0);
    OpensWindow(half, w, limit, seconds, w / 2.0);
    FillsWindow(half + [w], w, limit - 1, limit, seconds, w / 2.0);
    assert Clock(all);
    assert AllowedIn(all, limit, seconds, w / 2.0) == 2 * limit - 1;
  }

  /**
   After a pause as long as the window the first `limit` calls within a window are allowed, each
   told how many are left, and the others denied.
   */
  lemma {:induction false} BurstServed(before: seq<real>, burst: seq<real>, limit: int, seconds: int)
    requires Clock(before + burst) && burst != [] && 1 <= limit && 0 < seconds
    requires before != [] ==> before[|before| - 1] + seconds as real <= burst[0]
    requires burst[|burst| - 1] < burst[0] + seconds as real
    ensures MemoryState(before + burst, limit, seconds) == Some(Window(if |burst| <= limit then |burst| else limit, burst[0]))
    ensures MemoryLast(before + burst, limit, seconds).allowed <==> |burst| <= limit
    ensures MemoryLast(before + burst, limit, seconds).remaining == if |burst| <= limit then limit - |burst| else 0
  {
    hide MemoryState, MemoryStep, Clock, BurstInv, AllowedIn;
    var n := |burst| - 1;
    assert before + burst == (before + burst[..n]) + [burst[n]];
    ClockOf(before, burst, n);
    if n == 0 {
      assert before + burst[..n] == before;
      BurstInvHolds(before, limit, seconds, 0.0);
      OldWindow(before, limit, seconds);
      NextOf(before, burst[n], limit, seconds);
    } else {
      BurstServed(before, burst[..n], limit, seconds);
      NextOf(before + burst[..n], burst[n], limit, seconds);
    }
    StepServes(MemoryState(before + burst[..n], limit, seconds), burst[n], limit, seconds);
  }

  lemma ClockOf(before: seq<real>, burst: seq<real>, n: nat)
    requires Clock(before + burst) && n < |burst|
    ensures Clock(before) && Clock(before + burst[..n]) && burst[0] <= burst[n]
    ensures 0 < n ==> burst[n - 1] <= burst[n]
  {
    assert (before + burst)[..|before| + n] == before + burst[..n] && (before + burst)[..|before|] == before;
    assert forall i | 0 <= i < |burst| :: (before + burst)[|before| + i] == burst[i];
  }

  lemma OldWindow(times: seq<real>, limit: int, seconds: int)
    requires BurstInv(times, limit, seconds, 0.0)
    ensures var w := MemoryState(times, limit, seconds); w.Some? ==> times != [] && w.value.start <= times[|times| - 1]
  {
  }

  lemma NextOf(times: seq<real>, t: real, limit: int, seconds: int)
    ensures MemoryState(times + [t], limit, seconds) == MemoryStep(MemoryState(times, limit, seconds), t, limit, seconds).0
    ensures MemoryLast(times + [t], limit, seconds) == MemoryStep(MemoryState(times, limit, seconds), t, limit, seconds).1
  {
    assert (times + [t])[..|times|] == times;
  }

  lemma StepServes(w: Option<Window>, now: real, limit: int, seconds: int)
    requires 1 <= limit && 0 < seconds
    ensures
      var (after, r) := MemoryStep(w, now, limit, seconds);
      if w.None? || w.value.start + seconds as real <= now then
        after == Some(Window(1, now)) && r.allowed && r.remaining == limit - 1
      else if w.value.count < limit then
        after == Some(Window(w.value.count + 1, w.value.start)) && r.allowed && r.remaining == limit - (w.value.count + 1)
      else
        after == w && !r.allowed && r.remaining == 0
  {
  }

  /**
   Waiting as long as a denial says is enough, and not a second too long: the next call made
   then is allowed, and the advice exceeds what is left of the window by at most a second.
   */
  lemma RetryAfterSuffices(w: Option<Window>, now: real, limit: int, seconds: int)
    requires 1 <= limit
    requires !MemoryStep(w, now, limit, seconds).1.allowed
    ensures var step := MemoryStep(w, now, limit, seconds);
      && step.1.retryAfter.Some?
      && MemoryStep(step.0, now + step.1.retryAfter.value as real, limit, seconds).1.allowed
      && w.Some?
      && var left := w.value.start + seconds as real - now;
         0.0 < left < step.1.retryAfter.value as real <= left + 1.0
  {
  }

  // ---------------------------------------------------------------- the two agree

  // Memory stops counting at the limit and Redis goes on, but both windows run together.
  ghost predicate Simulates(w: Option<Window>, c: Option<Counter>, now: real, limit: int, seconds: int) {
    if limit <= 0 then
      w.None? && (c.Some? ==> c.value.count >= 1)
    else if c.Some? && Alive(c.value, now) then
      && c.value.count >= 1
      && w.Some? && w.value.count == (if c.value.count < limit then c.value.count else limit)
      && c.value.expiry == Some(w.value.start + seconds as real)
    else
      w.Some? ==> w.value.start + seconds as real <= now
  }

  lemma SimulationStep(w: Option<Window>, c: Option<Counter>, now: real, limit: int, seconds: int)
    requires Simulates(w, c, now, limit, seconds)
    ensures
      var memory, redis := MemoryStep(w, now, limit, seconds), RedisStep(c, now, limit, seconds);
      && memory.1.allowed == redis.1.allowed && memory.1.remaining == redis.1.remaining
      && Simulates(memory.0, redis.0, now, limit, seconds)
  {
  }

  lemma {:induction false} SimulationHolds(times: seq<real>, limit: int, seconds: int, now: real)
    requires Clock(times) && (times != [] ==> times[|times| - 1] <= now)
    ensures Simulates(MemoryState(times, limit, seconds), RedisState(times, limit, seconds), now, limit, seconds)
  {
    if times == [] {
    } else {
      var last := times[|times| - 1];
      SimulationHolds(times[..|times| - 1], limit, seconds, last);
      SimulationStep(MemoryState(times[..|times| - 1], limit, seconds),
        RedisState(times[..|times| - 1], limit, seconds), last, limit, seconds);
    }
  }

  /** On every trace both limiters answer every call alike, whatever the limit and the window. */
  lemma LimitersAgree(times: seq<real>, limit: int, seconds: int)
    requires Clock(times) && times != []
    ensures MemoryLast(times, limit, seconds).allowed == RedisLast(times, limit, seconds).allowed
    ensures MemoryLast(times, limit, seconds).remaining == RedisLast(times, limit, seconds).remaining
  {
    var before, last := times[..|times| - 1], times[|times| - 1];
    SimulationHolds(before, limit, seconds, last);
    SimulationStep(MemoryState(before, limit, seconds), RedisState(before, limit, seconds), last, limit, seconds);
  }

  /**
   Their advice differs.  Redis rounds the time left to the nearest second, so a client that
   waits as told is turned away again exactly when more than a second is left and it ends in
   a fraction below one half.
   */
  lemma RedisRetryAfterSufficesIff(c: Counter, now: real, limit: int, seconds: int)
    requires 1 <= limit && 1 <= c.count && c.expiry.Some? && now < c.expiry.value
    requires !RedisStep(Some(c), now, limit, seconds).1.allowed
    ensures var step := RedisStep(Some(c), now, limit, seconds);
      var left := c.expiry.value - now;
      var fraction := left - left.Floor as real;
      && step.1.retryAfter.Some?
      && (RedisStep(step.0, now + step.1.retryAfter.value as real, limit, seconds).1.allowed
          <==> left <= 1.0 || fraction == 0.0 || 0.5 <= fraction)
  {
    var left := c.expiry.value - now;
    assert (left + 0.5).Floor == left.Floor + (if 0.5 <= left - left.Floor as real then 1 else 0);
  }

  /** With 1.2 seconds left Redis advises one second, and the client that waits it is turned away again. */
  lemma RedisAdviceTooShort()
    ensures RedisLast([0.0, 58.8], 1, 60) == Decision(false, 0, Some(1))
    ensures !RedisLast([0.0, 58.8, 59.8], 1, 60).allowed
  {
    var none: seq<real> := [];
    assert [0.0][..0] == none && [0.0, 58.8][..1] == [0.0] && [0.0, 58.8, 59.8][..2] == [0.0, 58.8];
    assert RedisState([0.0], 1, 60) == Some(Counter(1, Some(60.0)));
    assert RedisState([0.0, 58.8], 1, 60) == Some(Counter(2, Some(60.0)));
    assert (60.0 - 58.8 + 0.5).Floor == 1;
  }
}
