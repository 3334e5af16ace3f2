/** The two rate-limit stores: fixed windows and daily quotas kept in process memory, and the
    same kept in Redis through one atomic script.

    Time is an integer number of milliseconds. Redis is a map from keys to counters with an
    expiry time; it and the server read one clock.
 */
module ReliabilityStore {
  import opened Common

  const DAY_MS: int := 86_400_000

  datatype Resource = Judge0 | Imports | Llm

  /** `/` rounds towards minus infinity here, as `Math.floor` does. */
  function UtcDay(now: int): int { now / DAY_MS }

  function MsUntilNextUtcDay(now: int): (ms: int)
    ensures ms >= 1 && UtcDay(now + ms) == UtcDay(now) + 1 && UtcDay(now + ms - 1) == UtcDay(now)
  {
    Max(1, (UtcDay(now) + 1) * DAY_MS - now)
  }

  /** The least whole number of seconds, at least one, that covers `ms`. */
  function RetryAfterSeconds(ms: int): (s: int)
    ensures s >= 1 && s * 1000 >= ms && (s > 1 ==> (s - 1) * 1000 < ms)
  {
    Max(1, (ms + 999) / 1000)
  }

  // ---------------------------------------------------------------------------------------
  // Fixed windows in memory
  // ---------------------------------------------------------------------------------------

  datatype Check = Check(allowed: bool, retryAfterSeconds: int)

  datatype Entry = Entry(count: int, resetAt: int)

  type Windows = map<string, Entry>

  /** A `consumeFixedWindow` call; `key` is the bucket and the client joined by a colon. */
  datatype Call = Call(key: string, limit: int, windowMs: int, now: int)

  function Consume(windows: Windows, call: Call): (Windows, Check) {
    if call.key !in windows || windows[call.key].resetAt <= call.now then
      (windows[call.key := Entry(1, call.now + call.windowMs)], Check(true, 0))
    else
      var existing := windows[call.key];
      if existing.count >= call.limit then
        (windows, Check(false, RetryAfterSeconds(existing.resetAt - call.now)))
      else
        (windows[call.key := existing.(count := existing.count + 1)], Check(true, 0))
  }

  /** A denial changes nothing and names the wait: a call made that many seconds later, or
      later still, is allowed, and one made a second or more too early is denied again. */
  lemma DenialNamesTheWait(windows: Windows, call: Call, later: Call)
    requires !Consume(windows, call).1.allowed && later.key == call.key
    ensures var (after, check) := Consume(windows, call);
            && after == windows
            && (later.now >= call.now + 1000 * check.retryAfterSeconds ==> Consume(after, later).1.allowed)
            && (call.now <= later.now <= call.now + 1000 * (check.retryAfterSeconds - 1) && later.limit <= call.limit
                ==> !Consume(after, later).1.allowed)
  {
    var wait := windows[call.key].resetAt - call.now;
    assert RetryAfterSeconds(wait) * 1000 >= wait;
  }

  /** The calls in order, ending with the last: the final windows and every answer. */
  function Replay(calls: seq<Call>): (r: (Windows, seq<Check>))
    ensures |r.1| == |calls|
    decreases |calls|
  {
    if calls == [] then (map[], [])
    else
      var before := Replay(calls[..|calls| - 1]);
      var (windows, check) := Consume(before.0, calls[|calls| - 1]);
      (windows, before.1 + [check])
  }

  ghost predicate Chronological(calls: seq<Call>) {
    forall i, j :: 0 <= i < j < |calls| ==> calls[i].now <= calls[j].now
  }

  /** One limit and one window length are in use for `key`, as each bucket has its own. */
  ghost predicate Uniform(calls: seq<Call>, key: string, limit: int, windowMs: int) {
    forall c :: c in calls && c.key == key ==> c.limit == limit && c.windowMs == windowMs
  }

  /** How many of the calls for `key` made in [from, until) were answered `allowed`. */
  function Allowed(calls: seq<Call>, answers: seq<Check>, key: string, from: int, until: int): nat
    requires |answers| == |calls|
    decreases |calls|
  {
    if calls == [] then 0
    else
      var n := |calls| - 1;
      Allowed(calls[..n], answers[..n], key, from, until)
      + if calls[n].key == key && from <= calls[n].now < until && answers[n].allowed then 1 else 0
  }

  lemma {:induction false} AllowedNeedsACall(calls: seq<Call>, answers: seq<Check>, key: string, from: int, until: int)
    requires |answers| == |calls| && Chronological(calls)
    requires calls != [] ==> calls[|calls| - 1].now < from
    ensures Allowed(calls, answers, key, from, until) == 0
    decreases |calls|
  {
    if calls != [] {
      var n := |calls| - 1;
      assert n > 0 ==> calls[..n][n - 1].now <= calls[n].now;
      AllowedNeedsACall(calls[..n], answers[..n], key, from, until);
    }
  }

  /** The bookkeeping of the window bound for one interval starting at `x`: what the current
      window of the key says about the number `granted` of calls allowed in [x, x + windowMs).
      A window opened before `x` spent at least its first call outside the interval. */
  ghost predicate WindowAccount(windows: Windows, key: string, limit: int, windowMs: int, x: int, last: int,
                                granted: int) {
    var most := Max(1, limit);
    if key !in windows then granted == 0
    else
      var e := windows[key];
      var openedAt := e.resetAt - windowMs;
      && 1 <= e.count <= most && openedAt <= last
      && (openedAt < x ==> granted <= e.count - 1)
      && (x <= openedAt < x + windowMs ==> granted <= most - 1 + e.count)
      && granted <= 2 * most - 1
  }

  lemma WindowAccountStep(windows: Windows, call: Call, key: string, limit: int, windowMs: int, x: int, last: int,
                          granted: int)
    requires WindowAccount(windows, key, limit, windowMs, x, last, granted)
    requires last <= call.now && (granted > 0 ==> x <= last)
    requires call.key == key ==> call.limit == limit && call.windowMs == windowMs
    ensures var (after, check) := Consume(windows, call);
            var counted := if call.key == key && x <= call.now < x + windowMs && check.allowed then 1 else 0;
            WindowAccount(after, key, limit, windowMs, x, call.now, granted + counted)
  {
  }

  lemma {:induction false} WindowAccountKept(calls: seq<Call>, key: string, limit: int, windowMs: int, x: int)
    requires Chronological(calls) && Uniform(calls, key, limit, windowMs) && calls != []
    ensures WindowAccount(Replay(calls).0, key, limit, windowMs, x, calls[|calls| - 1].now,
                          Allowed(calls, Replay(calls).1, key, x, x + windowMs))
    decreases |calls|
  {
    var n := |calls| - 1;
    var past, call := calls[..n], calls[n];
    var last := if n == 0 then call.now else past[n - 1].now;
    assert call in calls;
    assert Replay(calls).1[..n] == Replay(past).1;
    if n > 0 {
      WindowAccountKept(past, key, limit, windowMs, x);
      if last < x {
        AllowedNeedsACall(past, Replay(past).1, key, x, x + windowMs);
      }
    }
    WindowAccountStep(Replay(past).0, call, key, limit, windowMs, x, last,
                      Allowed(past, Replay(past).1, key, x, x + windowMs));
  }

  /** However the requests are spread, and whatever other keys do meanwhile, any interval of
      one window length contains at most 2L - 1 allowed calls for a key with limit L. (A limit
      below 1 behaves as 1: the call that opens a window is never checked.) */
  lemma MemoryWindowBound(calls: seq<Call>, key: string, limit: int, windowMs: int, x: int)
    requires Chronological(calls) && Uniform(calls, key, limit, windowMs)
    ensures Allowed(calls, Replay(calls).1, key, x, x + windowMs) <= 2 * Max(1, limit) - 1
  {
    if calls != [] {
      WindowAccountKept(calls, key, limit, windowMs, x);
    }
  }

  // The bound is reached: one call opens a window, the rest of its budget is spent at its very
  // end and the budget of the next window right after.

  function Repeat(call: Call, n: nat): seq<Call> { seq(n, i => call) }

  lemma AllowedAppend(past: seq<Call>, answers: seq<Check>, call: Call, check: Check, key: string, from: int,
                      until: int)
    requires |answers| == |past|
    ensures Allowed(past + [call], answers + [check], key, from, until)
            == Allowed(past, answers, key, from, until)
               + (if call.key == key && from <= call.now < until && check.allowed then 1 else 0)
  {
    assert (past + [call])[..|past|] == past && (answers + [check])[..|past|] == answers;
  }

  lemma ReplayAppend(past: seq<Call>, call: Call)
    ensures var (windows, check) := Consume(Replay(past).0, call);
            Replay(past + [call]) == (windows, Replay(past).1 + [check])
  {
    assert (past + [call])[..|past|] == past;
  }

  lemma SpendOne(past: seq<Call>, call: Call, x: int, until: int)
    requires call.key in Replay(past).0
    requires var e := Replay(past).0[call.key]; call.now < e.resetAt && e.count < call.limit
    ensures var e := Replay(past).0[call.key];
            Replay(past + [call]).0 == Replay(past).0[call.key := Entry(e.count + 1, e.resetAt)]
    ensures Allowed(past + [call], Replay(past + [call]).1, call.key, x, until)
            == Allowed(past, Replay(past).1, call.key, x, until) + (if x <= call.now < until then 1 else 0)
  {
    ReplayAppend(past, call);
    AllowedAppend(past, Replay(past).1, call, Check(true, 0), call.key, x, until);
  }

  /** `n` more calls in the open window, within its budget, are all allowed. */
  lemma {:induction false} SpendRest(past: seq<Call>, call: Call, n: nat, x: int, until: int)
    requires call.key in Replay(past).0
    requires var e := Replay(past).0[call.key]; call.now < e.resetAt && e.count + n <= call.limit
    ensures var e := Replay(past).0[call.key];
            Replay(past + Repeat(call, n)).0 == Replay(past).0[call.key := Entry(e.count + n, e.resetAt)]
    ensures var calls := past + Repeat(call, n);
            Allowed(calls, Replay(calls).1, call.key, x, until)
            == Allowed(past, Replay(past).1, call.key, x, until) + (if x <= call.now < until then n else 0)
    decreases n
  {
    if n == 0 {
      assert past + Repeat(call, 0) == past;
    } else {
      SpendOne(past, call, x, until);
      SpendRest(past + [call], call, n - 1, x, until);
      assert (past + [call]) + Repeat(call, n - 1) == past + Repeat(call, n);
    }
  }

  /** One call that finds no live window and `n` more right after: all allowed. */
  lemma OpenAndSpend(past: seq<Call>, call: Call, n: nat, x: int, until: int)
    requires call.key in Replay(past).0 ==> Replay(past).0[call.key].resetAt <= call.now
    requires 1 + n <= call.limit && call.windowMs > 0
    ensures var calls := (past + [call]) + Repeat(call, n);
            && call.key in Replay(calls).0
            && Replay(calls).0[call.key] == Entry(1 + n, call.now + call.windowMs)
            && Allowed(calls, Replay(calls).1, call.key, x, until)
               == Allowed(past, Replay(past).1, call.key, x, until)
                  + (if x <= call.now < until then 1 + n else 0)
  {
    ReplayAppend(past, call);
    AllowedAppend(past, Replay(past).1, call, Check(true, 0), call.key, x, until);
    SpendRest(past + [call], call, n, x, until);
  }

  function BurstAcrossWindows(key: string, limit: int, windowMs: int): seq<Call>
    requires limit >= 1
  {
    ([Call(key, limit, windowMs, 0)] + Repeat(Call(key, limit, windowMs, windowMs - 1), limit - 1))
    + [Call(key, limit, windowMs, windowMs)] + Repeat(Call(key, limit, windowMs, windowMs), limit - 1)
  }

  lemma BurstIsARun(key: string, limit: int, windowMs: int)
    requires limit >= 1 && windowMs >= 2
    ensures Chronological(BurstAcrossWindows(key, limit, windowMs))
    ensures Uniform(BurstAcrossWindows(key, limit, windowMs), key, limit, windowMs)
  {
  }

  lemma BurstIsAllowed(key: string, limit: int, windowMs: int, x: int, until: int)
    requires limit >= 1 && windowMs >= 2 && 0 < x < windowMs < until
    ensures var calls := BurstAcrossWindows(key, limit, windowMs);
            Allowed(calls, Replay(calls).1, key, x, until) == 2 * limit - 1
  {
    var first, late, next :=
      Call(key, limit, windowMs, 0), Call(key, limit, windowMs, windowMs - 1), Call(key, limit, windowMs, windowMs);
    var a := [first];
    ReplayAppend([], first);
    AllowedAppend([], [], first, Check(true, 0), key, x, until);
    assert [] + [first] == a;
    SpendRest(a, late, limit - 1, x, until);
    OpenAndSpend(a + Repeat(late, limit - 1), next, limit - 1, x, until);
  }

  lemma MemoryWindowBoundTight(key: string, limit: int, windowMs: int)
    requires limit >= 1 && windowMs >= 2
    ensures var calls := BurstAcrossWindows(key, limit, windowMs);
            && Chronological(calls) && Uniform(calls, key, limit, windowMs)
            && Allowed(calls, Replay(calls).1, key, 1, 1 + windowMs) == 2 * limit - 1
  {
    BurstIsARun(key, limit, windowMs);
    BurstIsAllowed(key, limit, windowMs, 1, 1 + windowMs);
  }

  // ---------------------------------------------------------------------------------------
  // The Redis script and the clock-aligned windows built on it
  // ---------------------------------------------------------------------------------------

  datatype Key = Fixed(scope: string, windowStart: int) | Daily(resource: Resource, day: int)

  datatype Value = Value(count: int, expireAt: int)

  type Db = map<Key, Value>

  predicate Live(db: Db, key: Key, now: int) {
    key in db && now < db[key].expireAt
  }

  function Count(db: Db, key: Key, now: int): int {
    if Live(db, key, now) then db[key].count else 0
  }

  datatype Reply = Reply(allowed: bool, used: int, ttlMs: int)

  /** INCR, PEXPIRE on the first increment, PTTL, compare. */
  function Reserve(db: Db, key: Key, limit: int, ttlMs: int, now: int): (Db, Reply) {
    var current := Count(db, key, now) + 1;
    var expireAt := if current == 1 then now + Max(1, ttlMs) else if key in db then db[key].expireAt else now;
    var ttl := expireAt - now;
    (db[key := Value(current, expireAt)],
     if current > limit then Reply(false, current - 1, ttl) else Reply(true, current, ttl))
  }

  function WindowStart(now: int, windowMs: int): int
    requires windowMs > 0
  {
    now / windowMs * windowMs
  }

  function ConsumeRedis(db: Db, call: Call): (Db, Check)
    requires call.windowMs > 0
  {
    var start := WindowStart(call.now, call.windowMs);
    var (after, reply) := Reserve(db, Fixed(call.key, start), call.limit, start + call.windowMs - call.now, call.now);
    (after, Check(reply.allowed, if reply.allowed then 0 else RetryAfterSeconds(Max(1, reply.ttlMs))))
  }

  /** A call that finds no live window in either store: the memory store does not look at the
      limit, the Redis store does, so they answer alike exactly for limits of at least 1. */
  lemma OpeningCallsAlike(windows: Windows, db: Db, call: Call)
    requires call.windowMs > 0
    requires call.key !in windows || windows[call.key].resetAt <= call.now
    requires !Live(db, Fixed(call.key, WindowStart(call.now, call.windowMs)), call.now)
    ensures Consume(windows, call).1.allowed == ConsumeRedis(db, call).1.allowed <==> call.limit >= 1
  {
  }

  ghost predicate PositiveWindows(calls: seq<Call>) {
    forall c :: c in calls ==> c.windowMs > 0
  }

  function ReplayRedis(calls: seq<Call>): (r: (Db, seq<Check>))
    requires PositiveWindows(calls)
    ensures |r.1| == |calls|
    decreases |calls|
  {
    if calls == [] then (map[], [])
    else
      var before := ReplayRedis(calls[..|calls| - 1]);
      var (db, check) := ConsumeRedis(before.0, calls[|calls| - 1]);
      (db, before.1 + [check])
  }

  lemma WindowContains(now: int, windowMs: int)
    requires windowMs > 0
    ensures WindowStart(now, windowMs) <= now < WindowStart(now, windowMs) + windowMs
  {
    assert now == windowMs * (now / windowMs) + now % windowMs;
  }

  lemma ProductGrows(a: int, b: int, m: int)
    requires a < b && m > 0
    ensures a * m + m <= b * m
  {
    assert (a + 1) * m <= b * m;
  }

  /** Aligned windows do not overlap. */
  lemma SameWindow(now: int, index: int, windowMs: int)
    requires windowMs > 0 && index * windowMs <= now < index * windowMs + windowMs
    ensures WindowStart(now, windowMs) == index * windowMs
  {
    var q := now / windowMs;
    WindowContains(now, windowMs);
    assert q * windowMs <= now < q * windowMs + windowMs;
    if q < index {
      ProductGrows(q, index, windowMs);
    } else if q > index {
      ProductGrows(index, q, windowMs);
    }
  }

  /** One aligned window of one key: its counter lives until the window ends, and counts every
      call of the window, so that the allowed ones are the first `limit`. */
  ghost predicate AlignedAccount(db: Db, key: string, limit: int, windowMs: int, start: int, last: int, granted: int) {
    var k := Fixed(key, start);
    if last < start then k !in db && granted == 0
    else if last < start + windowMs then
      if k in db then
        && db[k].expireAt == start + windowMs && db[k].count >= 1
        && granted == Min(db[k].count, Max(0, limit))
      else granted == 0
    else granted <= Max(0, limit)
  }

  lemma {:induction false} AlignedAccountKept(
      calls: seq<Call>, key: string, limit: int, windowMs: int, index: int, last: int)
    requires windowMs > 0
    requires Chronological(calls) && Uniform(calls, key, limit, windowMs) && PositiveWindows(calls)
    requires calls != [] ==> calls[|calls| - 1].now <= last
    ensures var start := index * windowMs;
            AlignedAccount(ReplayRedis(calls).0, key, limit, windowMs, start, last,
                           Allowed(calls, ReplayRedis(calls).1, key, start, start + windowMs))
    decreases |calls|
  {
    if calls != [] {
      var n := |calls| - 1;
      var past, call, start := calls[..n], calls[n], index * windowMs;
      AlignedAccountKept(past, key, limit, windowMs, index, call.now);
      assert ReplayRedis(calls).1[..n] == ReplayRedis(past).1;
      assert call in calls;
      WindowContains(call.now, call.windowMs);
      if call.key == key && start <= call.now < start + windowMs {
        SameWindow(call.now, index, windowMs);
      }
    }
  }

  /** A denial names the wait until the window ends, in whole seconds: on every run a call that
      comes so much later is allowed, and one that comes a second or more too early is denied. */
  lemma {:induction false} RedisDenialNamesTheWait(calls: seq<Call>, limit: int, windowMs: int, later: Call)
    requires calls != [] && limit >= 1 && windowMs > 0
    requires var call := calls[|calls| - 1];
             && Chronological(calls) && PositiveWindows(calls) && Uniform(calls, call.key, limit, windowMs)
             && later.key == call.key && later.limit == limit && later.windowMs == windowMs && call.now <= later.now
    requires !ReplayRedis(calls).1[|calls| - 1].allowed
    ensures var (db, checks) := ReplayRedis(calls);
            var (now, wait) := (calls[|calls| - 1].now, checks[|calls| - 1].retryAfterSeconds);
            && wait >= 1
            && (later.now >= now + 1000 * wait ==> ConsumeRedis(db, later).1.allowed)
            && (later.now <= now + 1000 * (wait - 1) ==> !ConsumeRedis(db, later).1.allowed)
  {
    var n := |calls| - 1;
    var call, before := calls[n], ReplayRedis(calls[..n]).0;
    assert call in calls;
    var start := WindowStart(call.now, windowMs);
    WindowContains(call.now, windowMs);
    AlignedAccountKept(calls[..n], call.key, limit, windowMs, call.now / windowMs, call.now);
    DeniedUntilTheEnd(before, call, start);
    var db := ReplayRedis(calls).0;
    if later.now < start + windowMs {
      SameWindow(later.now, call.now / windowMs, windowMs);
      assert db[Fixed(call.key, start)].count > limit;
    } else {
      WindowContains(later.now, windowMs);
      AlignedAccountKept(calls, call.key, limit, windowMs, later.now / windowMs, call.now);
      NextWindowStarts(later.now, call.now / windowMs, windowMs);
    }
  }

  lemma NextWindowStarts(now: int, index: int, windowMs: int)
    requires windowMs > 0 && now >= index * windowMs + windowMs
    ensures WindowStart(now, windowMs) >= index * windowMs + windowMs
  {
    var q := now / windowMs;
    WindowContains(now, windowMs);
    if q < index {
      ProductGrows(q, index, windowMs);
    } else if q > index {
      ProductGrows(index, q, windowMs);
    }
  }

  lemma DeniedUntilTheEnd(db: Db, call: Call, start: int)
    requires call.windowMs > 0 && start == WindowStart(call.now, call.windowMs) <= call.now < start + call.windowMs
    requires var k := Fixed(call.key, start); k in db ==> db[k].expireAt == start + call.windowMs && db[k].count >= 1
    requires !ConsumeRedis(db, call).1.allowed && call.limit >= 1
    ensures var (after, check) := ConsumeRedis(db, call);
            var k := Fixed(call.key, start);
            && k in after && after[k].expireAt == start + call.windowMs && after[k].count > call.limit
            && check.retryAfterSeconds == RetryAfterSeconds(start + call.windowMs - call.now)
  {
  }

  /** An answer concerns one key only, and an allowed call is not told to wait. */
  lemma OneKeyIsTouched(windows: Windows, call: Call, other: string)
    ensures var (after, check) := Consume(windows, call);
            && (check.allowed ==> check.retryAfterSeconds == 0)
            && (other != call.key ==> (other in after <==> other in windows)
                                      && (other in after ==> after[other] == windows[other]))
  {
  }

  lemma OneRedisKeyIsTouched(db: Db, call: Call, other: Key)
    requires call.windowMs > 0
    ensures var (after, check) := ConsumeRedis(db, call);
            && (check.allowed ==> check.retryAfterSeconds == 0)
            && (other != Fixed(call.key, WindowStart(call.now, call.windowMs))
                ==> (other in after <==> other in db) && (other in after ==> after[other] == db[other]))
  {
  }

  lemma AlignedAtMost(calls: seq<Call>, key: string, limit: int, windowMs: int, index: int)
    requires windowMs > 0
    requires Chronological(calls) && Uniform(calls, key, limit, windowMs) && PositiveWindows(calls)
    ensures Allowed(calls, ReplayRedis(calls).1, key, index * windowMs, index * windowMs + windowMs) <= Max(0, limit)
  {
    if calls != [] {
      AlignedAccountKept(calls, key, limit, windowMs, index, calls[|calls| - 1].now);
    }
  }

  lemma {:induction false} AllowedSplits(calls: seq<Call>, answers: seq<Check>, key: string, a: int, b: int, c: int,
                                         from: int, until: int)
    requires |answers| == |calls| && a <= from && until <= c && a <= b <= c
    ensures Allowed(calls, answers, key, from, until)
            <= Allowed(calls, answers, key, a, b) + Allowed(calls, answers, key, b, c)
    decreases |calls|
  {
    if calls != [] {
      var n := |calls| - 1;
      AllowedSplits(calls[..n], answers[..n], key, a, b, c, from, until);
    }
  }

  /** The clock-aligned form admits one call more: up to 2L in an interval of one window
      length, since it may lie across two full windows. */
  lemma RedisWindowBound(calls: seq<Call>, key: string, limit: int, windowMs: int, x: int)
    requires windowMs > 0
    requires Chronological(calls) && Uniform(calls, key, limit, windowMs) && PositiveWindows(calls)
    ensures Allowed(calls, ReplayRedis(calls).1, key, x, x + windowMs) <= 2 * Max(0, limit)
  {
    var q := x / windowMs;
    WindowContains(x, windowMs);
    AlignedAtMost(calls, key, limit, windowMs, q);
    AlignedAtMost(calls, key, limit, windowMs, q + 1);
    assert (q + 1) * windowMs == q * windowMs + windowMs;
    AllowedSplits(calls, ReplayRedis(calls).1, key,
                  q * windowMs, q * windowMs + windowMs, q * windowMs + windowMs + windowMs, x, x + windowMs);
  }

  lemma RedisAppend(past: seq<Call>, call: Call)
    requires PositiveWindows(past) && call.windowMs > 0
    ensures PositiveWindows(past + [call])
    ensures var (db, check) := ConsumeRedis(ReplayRedis(past).0, call);
            ReplayRedis(past + [call]) == (db, ReplayRedis(past).1 + [check])
  {
    assert (past + [call])[..|past|] == past;
  }

  /** The (n+1)-th call of an aligned window within its budget. */
  lemma AlignedStep(db: Db, call: Call, n: nat, index: int)
    requires call.windowMs > 0 && n < call.limit
    requires index * call.windowMs <= call.now < index * call.windowMs + call.windowMs
    requires var k := Fixed(call.key, index * call.windowMs);
             if n == 0 then k !in db else k in db && db[k] == Value(n, k.windowStart + call.windowMs)
    ensures var k := Fixed(call.key, index * call.windowMs);
            ConsumeRedis(db, call) == (db[k := Value(n + 1, k.windowStart + call.windowMs)], Check(true, 0))
  {
    SameWindow(call.now, index, call.windowMs);
  }

  ghost predicate Spent(db: Db, call: Call, n: nat, index: int)
    requires call.windowMs > 0
  {
    var k := Fixed(call.key, index * call.windowMs);
    if n == 0 then k !in db else k in db && db[k] == Value(n, k.windowStart + call.windowMs)
  }

  lemma SpendOneAligned(past: seq<Call>, call: Call, n: nat, index: int, x: int, until: int)
    requires call.windowMs > 0 && PositiveWindows(past) && n < call.limit && x <= call.now < until
    requires index * call.windowMs <= call.now < index * call.windowMs + call.windowMs
    requires Spent(ReplayRedis(past).0, call, n, index)
    ensures PositiveWindows(past + [call]) && Spent(ReplayRedis(past + [call]).0, call, n + 1, index)
    ensures forall k :: k in ReplayRedis(past + [call]).0
                        ==> k in ReplayRedis(past).0 || k == Fixed(call.key, index * call.windowMs)
    ensures Allowed(past + [call], ReplayRedis(past + [call]).1, call.key, x, until)
            == Allowed(past, ReplayRedis(past).1, call.key, x, until) + 1
  {
    RedisAppend(past, call);
    AlignedStep(ReplayRedis(past).0, call, n, index);
    AllowedAppend(past, ReplayRedis(past).1, call, Check(true, 0), call.key, x, until);
  }

  lemma {:induction false} SpendAligned(past: seq<Call>, call: Call, spent: nat, n: nat, index: int, x: int, until: int)
    requires call.windowMs > 0 && PositiveWindows(past) && spent + n <= call.limit && x <= call.now < until
    requires index * call.windowMs <= call.now < index * call.windowMs + call.windowMs
    requires Spent(ReplayRedis(past).0, call, spent, index)
    ensures PositiveWindows(past + Repeat(call, n))
    ensures forall k :: k in ReplayRedis(past + Repeat(call, n)).0
                        ==> k in ReplayRedis(past).0 || k == Fixed(call.key, index * call.windowMs)
    ensures Allowed(past + Repeat(call, n), ReplayRedis(past + Repeat(call, n)).1, call.key, x, until)
            == Allowed(past, ReplayRedis(past).1, call.key, x, until) + n
    decreases n
  {
    if n == 0 {
      assert past + Repeat(call, 0) == past;
    } else {
      SpendOneAligned(past, call, spent, index, x, until);
      SpendAligned(past + [call], call, spent + 1, n - 1, index, x, until);
      assert (past + [call]) + Repeat(call, n - 1) == past + Repeat(call, n);
    }
  }

  function AlignedBurst(key: string, limit: int, windowMs: int): seq<Call>
    requires limit >= 0
  {
    Repeat(Call(key, limit, windowMs, windowMs - 1), limit) + Repeat(Call(key, limit, windowMs, windowMs), limit)
  }

  lemma AlignedBurstIsARun(key: string, limit: int, windowMs: int)
    requires limit >= 0 && windowMs >= 2
    ensures var calls := AlignedBurst(key, limit, windowMs);
            Chronological(calls) && Uniform(calls, key, limit, windowMs) && PositiveWindows(calls)
  {
  }

  lemma FirstTwoWindows(windowMs: int)
    ensures 0 * windowMs == 0 && 1 * windowMs == windowMs
  {
  }

  lemma LateHalf(late: Call, limit: nat, x: int, until: int)
    requires late.windowMs >= 2 && late.limit == limit && late.now == late.windowMs - 1 && x <= late.now < until
    ensures var a := Repeat(late, limit);
            && PositiveWindows(a) && Allowed(a, ReplayRedis(a).1, late.key, x, until) == limit
            && forall k :: k in ReplayRedis(a).0 ==> k == Fixed(late.key, 0)
  {
    FirstTwoWindows(late.windowMs);
    SpendAligned([], late, 0, limit, 0, x, until);
    assert [] + Repeat(late, limit) == Repeat(late, limit);
  }

  lemma NextHalf(past: seq<Call>, next: Call, limit: nat, x: int, until: int)
    requires PositiveWindows(past) && next.windowMs >= 2 && next.limit == limit && next.now == next.windowMs
    requires x <= next.now < until && forall k :: k in ReplayRedis(past).0 ==> k == Fixed(next.key, 0)
    ensures PositiveWindows(past + Repeat(next, limit))
    ensures Allowed(past + Repeat(next, limit), ReplayRedis(past + Repeat(next, limit)).1, next.key, x, until)
            == Allowed(past, ReplayRedis(past).1, next.key, x, until) + limit
  {
    FirstTwoWindows(next.windowMs);
    SpendAligned(past, next, 0, limit, 1, x, until);
  }

  lemma RedisWindowBoundTight(key: string, limit: int, windowMs: int)
    requires limit >= 0 && windowMs >= 2
    ensures var calls := AlignedBurst(key, limit, windowMs);
            && Chronological(calls) && Uniform(calls, key, limit, windowMs) && PositiveWindows(calls)
            && Allowed(calls, ReplayRedis(calls).1, key, windowMs - 1, windowMs - 1 + windowMs) == 2 * limit
  {
    var late, next := Call(key, limit, windowMs, windowMs - 1), Call(key, limit, windowMs, windowMs);
    var x, until := windowMs - 1, windowMs - 1 + windowMs;
    AlignedBurstIsARun(key, limit, windowMs);
    LateHalf(late, limit, x, until);
    NextHalf(Repeat(late, limit), next, limit, x, until);
  }
}
