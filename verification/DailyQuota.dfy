/** Daily quotas per resource and UTC day, in both stores, and the proof that the Redis store
    and the memory store decide alike. */
module DailyQuota {
  import opened Common
  import opened ReliabilityStore

  datatype Counters = Counters(judge0: int, imports: int, llm: int) {
    function Get(r: Resource): int {
      match r case Judge0 => judge0 case Imports => imports case Llm => llm
    }
    function Set(r: Resource, n: int): Counters {
      match r
      case Judge0 => this.(judge0 := n)
      case Imports => this.(imports := n)
      case Llm => this.(llm := n)
    }
  }

  const BLANK := Counters(0, 0, 0)

  datatype Reservation = Reservation(allowed: bool, retryAfterSeconds: int, used: int, limit: int)

  type DayCounters = map<int, Counters>

  function GetOrCreate(daily: DayCounters, day: int): DayCounters {
    if day in daily then daily else daily[day := BLANK]
  }

  function Used(daily: DayCounters, r: Resource, day: int): int {
    if day in daily then daily[day].Get(r) else 0
  }

  function ReserveMemory(daily: DayCounters, r: Resource, limit: int, now: int): (DayCounters, Reservation) {
    var day := UtcDay(now);
    var known := GetOrCreate(daily, day);
    var used := known[day].Get(r);
    if used >= limit then
      (known, Reservation(false, RetryAfterSeconds(MsUntilNextUtcDay(now)), used, limit))
    else
      (known[day := known[day].Set(r, used + 1)], Reservation(true, 0, used + 1, limit))
  }

  /** A denied reservation names the wait until the next UTC day: that many seconds later it is
      granted exactly when that day still has some of its limit left. */
  lemma QuotaDenialNamesTheWait(daily: DayCounters, r: Resource, limit: int, now: int)
    requires !ReserveMemory(daily, r, limit, now).1.allowed
    ensures var (after, res) := ReserveMemory(daily, r, limit, now);
            var later := now + 1000 * res.retryAfterSeconds;
            && UtcDay(later) == UtcDay(now) + 1
            && (ReserveMemory(after, r, limit, later).1.allowed <==> Used(daily, r, UtcDay(now) + 1) < limit)
  {
    var ms := MsUntilNextUtcDay(now);
    assert ms <= 1000 * RetryAfterSeconds(ms) < ms + 1000;
    assert now + ms == (UtcDay(now) + 1) * DAY_MS;
  }

  /** A reservation reports the limit and how many the day has used with it, and touches nothing
      but the day's counter of its resource; a granted one names no wait. */
  lemma ReservationReports(daily: DayCounters, r: Resource, limit: int, now: int, other: Resource, day: int)
    ensures var (after, res) := ReserveMemory(daily, r, limit, now);
            && res.limit == limit && res.used == Used(after, r, UtcDay(now))
            && (res.allowed <==> Used(daily, r, UtcDay(now)) < limit)
            && (res.allowed ==> res.retryAfterSeconds == 0)
            && Used(after, other, day)
               == Used(daily, other, day) + if res.allowed && other == r && day == UtcDay(now) then 1 else 0
  {
  }

  function ReserveRedis(db: Db, r: Resource, limit: int, now: int): (Db, Reservation) {
    var (after, reply) := Reserve(db, Daily(r, UtcDay(now)), limit, MsUntilNextUtcDay(now) + DAY_MS, now);
    (after, Reservation(reply.allowed, if reply.allowed then 0 else RetryAfterSeconds(Max(1, reply.ttlMs)),
                        reply.used, limit))
  }

  /** The Redis store counts denied attempts too, but reports without them. */
  lemma RedisReservationReports(db: Db, r: Resource, limit: int, now: int, other: Key)
    ensures var (after, res) := ReserveRedis(db, r, limit, now);
            var k := Daily(r, UtcDay(now));
            && res.limit == limit && res.used == Count(db, k, now) + (if res.allowed then 1 else 0)
            && (res.allowed <==> Count(db, k, now) < limit)
            && (res.allowed ==> res.retryAfterSeconds == 0)
            && Count(after, k, now) == Count(db, k, now) + 1
            && (other != k ==> (other in after <==> other in db) && (other in after ==> after[other] == db[other]))
  {
  }

  /** `getUsageSnapshot`; the memory store creates the day's counters on the way. */
  function SnapshotMemory(daily: DayCounters, now: int): (DayCounters, Counters) {
    var known := GetOrCreate(daily, UtcDay(now));
    (known, known[UtcDay(now)])
  }

  function SnapshotRedis(db: Db, now: int): Counters {
    var day := UtcDay(now);
    Counters(Count(db, Daily(Judge0, day), now), Count(db, Daily(Imports, day), now), Count(db, Daily(Llm, day), now))
  }

  // ---------------------------------------------------------------------------------------
  // Runs: reservations and `hasQuota` questions against a fixed limit per resource
  // ---------------------------------------------------------------------------------------

  datatype Event = Ask(resource: Resource, now: int) | Take(resource: Resource, now: int)

  /** One answer to one event: `hasQuota` or the reservation's `allowed`. */
  function StepMemory(limits: Counters, daily: DayCounters, e: Event): (DayCounters, bool) {
    var limit := limits.Get(e.resource);
    match e
    case Ask(r, now) => var (known, usage) := SnapshotMemory(daily, now); (known, usage.Get(r) < limit)
    case Take(r, now) => var (after, res) := ReserveMemory(daily, r, limit, now); (after, res.allowed)
  }

  function StepRedis(limits: Counters, db: Db, e: Event): (Db, bool) {
    var limit := limits.Get(e.resource);
    match e
    case Ask(r, now) => (db, SnapshotRedis(db, now).Get(r) < limit)
    case Take(r, now) => var (after, res) := ReserveRedis(db, r, limit, now); (after, res.allowed)
  }

  function RunMemory(limits: Counters, events: seq<Event>): (r: (DayCounters, seq<bool>))
    ensures |r.1| == |events|
    decreases |events|
  {
    if events == [] then (map[], [])
    else
      var before := RunMemory(limits, events[..|events| - 1]);
      var (daily, answer) := StepMemory(limits, before.0, events[|events| - 1]);
      (daily, before.1 + [answer])
  }

  function RunRedis(limits: Counters, events: seq<Event>): (r: (Db, seq<bool>))
    ensures |r.1| == |events|
    decreases |events|
  {
    if events == [] then (map[], [])
    else
      var before := RunRedis(limits, events[..|events| - 1]);
      var (db, answer) := StepRedis(limits, before.0, events[|events| - 1]);
      (db, before.1 + [answer])
  }

  ghost predicate Chronological(events: seq<Event>) {
    forall i, j :: 0 <= i < j < |events| ==> events[i].now <= events[j].now
  }

  /** The memory counter is the Redis counter cut off at the limit, and the Redis key outlives
      its own UTC day by one more day. */
  ghost predicate SameUse(limits: Counters, daily: DayCounters, db: Db, r: Resource, day: int) {
    var k := Daily(r, day);
    if k in db then
      && db[k].count >= 1
      && db[k].expireAt == (day + 2) * DAY_MS
      && Used(daily, r, day) == Min(db[k].count, Max(0, limits.Get(r)))
    else
      Used(daily, r, day) == 0
  }

  ghost predicate Untouched(daily: DayCounters, db: Db, after: int) {
    && (forall day :: day in daily ==> day <= after)
    && (forall r, day :: Daily(r, day) in db ==> day <= after)
  }

  ghost predicate Related(limits: Counters, daily: DayCounters, db: Db, day: int) {
    && Untouched(daily, db, day)
    && (forall r :: SameUse(limits, daily, db, r, day))
  }

  lemma DayOf(now: int)
    ensures UtcDay(now) * DAY_MS <= now < (UtcDay(now) + 1) * DAY_MS
  {
  }

  lemma StepsAgree(limits: Counters, daily: DayCounters, db: Db, before: int, e: Event)
    requires Related(limits, daily, db, before) && before <= UtcDay(e.now)
    ensures Related(limits, daily, db, UtcDay(e.now))
    ensures StepMemory(limits, daily, e).1 == StepRedis(limits, db, e).1
    ensures Related(limits, StepMemory(limits, daily, e).0, StepRedis(limits, db, e).0, UtcDay(e.now))
  {
    var day := UtcDay(e.now);
    DayOf(e.now);
    assert forall r :: SameUse(limits, daily, db, r, day);
    assert SameUse(limits, daily, db, e.resource, day);
    var after := StepMemory(limits, daily, e).0;
    var dbAfter := StepRedis(limits, db, e).0;
    forall r ensures SameUse(limits, after, dbAfter, r, day) {
      assert SameUse(limits, daily, db, r, day);
    }
  }

  /** Both stores give the same allow or deny to every reservation and the same `hasQuota`
      answer to every question; for the day of the latest event the memory counter is the
      Redis counter cut off at the limit, and the Redis key is alive at every moment of it. */
  lemma {:induction false} StoresDecideAlike(limits: Counters, events: seq<Event>)
    requires Chronological(events) && events != []
    ensures RunMemory(limits, events).1 == RunRedis(limits, events).1
    ensures Related(limits, RunMemory(limits, events).0, RunRedis(limits, events).0,
                    UtcDay(events[|events| - 1].now))
    decreases |events|
  {
    var n := |events| - 1;
    var past := events[..n];
    if n > 0 {
      StoresDecideAlike(limits, past);
      assert past[n - 1].now <= events[n].now;
      StepsAgree(limits, RunMemory(limits, past).0, RunRedis(limits, past).0, UtcDay(past[n - 1].now), events[n]);
    } else {
      StepsAgree(limits, map[], map[], UtcDay(events[0].now), events[0]);
    }
  }

  /** On every run a denial by either store names a wait, and that of the Redis store is a whole
      day longer: its key outlives the day, and the time it has left is what the client is told.
      So the wait ends in the next UTC day with the memory store and in the one after with Redis. */
  lemma {:induction false} RedisNamesADayTooMany(limits: Counters, events: seq<Event>, r: Resource, now: int)
    requires Chronological(events) && (events != [] ==> events[|events| - 1].now <= now)
    requires !ReserveRedis(RunRedis(limits, events).0, r, limits.Get(r), now).1.allowed
    ensures var memory := ReserveMemory(RunMemory(limits, events).0, r, limits.Get(r), now).1;
            var redis := ReserveRedis(RunRedis(limits, events).0, r, limits.Get(r), now).1;
            && !memory.allowed && redis.retryAfterSeconds == memory.retryAfterSeconds + 86_400
            && UtcDay(now + 1000 * memory.retryAfterSeconds) == UtcDay(now) + 1
            && UtcDay(now + 1000 * redis.retryAfterSeconds) == UtcDay(now) + 2
  {
    var daily, db := RunMemory(limits, events).0, RunRedis(limits, events).0;
    if events == [] {
      WaitsDiffer(limits, daily, db, UtcDay(now), r, now);
    } else {
      StoresDecideAlike(limits, events);
      WaitsDiffer(limits, daily, db, UtcDay(events[|events| - 1].now), r, now);
    }
  }

  lemma WaitsDiffer(limits: Counters, daily: DayCounters, db: Db, before: int, r: Resource, now: int)
    requires Related(limits, daily, db, before) && before <= UtcDay(now)
    requires !ReserveRedis(db, r, limits.Get(r), now).1.allowed
    ensures var memory := ReserveMemory(daily, r, limits.Get(r), now).1;
            var redis := ReserveRedis(db, r, limits.Get(r), now).1;
            && !memory.allowed && redis.retryAfterSeconds == memory.retryAfterSeconds + 86_400
            && UtcDay(now + 1000 * memory.retryAfterSeconds) == UtcDay(now) + 1
            && UtcDay(now + 1000 * redis.retryAfterSeconds) == UtcDay(now) + 2
  {
    var day := UtcDay(now);
    StepsAgree(limits, daily, db, before, Take(r, now));
    QuotaDenialNamesTheWait(daily, r, limits.Get(r), now);
    var after := ReserveRedis(db, r, limits.Get(r), now).0;
    assert SameUse(limits, ReserveMemory(daily, r, limits.Get(r), now).0, after, r, day);
    assert after[Daily(r, day)].expireAt == (day + 2) * DAY_MS;
    ADayMore(now);
  }

  lemma ADayMore(now: int)
    ensures (UtcDay(now) + 2) * DAY_MS - now == MsUntilNextUtcDay(now) + DAY_MS
    ensures RetryAfterSeconds(MsUntilNextUtcDay(now) + DAY_MS) == RetryAfterSeconds(MsUntilNextUtcDay(now)) + 86_400
  {
  }

  /** A daily key that was ever set is live at every later moment of its own day. */
  lemma NeverExpiresInItsDay(limits: Counters, events: seq<Event>, r: Resource, later: int)
    requires Chronological(events) && events != []
    requires UtcDay(later) == UtcDay(events[|events| - 1].now)
    ensures var db := RunRedis(limits, events).0;
            Daily(r, UtcDay(later)) in db ==> Live(db, Daily(r, UtcDay(later)), later)
  {
    StoresDecideAlike(limits, events);
    DayOf(later);
    assert SameUse(limits, RunMemory(limits, events).0, RunRedis(limits, events).0, r, UtcDay(later));
  }

  // ---------------------------------------------------------------------------------------
  // How many reservations a day grants
  // ---------------------------------------------------------------------------------------

  /** The reservations of `r` attempted on `day`, or only those answered yes. */
  function Takes(events: seq<Event>, answers: seq<bool>, r: Resource, day: int, grantedOnly: bool): nat
    requires |answers| == |events|
    decreases |events|
  {
    if events == [] then 0
    else
      var n := |events| - 1;
      Takes(events[..n], answers[..n], r, day, grantedOnly)
      + if events[n] == Take(r, events[n].now) && UtcDay(events[n].now) == day && (answers[n] || !grantedOnly)
        then 1 else 0
  }

  /** Whatever the clock does, each day grants exactly its first `limit` reservations, and the
      day's counter is the number granted. */
  lemma {:induction false} GrantsExactlyTheLimit(limits: Counters, events: seq<Event>, r: Resource, day: int)
    ensures var (daily, answers) := RunMemory(limits, events);
            && Takes(events, answers, r, day, true)
               == Min(Takes(events, answers, r, day, false), Max(0, limits.Get(r)))
            && Used(daily, r, day) == Takes(events, answers, r, day, true)
    decreases |events|
  {
    if events != [] {
      var n := |events| - 1;
      GrantsExactlyTheLimit(limits, events[..n], r, day);
      assert RunMemory(limits, events).1[..n] == RunMemory(limits, events[..n]).1;
    }
  }
}
