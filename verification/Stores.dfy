/** The two stores as the source writes them: objects whose methods update a map in place,
    each proved equal to the functions that the run-wide results are about. */
module Stores {
  import opened Common
  import opened ReliabilityStore
  import opened DailyQuota

  class MemoryReliabilityStore {
    var fixedWindows: Windows
    var dailyCounters: DayCounters

    constructor ()
      ensures fixedWindows == map[] && dailyCounters == map[]
    {
      fixedWindows, dailyCounters := map[], map[];
    }

    method ConsumeFixedWindow(bucket: string, client: string, limit: int, windowMs: int, now: int)
      returns (check: Check)
      modifies this
      ensures (fixedWindows, check) == Consume(old(fixedWindows), Call(bucket + ":" + client, limit, windowMs, now))
      ensures dailyCounters == old(dailyCounters)
    {
      var key := bucket + ":" + client;
      if key !in fixedWindows || fixedWindows[key].resetAt <= now {
        fixedWindows := fixedWindows[key := Entry(1, now + windowMs)];
        return Check(true, 0);
      }
      var existing := fixedWindows[key];
      if existing.count >= limit {
        return Check(false, RetryAfterSeconds(existing.resetAt - now));
      }
      fixedWindows := fixedWindows[key := existing.(count := existing.count + 1)];
      return Check(true, 0);
    }

    method GetOrCreateDailyCounters(day: int) returns (counters: Counters)
      modifies this
      ensures dailyCounters == GetOrCreate(old(dailyCounters), day) && counters == dailyCounters[day]
      ensures fixedWindows == old(fixedWindows)
    {
      if day !in dailyCounters {
        dailyCounters := dailyCounters[day := BLANK];
      }
      counters := dailyCounters[day];
    }

    method ReserveDailyQuota(resource: Resource, limit: int, now: int) returns (res: Reservation)
      modifies this
      ensures (dailyCounters, res) == ReserveMemory(old(dailyCounters), resource, limit, now)
      ensures fixedWindows == old(fixedWindows)
    {
      var day := UtcDay(now);
      var counters := GetOrCreateDailyCounters(day);
      var used := counters.Get(resource);
      if used >= limit {
        return Reservation(false, RetryAfterSeconds(MsUntilNextUtcDay(now)), used, limit);
      }
      var nextUsed := used + 1;
      dailyCounters := dailyCounters[day := counters.Set(resource, nextUsed)];
      return Reservation(true, 0, nextUsed, limit);
    }

    method GetUsageSnapshot(now: int) returns (usage: Counters)
      modifies this
      ensures (dailyCounters, usage) == SnapshotMemory(old(dailyCounters), now)
      ensures fixedWindows == old(fixedWindows)
    {
      usage := GetOrCreateDailyCounters(UtcDay(now));
    }
  }

  class RedisReliabilityStore {
    var db: Db

    constructor ()
      ensures db == map[]
    {
      db := map[];
    }

    /** INCR: an expired key counts from nothing and has no expiry yet. */
    method Increment(key: Key, now: int) returns (current: int)
      modifies this
      ensures current == Count(old(db), key, now) + 1
      ensures db == old(db)[key := Value(current, if key in old(db) then old(db[key].expireAt) else now)]
    {
      current := Count(db, key, now) + 1;
      db := db[key := Value(current, if key in db then db[key].expireAt else now)];
    }

    /** The reserve script, which Redis runs as one step. */
    method EvalReserve(key: Key, limit: int, ttlMs: int, now: int) returns (reply: Reply)
      modifies this
      ensures (db, reply) == Reserve(old(db), key, limit, ttlMs, now)
    {
      var current := Increment(key, now);
      if current == 1 {
        db := db[key := Value(current, now + Max(1, ttlMs))];
      }
      var ttl := db[key].expireAt - now;
      assert db == old(db)[key := Value(current, db[key].expireAt)];
      if current > limit {
        return Reply(false, current - 1, ttl);
      }
      return Reply(true, current, ttl);
    }

    method ConsumeFixedWindow(bucket: string, client: string, limit: int, windowMs: int, now: int)
      returns (check: Check)
      requires windowMs > 0
      modifies this
      ensures (db, check) == ConsumeRedis(old(db), Call(bucket + ":" + client, limit, windowMs, now))
    {
      var windowStart := now / windowMs * windowMs;
      var ttlMs := windowStart + windowMs - now;
      var reply := EvalReserve(Fixed(bucket + ":" + client, windowStart), limit, ttlMs, now);
      return Check(reply.allowed, if reply.allowed then 0 else RetryAfterSeconds(Max(1, reply.ttlMs)));
    }

    method ReserveDailyQuota(resource: Resource, limit: int, now: int) returns (res: Reservation)
      modifies this
      ensures (db, res) == ReserveRedis(old(db), resource, limit, now)
    {
      var reply := EvalReserve(Daily(resource, UtcDay(now)), limit, MsUntilNextUtcDay(now) + DAY_MS, now);
      return Reservation(reply.allowed, if reply.allowed then 0 else RetryAfterSeconds(Max(1, reply.ttlMs)),
                         reply.used, limit);
    }

    method GetUsageSnapshot(now: int) returns (usage: Counters)
      ensures usage == SnapshotRedis(db, now)
    {
      usage := BLANK;
      var resources := [Judge0, Imports, Llm];
      for i := 0 to |resources|
        invariant usage == Counters(if i > 0 then SnapshotRedis(db, now).judge0 else 0,
                                    if i > 1 then SnapshotRedis(db, now).imports else 0,
                                    if i > 2 then SnapshotRedis(db, now).llm else 0)
      {
        var value := Count(db, Daily(resources[i], UtcDay(now)), now);
        usage := usage.Set(resources[i], value);
      }
    }
  }
}
