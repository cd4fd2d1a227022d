/**
 The rate limiter as an object: both scripts run command by command on the stored keys, and each method
 is tied to the net effect and reply that the run theorems are about.
 */
module RateLimiting {
  import opened Redis
  import F = FixedWindow
  import S = SlidingWindow

  /** INCRBY: a missing key starts from zero and has no expiry. */
  function IncrBy(db: F.Counters, now: int, key: string, n: int): F.Counters {
    if Exists(db, now, key) then db[key := Entry(db[key].value + n, db[key].expiry)]
    else db[key := Entry(n, None)]
  }

  function ZAdd(db: S.Logs, now: int, key: string, score: int, m: S.Member): S.Logs {
    if Exists(db, now, key) then db[key := Entry(db[key].value[m := score], db[key].expiry)]
    else db[key := Entry(map[m := score], None)]
  }

  /** The script's ZADD loop. */
  method AddMembers(db: S.Logs, now: int, id: string, ms: int, n: int, salts: seq<int>) returns (db': S.Logs)
    requires n <= |salts|
    ensures db' == S.AddAll(db, now, id, ms, n, salts)
  {
    db' := db;
    var i := 1;
    while i <= n
      invariant 1 <= i && (i <= n + 1 || i == 1)
      invariant db' == S.AddAll(db, now, id, ms, i - 1, salts)
    {
      AddOneMore(db, now, id, ms, i, salts);
      db' := ZAdd(db', now, id, ms, S.NthMember(ms, i, salts));
      i := i + 1;
    }
  }

  class RateLimiter {
    const maxReqs: int
    const burst: int
    const windowMs: int

    /** Fixed-window keys, and the keys of the sliding form. */
    var counters: F.Counters
    var logs: S.Logs

    constructor (maxReqs: int, burst: int, windowMs: int)
      ensures this.maxReqs == maxReqs && this.burst == burst && this.windowMs == windowMs
      ensures counters == map[] && logs == map[]
    {
      this.maxReqs, this.burst, this.windowMs := maxReqs, burst, windowMs;
      counters, logs := map[], map[];
    }

    method AllowN(now: int, id: string, n: int) returns (r: F.Reply)
      modifies this`counters
      ensures counters == F.After(F.Config(maxReqs + burst, windowMs), old(counters), now, id, n)
      ensures r == F.Answer(F.Config(maxReqs + burst, windowMs), old(counters), now, id, n)
    {
      var max := maxReqs + burst;
      var found := Get(counters, now, id);
      var isNewWindow := found.None?;
      var current := if isNewWindow then 0 else found.value;
      var allowed := false;
      var remaining := max - current;
      if current + n <= max {
        counters := IncrBy(counters, now, id, n);
        if isNewWindow {
          counters := Expire(counters, now, id, windowMs);
        }
        allowed := true;
        remaining := max - current - n;
      }
      var ttl := Ttl(counters, now, id);
      if ttl < 0 {
        ttl := windowMs;
      }
      r := F.Reply(allowed, remaining, ttl, max);
    }

    method SlidingWindowAllowN(now: int, id: string, nowMs: int, n: int, salts: seq<int>) returns (r: F.Reply)
      requires n <= |salts|
      modifies this`logs
      ensures logs == S.After(F.Config(maxReqs + burst, windowMs), old(logs), now, id, nowMs, n, salts)
      ensures r == S.Answer(F.Config(maxReqs + burst, windowMs), old(logs), now, id, nowMs, n, salts)
    {
      hide S.Prune, S.AddAll, S.Members, Expire, Least;
      var max := maxReqs + burst;
      logs := S.Prune(logs, now, id, nowMs - windowMs);
      var current := |S.Members(logs, now, id)|;
      var allowed := false;
      var remaining := max - current;
      if current + n <= max {
        logs := AddMembers(logs, now, id, nowMs, n, salts);
        logs := Expire(logs, now, id, windowMs);
        allowed := true;
        remaining := max - current - n;
      }
      var scores := S.Members(logs, now, id).Values;
      var resetMs := windowMs;
      if scores != {} {
        resetMs := Least(scores) + windowMs - nowMs;
        if resetMs < 0 {
          resetMs := 0;
        }
      }
      r := F.Reply(allowed, remaining, resetMs, max);
    }

    method Reset(id: string)
      modifies this`counters, this`logs
      ensures counters == old(counters) - {id} && logs == old(logs) - {id}
    {
      counters := counters - {id};
      logs := logs - {id};
    }

    /** Only the fixed-window key is read, also for callers of the sliding form. */
    method GetStatus(now: int, id: string) returns (r: F.Reply)
      ensures r == F.Status(F.Config(maxReqs + burst, windowMs), counters, now, id)
    {
      var current := 0;
      var ttlMs := windowMs;
      var found := Get(counters, now, id);
      if found.Some? {
        current := found.value;
      }
      var ttl := Ttl(counters, now, id);
      if ttl > 0 {
        ttlMs := ttl;
      }
      var remaining := maxReqs + burst - current;
      if remaining < 0 {
        remaining := 0;
      }
      r := F.Reply(remaining > 0, remaining, ttlMs, maxReqs + burst);
    }
  }

  /** One turn of the ZADD loop. */
  lemma AddOneMore(db: S.Logs, now: int, id: string, ms: int, i: nat, salts: seq<int>)
    requires 1 <= i <= |salts|
    ensures ZAdd(S.AddAll(db, now, id, ms, i - 1, salts), now, id, ms, S.NthMember(ms, i, salts))
         == S.AddAll(db, now, id, ms, i, salts)
  {
    var before, after := S.Added(ms, i - 1, salts), S.Added(ms, i, salts);
    var m := S.NthMember(ms, i, salts);
    assert S.NewMembers(ms, i, salts) == S.NewMembers(ms, i - 1, salts) + {m};
    assert after == before[m := ms];
    if Exists(db, now, id) {
      assert (db[id].value + before)[m := ms] == db[id].value + after;
      if i == 1 {
        assert db[id].value + before == db[id].value;
      }
    } else if i == 1 {
      assert after == map[m := ms];
    }
  }

  /**
   GetStatus reads the fixed-window key only. For an identifier without one it agrees with the sliding form
   exactly when the sliding log is not full, or nothing is allowed at all.
   */
  lemma StatusOfSlidingIff(c: F.Config, counters: F.Counters, logs: S.Logs, id: string, now: int)
    requires !Exists(counters, now, id)
    ensures F.Status(c, counters, now, id).allowed == S.Fits(c, logs, now, id, now, 1)
       <==> (c.max > 0 ==> |S.Members(S.Prune(logs, now, id, now - c.window), now, id)| < c.max)
  {
  }

  /** After one sliding call that takes the whole limit, GetStatus still says allowed and the next sliding call is denied. */
  lemma StatusMissesSliding(c: F.Config, id: string, salts: seq<int>)
    requires c.window >= 1 && c.max >= 1 && |salts| >= c.max
    ensures var calls := [S.Allow(0, 0, id, c.max, salts)];
            && S.Salted(calls) && S.Clocked(calls)
            && F.Status(c, map[], 0, id) == F.Reply(true, c.max, c.window, c.max)
            && !S.Fits(c, S.Run(c, calls).db, 0, id, 0, 1)
  {
    hide S.Run, S.Step, S.Prune, S.NewUnits, S.Count;
    var call := S.Allow(0, 0, id, c.max, salts);
    S.DistinctCard(c, [call], id, 0);
    S.FirstCall(c, call);
    S.NewUnitsAre(call);
    S.CountAll(S.NewUnits(call), id, -c.window);
  }
}
