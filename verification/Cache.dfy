/** The cache as an object over its Redis keys, and the batched deletion by pattern. */
module Caching {
  import opened Redis
  import opened CacheRuns

  datatype Error = Unavailable | ComputeFailed

  /** How one call of GetOrSet ends: the keys, the result, and whether compute was called. */
  datatype Called = Called(db: Keys, result: Result<string, Error>, computes: bool)

  /**
   One call with nothing in between. `computed` is the outcome of the compute function, which is called only on a
   miss. A write that fails does not fail the call.
   */
  function GetOrSet(db: Keys, now: int, emptyIsNil: bool, redisKey: string, ttl: int,
                    computed: Option<string>, up: bool, applied: bool): Called {
    if !up then Called(db, Err(Unavailable), false)
    else
      match Lookup(db, now, emptyIsNil, redisKey)
      case Some(v) => Called(db, Ok(v), false)
      case None =>
        match computed
        case None => Called(db, Err(ComputeFailed), true)
        case Some(v) => Called(if applied then db[redisKey := Entry(v, SetExpiry(now, ttl))] else db, Ok(v), true)
  }

  ghost function LiveAmong(db: Keys, now: int, keys: set<string>): set<string> {
    set k | k in keys && Exists(db, now, k)
  }

  lemma LiveAmongSplit(db: Keys, now: int, done: set<string>, batch: set<string>)
    ensures |LiveAmong(db, now, done + batch)| == |LiveAmong(db, now, done)| + |LiveAmong(db - done, now, batch)|
  {
    assert LiveAmong(db, now, done + batch) == LiveAmong(db, now, done) + LiveAmong(db - done, now, batch);
  }

  lemma {:induction false} ElementsSplit(s: seq<string>, i: nat, j: nat)
    requires i <= j <= |s|
    ensures Elements(s[..j]) == Elements(s[..i]) + Elements(s[i..j])
  {
  }

  class Cache {
    const prefix: string
    const defaultTtl: int
    const emptyIsNil: bool

    var db: Keys

    constructor (prefix: string, defaultTtl: int, emptyIsNil: bool)
      ensures this.prefix == prefix && this.defaultTtl == defaultTtl && this.emptyIsNil == emptyIsNil && db == map[]
    {
      this.prefix, this.defaultTtl, this.emptyIsNil := prefix, defaultTtl, emptyIsNil;
      db := map[];
    }

    method GetKey(now: int, key: string, up: bool) returns (r: Result<Option<string>, Error>)
      ensures r == if up then Ok(Lookup(db, now, emptyIsNil, PrefixKey(prefix, key))) else Err(Unavailable)
    {
      var prefixedKey := PrefixKey(prefix, key);
      if !up {
        return Err(Unavailable);
      }
      var value := Get(db, now, prefixedKey);
      if value == Some("") && emptyIsNil {
        return Ok(None);
      }
      return Ok(value);
    }

    /** `applied` is whether the server did the write; the reply, which may be lost, is `replied`. */
    method SetWithTTL(now: int, key: string, value: string, ttl: int, applied: bool, replied: bool) returns (r: Result<(), Error>)
      modifies this
      ensures db == if applied then old(db)[PrefixKey(prefix, key) := Entry(value, SetExpiry(now, ttl))] else old(db)
      ensures r == if replied then Ok(()) else Err(Unavailable)
    {
      if applied {
        db := db[PrefixKey(prefix, key) := Entry(value, SetExpiry(now, ttl))];
      }
      return if replied then Ok(()) else Err(Unavailable);
    }

    method GetOrSetWithTTL(now: int, key: string, ttl: int, computed: Option<string>, up: bool, applied: bool, replied: bool)
      returns (r: Result<string, Error>, called: bool)
      modifies this
      ensures Called(db, r, called)
           == GetOrSet(old(db), now, emptyIsNil, PrefixKey(prefix, key), ttl, computed, up, applied)
      ensures var hit := Lookup(old(db), now, emptyIsNil, PrefixKey(prefix, key));
              && called == (up && hit == None)
              && (r == if !up then Err(Unavailable)
                       else if hit.Some? then Ok(hit.value)
                       else if computed.None? then Err(ComputeFailed)
                       else Ok(computed.value))
              && (db == if called && computed.Some? && applied
                        then old(db)[PrefixKey(prefix, key) := Entry(computed.value, if ttl > 0 then Some(now + ttl) else None)]
                        else old(db))
    {
      called := false;
      var cached := GetKey(now, key, up);
      if cached.Err? {
        return Err(cached.error), called;
      }
      if cached.value.Some? {
        return Ok(cached.value.value), called;
      }
      called := true;
      if computed.None? {
        return Err(ComputeFailed), called;
      }
      var _ := SetWithTTL(now, key, computed.value, ttl, applied, replied);
      return Ok(computed.value), called;
    }

    method MGet(now: int, keys: seq<string>, up: bool) returns (r: Result<map<string, Option<string>>, Error>)
      ensures |keys| == 0 ==> r == Ok(map[])
      ensures |keys| > 0 ==> r == if up then Ok(map k | k in keys :: Get(db, now, PrefixKey(prefix, k))) else Err(Unavailable)
    {
      if |keys| == 0 {
        return Ok(map[]);
      }
      hide Get, PrefixKey;
      var prefixedKeys := new string[|keys|];
      for i := 0 to |keys|
        invariant forall j | 0 <= j < i :: prefixedKeys[j] == PrefixKey(prefix, keys[j])
      {
        prefixedKeys[i] := PrefixKey(prefix, keys[i]);
      }
      if !up {
        return Err(Unavailable);
      }
      var results := seq(|keys|, i requires 0 <= i < |keys| reads prefixedKeys, this => Get(db, now, prefixedKeys[i]));
      var values: map<string, Option<string>> := map[];
      for i := 0 to |keys|
        invariant values.Keys == set k | k in keys[..i]
        invariant forall k | k in values :: values[k] == Get(db, now, PrefixKey(prefix, k))
      {
        assert keys[..i + 1] == keys[..i] + [keys[i]];
        if results[i].Some? {
          values := values[keys[i] := Some(results[i].value)];
        } else {
          values := values[keys[i] := None];
        }
      }
      assert keys[..|keys|] == keys;
      assert values == map k | k in keys :: Get(db, now, PrefixKey(prefix, k));
      return Ok(values);
    }

    /** DEL: how many of the keys were there. */
    method Del(now: int, keys: seq<string>) returns (count: nat)
      modifies this
      ensures db == old(db) - Elements(keys)
      ensures count == |LiveAmong(old(db), now, Elements(keys))|
    {
      count := 0;
      ghost var before := db;
      assert Elements<string>([]) == {} && LiveAmong(before, now, {}) == {};
      for i := 0 to |keys|
        invariant db == before - Elements(keys[..i])
        invariant count == |LiveAmong(before, now, Elements(keys[..i]))|
      {
        LiveAmongSplit(before, now, Elements(keys[..i]), {keys[i]});
        assert keys[..i + 1] == keys[..i] + [keys[i]];
        ElementsAppend(keys[..i], keys[i]);
        assert LiveAmong(db, now, {keys[i]}) == if Exists(db, now, keys[i]) then {keys[i]} else {};
        if Exists(db, now, keys[i]) {
          count := count + 1;
        }
        db := db - {keys[i]};
      }
      assert keys[..|keys|] == keys;
    }

    /**
     `scan` is what the SCAN iterator yields, repetitions included; `times` is when each DEL is sent, between
     `start` and `end`; `up` says which of them reach the server, and `scanFails` whether the iterator ends with
     an error. Keys may expire on the way: they are not counted from then on.
     */
    method DeleteByPattern(scan: seq<string>, times: nat -> int, ghost start: int, ghost end: int,
                           up: nat -> bool, scanFails: bool)
      returns (deleted: nat, ok: bool)
      requires forall b, b' | b <= b' :: start <= times(b) <= times(b') <= end
      modifies this
      ensures exists n: nat :: (ok ==> n == |scan|) && Deleted(old(db), db, scan, n, deleted, start, end)
      ensures ok <==> !scanFails && forall b: nat | b < (|scan| + 99) / 100 :: up(b)
    {
      hide *;
      deleted := 0;
      var keysToDelete: seq<string> := [];
      var batch: nat := 0;
      ghost var before := db;
      ghost var done: nat := 0;
      NoneDeleted(db, scan, start, end);
      for i := 0 to |scan|
        invariant done == 100 * batch <= i < done + 100 && keysToDelete == scan[done..i]
        invariant forall b: nat | b < batch :: up(b)
        invariant Deleted(before, db, scan, done, deleted, start, end)
      {
        keysToDelete := keysToDelete + [scan[i]];
        assert keysToDelete == scan[done..i + 1];
        if |keysToDelete| >= 100 {
          if !up(batch) {
            return deleted, false;
          }
          NextBatch(before, db, scan, done, i + 1, deleted, start, times(batch), end);
          var count := Del(times(batch), keysToDelete);
          deleted := deleted + count;
          keysToDelete := [];
          batch := batch + 1;
          done := i + 1;
        }
      }
      if scanFails {
        return deleted, false;
      }
      if |keysToDelete| > 0 {
        if !up(batch) {
          return deleted, false;
        }
        NextBatch(before, db, scan, done, |scan|, deleted, start, times(batch), end);
        var count := Del(times(batch), keysToDelete);
        deleted := deleted + count;
        done := |scan|;
      }
      ok := true;
    }
  }

  /**
   The first `n` scanned keys are gone and nothing else; the count lies between how many of them are still live at
   the end and how many were live at the start.
   */
  ghost predicate Deleted(before: Keys, db: Keys, scan: seq<string>, n: nat, deleted: nat, start: int, end: int) {
    && n <= |scan|
    && db == before - Elements(scan[..n])
    && |LiveAmong(before, end, Elements(scan[..n]))| <= deleted <= |LiveAmong(before, start, Elements(scan[..n]))|
  }

  lemma NoneDeleted(db: Keys, scan: seq<string>, start: int, end: int)
    ensures Deleted(db, db, scan, 0, 0, start, end)
  {
    assert scan[..0] == [] && Elements<string>([]) == {};
    assert LiveAmong(db, start, {}) == {} == LiveAmong(db, end, {});
  }

  lemma NextBatch(before: Keys, db: Keys, scan: seq<string>, n: nat, j: nat, deleted: nat, start: int, at: int, end: int)
    requires n <= j <= |scan| && start <= at <= end && Deleted(before, db, scan, n, deleted, start, end)
    ensures var batch := Elements(scan[n..j]);
            Deleted(before, db - batch, scan, j, deleted + |LiveAmong(db, at, batch)|, start, end)
  {
    hide Elements, LiveAmong;
    ElementsSplit(scan, n, j);
    OneBatch(before, start, at, end, Elements(scan[..n]), Elements(scan[n..j]));
  }

  /** What one DEL at `at` adds to the count lies between what is still live at the end and what was live at the start. */
  lemma OneBatch(db: Keys, start: int, at: int, end: int, done: set<string>, batch: set<string>)
    requires start <= at <= end
    ensures |LiveAmong(db, end, done + batch)| - |LiveAmong(db, end, done)| <= |LiveAmong(db - done, at, batch)|
    ensures |LiveAmong(db - done, at, batch)| <= |LiveAmong(db, start, done + batch)| - |LiveAmong(db, start, done)|
  {
    LiveAmongSplit(db, end, done, batch);
    LiveAmongSplit(db, start, done, batch);
    SubsetCard(LiveAmong(db - done, end, batch), LiveAmong(db - done, at, batch));
    SubsetCard(LiveAmong(db - done, at, batch), LiveAmong(db - done, start, batch));
  }

  /** The keys that a pattern matches, out of those that are there. */
  ghost function Matching(db: Keys, now: int, matches: string -> bool): set<string> {
    set k | k in db && Exists(db, now, k) && matches(k)
  }

  /**
   A SCAN that yields every key that matches at the start, perhaps more than once, and nothing else: afterwards
   exactly the matching keys are gone, whatever order and repetitions it yielded. The bounds on the count are the
   number of matching keys at the start and the number of those that would still be there at the end; they meet
   iff none of them expires on the way.
   */
  lemma DeleteByPatternExact(db: Keys, start: int, end: int, scan: seq<string>, matches: string -> bool)
    requires start <= end && Elements(scan) == Matching(db, start, matches)
    ensures |LiveAmong(db, start, Elements(scan))| == |Matching(db, start, matches)|
    ensures |LiveAmong(db, end, Elements(scan))| == |Matching(db, end, matches)|
    ensures |Matching(db, end, matches)| == |Matching(db, start, matches)|
       <==> forall k | k in Matching(db, start, matches) :: Exists(db, end, k)
    ensures forall k :: Get(db - Elements(scan), start, k) == if matches(k) then None else Get(db, start, k)
  {
    var first, last := Matching(db, start, matches), Matching(db, end, matches);
    assert LiveAmong(db, start, Elements(scan)) == first;
    assert LiveAmong(db, end, Elements(scan)) == last;
    assert last <= first;
    SubsetCard(last, first);
    if k :| k in first && k !in last {
      SubsetCard(last, first - {k});
    } else {
      assert last == first;
    }
  }

  /** What the concurrent model records of a call. */
  function Record(key: string, now: int, r: Result<string, Error>): Served {
    match r
    case Ok(v) => One(key, v, now)
    case Err(_) => Failed
  }

  /**
   A call of the cache with nothing in between is the three steps of the concurrent model, for every outcome of
   read, compute and write: the same keys, the same result, and no call left in progress.
   */
  lemma {:induction false} SerialCall(s: Setting, w: World, id: nat, key: string, ttl: int, computed: Option<string>, up: bool, applied: bool)
    requires id !in w.calls && (computed.Some? ==> computed.value == s.truth(w.now, key))
    ensures var w' := Step(s, Step(s, Step(s, w, Read(id, key, !up)), Compute(id, computed.None?)), Write(id, ttl, applied));
            var called := GetOrSet(w.db, w.now, s.emptyIsNil, PrefixKey(s.prefix, key), ttl, computed, up, applied);
            && w'.db == called.db
            && w'.served == w.served + [Record(key, w.now, called.result)]
            && w'.calls == w.calls && w'.now == w.now
  {
    if up && Lookup(w.db, w.now, s.emptyIsNil, PrefixKey(s.prefix, key)).None? {
      assert w.calls[id := Missed(key)] - {id} == w.calls;
      assert w.calls[id := Missed(key)][id := Computed(key, s.truth(w.now, key), w.now)] - {id} == w.calls;
    }
  }

  /** A read of many keys that arrives serves what MGet is proved to return, and changes nothing else. */
  lemma ManyIsMGet(s: Setting, w: World, keys: seq<string>)
    ensures Step(s, w, ReadMany(keys, false))
         == World(w.now, w.db, w.calls, w.served + [Many(map k | k in keys :: Get(w.db, w.now, PrefixKey(s.prefix, k)), w.now)])
  {
  }
}
