/**
 Cache-aside reads by many callers at once. A call reads the key, on a miss computes the value from the source of
 truth, and writes it back; between its three steps anything may happen. Times are milliseconds.
 */
module CacheRuns {
  import opened Redis

  type Keys = map<string, Entry<string>>

  function PrefixKey(prefix: string, key: string): string {
    if prefix == "" then key else prefix + ":" + key
  }

  /** Two keys of one cache never share a Redis key. */
  lemma PrefixKeyInjective(prefix: string, a: string, b: string)
    requires PrefixKey(prefix, a) == PrefixKey(prefix, b)
    ensures a == b
  {
    var n := if prefix == "" then 0 else |prefix| + 1;
    assert PrefixKey(prefix, a)[n..] == a && PrefixKey(prefix, b)[n..] == b;
  }

  /** Caches with different prefixes stay apart exactly when neither prefix, with its colon, begins the other. */
  lemma PrefixesApartIff(p: string, q: string)
    requires p != "" && q != ""
    ensures (forall a, b :: PrefixKey(p, a) != PrefixKey(q, b)) <==> !(p + ":" <= q + ":") && !(q + ":" <= p + ":")
  {
    if p + ":" <= q + ":" {
      var rest := (q + ":")[|p| + 1..];
      assert PrefixKey(p, rest) == PrefixKey(q, "");
    } else if q + ":" <= p + ":" {
      var rest := (p + ":")[|q| + 1..];
      assert PrefixKey(q, rest) == PrefixKey(p, "");
    } else {
      forall a, b ensures PrefixKey(p, a) != PrefixKey(q, b) {
        if PrefixKey(p, a) == PrefixKey(q, b) {
          if |p| <= |q| {
            CommonBegin(p + ":", a, q + ":", b);
          } else {
            CommonBegin(q + ":", b, p + ":", a);
          }
        }
      }
    }
  }

  lemma CommonBegin(x: string, a: string, y: string, b: string)
    requires x + a == y + b && |x| <= |y|
    ensures x <= y
  {
    forall k | 0 <= k < |x| ensures x[k] == y[k] {
      assert (x + a)[k] == (y + b)[k];
    }
  }

  /** What Get returns: whether an empty value comes back as nil, and so as a miss, is left open. */
  function Lookup(db: Keys, now: int, emptyIsNil: bool, redisKey: string): Option<string> {
    var v := Get(db, now, redisKey);
    if v == Some("") && emptyIsNil then None else v
  }

  // ---------- Calls in progress ----------

  datatype Call =
    | Missed(key: string)
    | Computed(key: string, value: string, at: int)

  datatype Served =
    | One(key: string, value: string, at: int)
    | Many(values: map<string, Option<string>>, at: int)
    | Failed

  datatype World = World(now: int, db: Keys, calls: map<nat, Call>, served: seq<Served>)

  /** The value of each key at each time, and whether the client reads an empty value as nil. */
  datatype Setting = Setting(prefix: string, truth: (int, string) -> string, emptyIsNil: bool)

  datatype Op =
    | Tick(ms: nat)
    | Read(id: nat, key: string, lost: bool)
    | Compute(id: nat, fails: bool)
    | Write(id: nat, ttl: int, applied: bool)
    | Remove(redisKeys: set<string>)
    | ReadMany(keys: seq<string>, lost: bool)

  function MGetResult(s: Setting, db: Keys, now: int, keys: seq<string>): map<string, Option<string>> {
    map k | k in keys :: Get(db, now, PrefixKey(s.prefix, k))
  }

  /** The reply of a Write is ignored, so only whether the server applied it matters. */
  function Step(s: Setting, w: World, op: Op): World {
    match op
    case Tick(ms) => w.(now := w.now + ms)
    case Read(id, key, lost) =>
      if id in w.calls then w
      else if lost then w.(served := w.served + [Failed])
      else
        (match Lookup(w.db, w.now, s.emptyIsNil, PrefixKey(s.prefix, key))
         case Some(v) => w.(served := w.served + [One(key, v, w.now)])
         case None => w.(calls := w.calls[id := Missed(key)]))
    case Compute(id, fails) =>
      if id !in w.calls || !w.calls[id].Missed? then w
      else if fails then w.(calls := w.calls - {id}, served := w.served + [Failed])
      else w.(calls := w.calls[id := Computed(w.calls[id].key, s.truth(w.now, w.calls[id].key), w.now)])
    case Write(id, ttl, applied) =>
      if id !in w.calls || !w.calls[id].Computed? then w
      else
        var c := w.calls[id];
        w.(db := if applied then w.db[PrefixKey(s.prefix, c.key) := Entry(c.value, SetExpiry(w.now, ttl))] else w.db,
           calls := w.calls - {id},
           served := w.served + [One(c.key, c.value, w.now)])
    case Remove(redisKeys) => w.(db := w.db - redisKeys)
    case ReadMany(keys, lost) =>
      w.(served := w.served + [if lost then Failed else Many(MGetResult(s, w.db, w.now, keys), w.now)])
  }

  function Run(s: Setting, w: World, ops: seq<Op>): World
    decreases |ops|
  {
    if ops == [] then w else Run(s, Step(s, w, ops[0]), ops[1..])
  }

  const Start: World := World(0, map[], map[], [])

  // ---------- Bounded staleness ----------

  /** `value` is what the source held for `key` at some time of the interval. */
  ghost predicate HeldIn(s: Setting, key: string, value: string, from: int, to: int) {
    exists t :: from <= t <= to && s.truth(t, key) == value
  }

  lemma HeldWider(s: Setting, key: string, value: string, from: int, to: int, from': int, to': int)
    requires HeldIn(s, key, value, from, to) && from' <= from && to <= to'
    ensures HeldIn(s, key, value, from', to')
  {
  }

  /**
   Every write gives a positive time of at most `maxTtl`, at most `maxDelay` after its value was computed.
   Without bounds (`None`) any write is allowed.
   */
  datatype Bounds = Unbounded | AtMost(maxTtl: nat, maxDelay: nat)

  predicate OpWithin(b: Bounds, w: World, op: Op) {
    b.AtMost? && op.Write? && op.id in w.calls && w.calls[op.id].Computed? ==>
      0 < op.ttl <= b.maxTtl && w.now <= w.calls[op.id].at + b.maxDelay
  }

  predicate RunWithin(s: Setting, b: Bounds, w: World, ops: seq<Op>)
    decreases |ops|
  {
    ops == [] || (OpWithin(b, w, ops[0]) && RunWithin(s, b, Step(s, w, ops[0]), ops[1..]))
  }

  /** The oldest value that may be served at time `t`; without bounds, any value since the run began. */
  function Oldest(b: Bounds, t: int): int {
    if b.Unbounded? then 0 else t - b.maxTtl - b.maxDelay
  }

  ghost predicate EntryOk(s: Setting, b: Bounds, now: int, key: string, e: Entry<string>) {
    match b
    case Unbounded => HeldIn(s, key, e.value, 0, now)
    case AtMost(_, _) => e.expiry.Some? && HeldIn(s, key, e.value, Oldest(b, e.expiry.value), now)
  }

  ghost predicate DbOk(s: Setting, b: Bounds, w: World) {
    forall k | PrefixKey(s.prefix, k) in w.db :: EntryOk(s, b, w.now, k, w.db[PrefixKey(s.prefix, k)])
  }

  ghost predicate CallsOk(s: Setting, w: World) {
    forall id | id in w.calls && w.calls[id].Computed? ::
      var c := w.calls[id]; 0 <= c.at <= w.now && c.value == s.truth(c.at, c.key)
  }

  ghost predicate ServedOk(s: Setting, b: Bounds, r: Served) {
    match r
    case One(key, value, at) => HeldIn(s, key, value, Oldest(b, at), at)
    case Many(values, at) =>
      forall k | k in values && values[k].Some? :: HeldIn(s, k, values[k].value, Oldest(b, at), at)
    case Failed => true
  }

  ghost predicate AllServedOk(s: Setting, b: Bounds, w: World) {
    forall i | 0 <= i < |w.served| :: ServedOk(s, b, w.served[i])
  }

  ghost predicate Inv(s: Setting, b: Bounds, w: World) {
    w.now >= 0 && DbOk(s, b, w) && CallsOk(s, w) && AllServedOk(s, b, w)
  }

  lemma TickKeeps(s: Setting, b: Bounds, w: World, ms: nat)
    requires Inv(s, b, w)
    ensures Inv(s, b, Step(s, w, Tick(ms)))
  {
  }

  lemma ReadKeeps(s: Setting, b: Bounds, w: World, id: nat, key: string, lost: bool)
    requires Inv(s, b, w)
    ensures Inv(s, b, Step(s, w, Read(id, key, lost)))
  {
  }

  lemma WriteKeeps(s: Setting, b: Bounds, w: World, id: nat, ttl: int, applied: bool)
    requires Inv(s, b, w) && OpWithin(b, w, Write(id, ttl, applied))
    ensures Inv(s, b, Step(s, w, Write(id, ttl, applied)))
  {
    if id in w.calls && w.calls[id].Computed? {
      var c, w' := w.calls[id], Step(s, w, Write(id, ttl, applied));
      assert s.truth(c.at, c.key) == c.value;
      assert HeldIn(s, c.key, c.value, c.at, w.now);
      HeldWider(s, c.key, c.value, c.at, w.now, Oldest(b, w.now), w.now);
      assert ServedOk(s, b, One(c.key, c.value, w.now));
      forall k | PrefixKey(s.prefix, k) in w'.db ensures EntryOk(s, b, w.now, k, w'.db[PrefixKey(s.prefix, k)]) {
        if applied && PrefixKey(s.prefix, k) == PrefixKey(s.prefix, c.key) {
          PrefixKeyInjective(s.prefix, k, c.key);
          if b.AtMost? {
            HeldWider(s, k, c.value, c.at, w.now, Oldest(b, w.now + ttl), w.now);
          }
        } else {
          assert EntryOk(s, b, w.now, k, w.db[PrefixKey(s.prefix, k)]);
        }
      }
    }
  }

  lemma ReadManyKeeps(s: Setting, b: Bounds, w: World, keys: seq<string>, lost: bool)
    requires Inv(s, b, w)
    ensures Inv(s, b, Step(s, w, ReadMany(keys, lost)))
  {
  }

  lemma StepKeeps(s: Setting, b: Bounds, w: World, op: Op)
    requires Inv(s, b, w) && OpWithin(b, w, op)
    ensures Inv(s, b, Step(s, w, op))
  {
    match op {
      case Tick(ms) => TickKeeps(s, b, w, ms);
      case Read(id, key, lost) => ReadKeeps(s, b, w, id, key, lost);
      case Compute(id, fails) =>
      case Write(id, ttl, applied) => WriteKeeps(s, b, w, id, ttl, applied);
      case Remove(redisKeys) =>
      case ReadMany(keys, lost) => ReadManyKeeps(s, b, w, keys, lost);
    }
  }

  lemma {:induction false} RunKeeps(s: Setting, b: Bounds, w: World, ops: seq<Op>)
    requires Inv(s, b, w) && RunWithin(s, b, w, ops)
    ensures Inv(s, b, Run(s, w, ops))
    decreases |ops|
  {
    if ops != [] {
      StepKeeps(s, b, w, ops[0]);
      RunKeeps(s, b, Step(s, w, ops[0]), ops[1..]);
    }
  }

  lemma {:induction false} UnboundedAllowsAll(s: Setting, w: World, ops: seq<Op>)
    ensures RunWithin(s, Unbounded, w, ops)
    decreases |ops|
  {
    if ops != [] {
      UnboundedAllowsAll(s, Step(s, w, ops[0]), ops[1..]);
    }
  }

  /**
   Bounded staleness, for a source that changes: when every write gives a time of 1 to `maxTtl` and follows its
   computation within `maxDelay`, whatever is served is a value that the source held within the last
   `maxTtl + maxDelay`.
   */
  lemma {:induction false} StalenessBound(s: Setting, maxTtl: nat, maxDelay: nat, ops: seq<Op>, i: nat)
    requires RunWithin(s, AtMost(maxTtl, maxDelay), Start, ops)
    requires i < |Run(s, Start, ops).served|
    ensures match Run(s, Start, ops).served[i]
            case One(key, value, at) => HeldIn(s, key, value, at - maxTtl - maxDelay, at)
            case Many(values, at) =>
              forall k | k in values && values[k].Some? :: HeldIn(s, k, values[k].value, at - maxTtl - maxDelay, at)
            case Failed => true
  {
    var b := AtMost(maxTtl, maxDelay);
    RunKeeps(s, b, Start, ops);
    assert ServedOk(s, b, Run(s, Start, ops).served[i]);
  }

  ghost predicate Unchanging(s: Setting, key: string) {
    forall t, u :: s.truth(t, key) == s.truth(u, key)
  }

  /**
   Transparency: in every run, with any lost reads and writes, removals and times (also none, which never
   expire), a key whose source value does not change is served as that value, alone or as an entry of MGet.
   */
  lemma {:induction false} Transparent(s: Setting, ops: seq<Op>, i: nat, now: int)
    requires i < |Run(s, Start, ops).served|
    ensures match Run(s, Start, ops).served[i]
            case One(key, value, _) => Unchanging(s, key) ==> value == s.truth(now, key)
            case Many(values, _) =>
              forall k | k in values && Unchanging(s, k) :: values[k] == None || values[k] == Some(s.truth(now, k))
            case Failed => true
  {
    UnboundedAllowsAll(s, Start, ops);
    RunKeeps(s, Unbounded, Start, ops);
    assert ServedOk(s, Unbounded, Run(s, Start, ops).served[i]);
  }

  /** The bound needs the time: an entry written without one is served however old it is. */
  lemma {:induction false} NoTtlNoBound(s: Setting, key: string, ms: nat)
    requires s.truth(0, key) != ""
    ensures Run(s, Start, [Read(0, key, false), Compute(0, false), Write(0, 0, true), Tick(ms), Read(1, key, false)]).served
         == [One(key, s.truth(0, key), 0), One(key, s.truth(0, key), ms)]
  {
    hide Run;
    var w1 := Step(s, Start, Read(0, key, false));
    var w2 := Step(s, w1, Compute(0, false));
    var w3 := Step(s, w2, Write(0, 0, true));
    var w4 := Step(s, w3, Tick(ms));
    assert [Read(0, key, false), Compute(0, false), Write(0, 0, true), Tick(ms), Read(1, key, false)]
        == [Read(0, key, false)] + ([Compute(0, false)] + ([Write(0, 0, true)] + ([Tick(ms)] + [Read(1, key, false)])));
    RunStep(s, Start, Read(0, key, false), [Compute(0, false)] + ([Write(0, 0, true)] + ([Tick(ms)] + [Read(1, key, false)])));
    RunStep(s, w1, Compute(0, false), [Write(0, 0, true)] + ([Tick(ms)] + [Read(1, key, false)]));
    RunStep(s, w2, Write(0, 0, true), [Tick(ms)] + [Read(1, key, false)]);
    RunStep(s, w3, Tick(ms), [Read(1, key, false)]);
    RunStep(s, w4, Read(1, key, false), []);
    assert [Read(1, key, false)] + [] == [Read(1, key, false)];
    assert w2.calls[0] == Computed(key, s.truth(0, key), 0);
    assert Get(w4.db, ms, PrefixKey(s.prefix, key)) == Some(s.truth(0, key));
  }

  lemma RunStep(s: Setting, w: World, op: Op, rest: seq<Op>)
    ensures Run(s, w, [op] + rest) == Run(s, Step(s, w, op), rest)
    ensures rest == [] ==> Run(s, w, [op] + rest) == Step(s, w, op)
  {
    assert ([op] + rest)[1..] == rest;
  }
}
