/**
 The sliding-window script: a sorted set of timestamped members, pruned on every call, under a key-level
 expiry that every admission renews. `Run` plays a run of the script; `History` plays the same run on a
 limiter that keeps every admitted unit for ever. Resets do not occur in these runs.
 */
module SlidingWindow {
  import opened Redis
  import F = FixedWindow

  type Config = F.Config
  type Reply = F.Reply

  /** A sorted-set member: the client's time, the index in the call and a random number. */
  datatype Member = Member(ms: int, i: int, salt: int)

  type Zset = map<Member, int>
  type Logs = map<string, Entry<Zset>>

  function Members(db: Logs, now: int, id: string): Zset {
    match Get(db, now, id)
    case None => map[]
    case Some(z) => z
  }

  /** ZREMRANGEBYSCORE key 0 upTo; an emptied sorted set is deleted. */
  function Prune(db: Logs, now: int, id: string, upTo: int): Logs {
    if !Exists(db, now, id) then db
    else
      var kept := map m | m in db[id].value && !(0 <= db[id].value[m] <= upTo) :: db[id].value[m];
      if kept == map[] then db - {id} else db[id := Entry(kept, db[id].expiry)]
  }

  function NthMember(ms: int, i: int, salts: seq<int>): Member {
    Member(ms, i, if 1 <= i <= |salts| then salts[i - 1] else 0)
  }

  function NewMembers(ms: int, n: int, salts: seq<int>): set<Member>
    requires n <= |salts|
  {
    set i | 1 <= i <= n :: NthMember(ms, i, salts)
  }

  function Added(ms: int, n: int, salts: seq<int>): Zset
    requires n <= |salts|
  {
    map m | m in NewMembers(ms, n, salts) :: ms
  }

  /** The ZADD loop; the first ZADD creates a missing key without expiry. */
  function AddAll(db: Logs, now: int, id: string, ms: int, n: int, salts: seq<int>): Logs
    requires n <= |salts|
  {
    if n <= 0 then db
    else if Exists(db, now, id) then db[id := Entry(db[id].value + Added(ms, n, salts), db[id].expiry)]
    else db[id := Entry(Added(ms, n, salts), None)]
  }

  predicate Fits(c: Config, db: Logs, now: int, id: string, ms: int, n: int) {
    |Members(Prune(db, now, id, ms - c.window), now, id)| + n <= c.max
  }

  function After(c: Config, db: Logs, now: int, id: string, ms: int, n: int, salts: seq<int>): Logs
    requires n <= |salts|
  {
    var pruned := Prune(db, now, id, ms - c.window);
    if !Fits(c, db, now, id, ms, n) then pruned
    else Expire(AddAll(pruned, now, id, ms, n, salts), now, id, c.window)
  }

  /** Time until the oldest of the given scores leaves the window. */
  function ResetMs(c: Config, scores: set<int>, ms: int): int {
    if scores == {} then c.window
    else
      var left := Least(scores) + c.window - ms;
      if left < 0 then 0 else left
  }

  function Answer(c: Config, db: Logs, now: int, id: string, ms: int, n: int, salts: seq<int>): Reply
    requires n <= |salts|
  {
    var ok := Fits(c, db, now, id, ms, n);
    var used := |Members(Prune(db, now, id, ms - c.window), now, id)|;
    F.Reply(ok, c.max - used - (if ok then n else 0),
            ResetMs(c, Members(After(c, db, now, id, ms, n, salts), now, id).Values, ms), c.max)
  }

  // ---------- Runs ----------

  datatype Call = Allow(at: int, ms: int, id: string, n: int, salts: seq<int>)

  /** One admitted unit. */
  datatype Unit = Unit(id: string, m: Member)

  datatype World = World(db: Logs, log: seq<Unit>, replies: seq<Reply>)

  function NewUnits(call: Call): seq<Unit>
    requires call.n <= |call.salts|
  {
    if call.n <= 0 then []
    else seq(call.n, k requires 0 <= k < call.n => Unit(call.id, NthMember(call.ms, k + 1, call.salts)))
  }

  predicate Salted(calls: seq<Call>) {
    forall k | 0 <= k < |calls| :: calls[k].n <= |calls[k].salts|
  }

  function Step(c: Config, w: World, call: Call): World
    requires call.n <= |call.salts|
  {
    World(After(c, w.db, call.at, call.id, call.ms, call.n, call.salts),
          if Fits(c, w.db, call.at, call.id, call.ms, call.n) then w.log + NewUnits(call) else w.log,
          w.replies + [Answer(c, w.db, call.at, call.id, call.ms, call.n, call.salts)])
  }

  function Run(c: Config, calls: seq<Call>): World
    requires Salted(calls)
  {
    if calls == [] then World(map[], [], [])
    else Step(c, Run(c, calls[..|calls| - 1]), calls[|calls| - 1])
  }

  // ---------- The limiter that never forgets ----------

  datatype Past = Past(log: seq<Unit>, replies: seq<Reply>)

  /** Admitted units of `id` newer than `lo`. */
  function Count(log: seq<Unit>, id: string, lo: int): nat {
    if log == [] then 0
    else
      var u := log[|log| - 1];
      Count(log[..|log| - 1], id, lo) + if u.id == id && u.m.ms > lo then 1 else 0
  }

  function Times(log: seq<Unit>, id: string, lo: int): set<int> {
    set k | 0 <= k < |log| && log[k].id == id && log[k].m.ms > lo :: log[k].m.ms
  }

  function Remember(c: Config, p: Past, call: Call): Past
    requires call.n <= |call.salts|
  {
    var used := Count(p.log, call.id, call.ms - c.window);
    var ok := used + call.n <= c.max;
    var log := if ok then p.log + NewUnits(call) else p.log;
    Past(log, p.replies + [F.Reply(ok, c.max - used - (if ok then call.n else 0),
                                   ResetMs(c, Times(log, call.id, call.ms - c.window), call.ms), c.max)])
  }

  function History(c: Config, calls: seq<Call>): Past
    requires Salted(calls)
  {
    if calls == [] then Past([], [])
    else Remember(c, History(c, calls[..|calls| - 1]), calls[|calls| - 1])
  }

  // ---------- Hypotheses on runs ----------

  /** Calls arrive in time order, and the client's clock is the server's. */
  ghost predicate Clocked(calls: seq<Call>) {
    && (forall k | 0 <= k < |calls| :: 0 <= calls[k].at == calls[k].ms)
    && (forall j, k | 0 <= j < k < |calls| :: calls[j].at <= calls[k].at)
  }

  ghost predicate Collide(a: Call, b: Call) {
    a.id == b.id && a.ms == b.ms &&
    exists i :: 0 <= i < a.n && i < b.n && i < |a.salts| && i < |b.salts| && a.salts[i] == b.salts[i]
  }

  /** No two calls of one identifier in one millisecond draw the same random number at the same index. */
  ghost predicate Distinct(calls: seq<Call>) {
    forall j, k | 0 <= j < k < |calls| :: !Collide(calls[j], calls[k])
  }

  // ---------- The store against the log ----------

  ghost predicate Logged(log: seq<Unit>, id: string, m: Member) {
    exists k :: 0 <= k < |log| && log[k] == Unit(id, m)
  }

  function WindowSet(log: seq<Unit>, id: string, lo: int): set<Member> {
    set k | 0 <= k < |log| && log[k].id == id && log[k].m.ms > lo :: log[k].m
  }

  ghost predicate Dated(log: seq<Unit>, now: int) {
    forall k | 0 <= k < |log| :: 0 <= log[k].m.ms <= now
  }

  /** Nothing that still counts has been pruned or has expired. */
  ghost predicate Retained(c: Config, db: Logs, log: seq<Unit>, id: string, now: int) {
    forall k | 0 <= k < |log| && log[k].id == id && log[k].m.ms + c.window > now ::
      id in db && log[k].m in db[id].value
  }

  ghost predicate Backed(c: Config, db: Logs, log: seq<Unit>, id: string) {
    id in db ==>
      && db[id].expiry.Some?
      && (forall k | 0 <= k < |log| && log[k].id == id :: log[k].m.ms + c.window <= db[id].expiry.value)
      && (forall m | m in db[id].value :: db[id].value[m] == m.ms && Logged(log, id, m))
  }

  ghost predicate KeyFaithful(c: Config, db: Logs, log: seq<Unit>, id: string, now: int) {
    Retained(c, db, log, id, now) && Backed(c, db, log, id)
  }

  ghost predicate Faithful(c: Config, db: Logs, log: seq<Unit>, now: int) {
    Dated(log, now) && forall id :: KeyFaithful(c, db, log, id, now)
  }

  /** After pruning, the sorted set is exactly the set of logged members that are still in the window. */
  lemma PrunedIsWindow(c: Config, db: Logs, log: seq<Unit>, id: string, now: int)
    requires c.window >= 1 && Faithful(c, db, log, now)
    ensures Members(Prune(db, now, id, now - c.window), now, id).Keys == WindowSet(log, id, now - c.window)
    ensures var z := Members(Prune(db, now, id, now - c.window), now, id); forall m | m in z :: z[m] == m.ms
  {
    var z := Members(Prune(db, now, id, now - c.window), now, id);
    assert KeyFaithful(c, db, log, id, now);
    forall m | m in WindowSet(log, id, now - c.window) ensures m in z {
      var k :| 0 <= k < |log| && log[k].id == id && log[k].m == m;
    }
    forall m | m in z ensures m in WindowSet(log, id, now - c.window) {
      var k :| 0 <= k < |log| && log[k] == Unit(id, m);
    }
  }

  lemma FaithfulLater(c: Config, db: Logs, log: seq<Unit>, now: int, later: int)
    requires Faithful(c, db, log, now) && now <= later
    ensures Faithful(c, db, log, later)
  {
    forall id ensures KeyFaithful(c, db, log, id, later) {
      assert KeyFaithful(c, db, log, id, now);
    }
  }

  lemma {:induction false} RunFaithful(c: Config, calls: seq<Call>, now: int)
    requires c.window >= 1 && Salted(calls) && Clocked(calls)
    requires calls != [] ==> calls[|calls| - 1].at <= now
    ensures Faithful(c, Run(c, calls).db, Run(c, calls).log, now)
  {
    if calls != [] {
      var init, call := calls[..|calls| - 1], calls[|calls| - 1];
      RunFaithful(c, init, call.at);
      StepFaithful(c, Run(c, init), call);
      var w := Run(c, calls);
      FaithfulLater(c, w.db, w.log, call.at, now);
    }
  }

  ghost predicate FromCall(u: Unit, call: Call) {
    u.id == call.id && u.m.ms == call.ms && 1 <= u.m.i <= call.n <= |call.salts| && u.m.salt == call.salts[u.m.i - 1]
  }

  /** The units of an admitted call are exactly its new members. */
  lemma NewUnitsAre(call: Call)
    requires call.n <= |call.salts|
    ensures |NewUnits(call)| == if call.n > 0 then call.n else 0
    ensures forall k | 0 <= k < |NewUnits(call)| :: FromCall(NewUnits(call)[k], call)
    ensures forall k | 0 <= k < |NewUnits(call)| ::
              var u := NewUnits(call)[k]; u.id == call.id && u.m.ms == call.ms && u.m in NewMembers(call.ms, call.n, call.salts)
    ensures forall m | m in NewMembers(call.ms, call.n, call.salts) :: m.ms == call.ms && Logged(NewUnits(call), call.id, m)
  {
    var us := NewUnits(call);
    forall k | 0 <= k < |us| ensures us[k].m in NewMembers(call.ms, call.n, call.salts) && FromCall(us[k], call) {
      assert us[k].m == NthMember(call.ms, k + 1, call.salts);
    }
    forall m | m in NewMembers(call.ms, call.n, call.salts) ensures Logged(us, call.id, m) {
      assert us[m.i - 1] == Unit(call.id, m);
    }
  }

  lemma LoggedLater(log: seq<Unit>, more: seq<Unit>, id: string, m: Member)
    requires Logged(log, id, m) || Logged(more, id, m)
    ensures Logged(log + more, id, m)
  {
    if Logged(log, id, m) {
      var k :| 0 <= k < |log| && log[k] == Unit(id, m);
      assert (log + more)[k] == Unit(id, m);
    } else {
      var k :| 0 <= k < |more| && more[k] == Unit(id, m);
      assert (log + more)[|log| + k] == Unit(id, m);
    }
  }

  lemma BackedLater(c: Config, db: Logs, log: seq<Unit>, more: seq<Unit>, id: string)
    requires Backed(c, db, log, id)
    requires forall k | 0 <= k < |more| :: more[k].id == id ==> id in db ==> more[k].m.ms + c.window <= db[id].expiry.value
    ensures Backed(c, db, log + more, id)
  {
    if id in db {
      forall m | m in db[id].value ensures Logged(log + more, id, m) {
        LoggedLater(log, more, id, m);
      }
    }
  }

  /** A denied call only prunes, and pruning loses nothing that still counts. */
  lemma DeniedStep(c: Config, db: Logs, log: seq<Unit>, id: string, now: int)
    requires c.window >= 1 && Faithful(c, db, log, now)
    ensures var db' := Prune(db, now, id, now - c.window); Retained(c, db', log, id, now) && Backed(c, db', log, id)
  {
    PrunedIsWindow(c, db, log, id, now);
    assert KeyFaithful(c, db, log, id, now);
    var db' := Prune(db, now, id, now - c.window);
    forall k | 0 <= k < |log| && log[k].id == id && log[k].m.ms + c.window > now
      ensures id in db' && log[k].m in db'[id].value
    {
      assert log[k].m in WindowSet(log, id, now - c.window);
    }
  }

  /** An admitted call adds members of this instant and keeps the key until they leave the window. */
  lemma AdmittedStep(c: Config, pruned: Logs, log: seq<Unit>, call: Call)
    requires c.window >= 1 && call.n <= |call.salts| && 0 <= call.at == call.ms && Dated(log, call.at)
    requires Retained(c, pruned, log, call.id, call.at) && Backed(c, pruned, log, call.id)
    ensures var db' := Expire(AddAll(pruned, call.at, call.id, call.ms, call.n, call.salts), call.at, call.id, c.window);
            var log' := log + NewUnits(call);
            Retained(c, db', log', call.id, call.at) && Backed(c, db', log', call.id)
  {
    var id, now := call.id, call.at;
    var added := AddAll(pruned, now, id, call.ms, call.n, call.salts);
    var db' := Expire(added, now, id, c.window);
    var more := NewUnits(call);
    NewUnitsAre(call);
    if id in db' {
      assert Exists(added, now, id) ==> db'[id] == Entry(added[id].value, Some(now + c.window));
      forall m | m in db'[id].value ensures db'[id].value[m] == m.ms && Logged(log + more, id, m) {
        LoggedLater(log, more, id, m);
      }
    }
  }

  lemma OwnStep(c: Config, w: World, call: Call)
    requires c.window >= 1 && call.n <= |call.salts| && 0 <= call.at == call.ms
    requires Faithful(c, w.db, w.log, call.at)
    ensures KeyFaithful(c, Step(c, w, call).db, Step(c, w, call).log, call.id, call.at)
  {
    hide Fits, Prune, AddAll, Retained, Backed;
    DeniedStep(c, w.db, w.log, call.id, call.at);
    if Fits(c, w.db, call.at, call.id, call.ms, call.n) {
      AdmittedStep(c, Prune(w.db, call.at, call.id, call.at - c.window), w.log, call);
    }
  }

  lemma ForeignStep(c: Config, w: World, call: Call, id: string)
    requires call.n <= |call.salts| && id != call.id
    requires KeyFaithful(c, w.db, w.log, id, call.at)
    ensures KeyFaithful(c, Step(c, w, call).db, Step(c, w, call).log, id, call.at)
  {
    hide Fits, After, Answer, NewUnits, Retained, Backed;
    NewUnitsAre(call);
    ForeignKey(c, w.db, call, id);
    var db' := After(c, w.db, call.at, call.id, call.ms, call.n, call.salts);
    SameKey(c, w.db, db', w.log, NewUnits(call), id, call.at);
    SameKey(c, w.db, db', w.log, [], id, call.at);
    assert w.log + [] == w.log;
  }

  predicate Untouched(db: Logs, db': Logs, id: string) {
    (id in db' <==> id in db) && (id in db ==> db'[id] == db[id])
  }

  lemma ForeignKey(c: Config, db: Logs, call: Call, id: string)
    requires call.n <= |call.salts| && id != call.id
    ensures Untouched(db, After(c, db, call.at, call.id, call.ms, call.n, call.salts), id)
  {
    hide Prune, AddAll, Expire, Fits;
    var pruned := Prune(db, call.at, call.id, call.ms - c.window);
    PruneElsewhere(db, call.at, call.id, call.ms - c.window, id);
    AddElsewhere(pruned, call.at, call.id, call.ms, call.n, call.salts, c.window, id);
  }

  lemma PruneElsewhere(db: Logs, now: int, key: string, upTo: int, id: string)
    requires id != key
    ensures Untouched(db, Prune(db, now, key, upTo), id)
  {
  }

  lemma AddElsewhere(db: Logs, now: int, key: string, ms: int, n: int, salts: seq<int>, ttl: int, id: string)
    requires n <= |salts| && id != key
    ensures Untouched(db, Expire(AddAll(db, now, key, ms, n, salts), now, key, ttl), id)
  {
    hide Added;
    var added := AddAll(db, now, key, ms, n, salts);
    assert Untouched(db, added, id);
  }

  /** A key that is as before stays faithful when units of other identifiers are logged. */
  lemma SameKey(c: Config, db: Logs, db': Logs, log: seq<Unit>, more: seq<Unit>, id: string, now: int)
    requires KeyFaithful(c, db, log, id, now) && forall k | 0 <= k < |more| :: more[k].id != id
    requires Untouched(db, db', id)
    ensures KeyFaithful(c, db', log + more, id, now)
  {
    BackedLater(c, db, log, more, id);
  }

  lemma StepFaithful(c: Config, w: World, call: Call)
    requires c.window >= 1 && call.n <= |call.salts| && 0 <= call.at == call.ms
    requires Faithful(c, w.db, w.log, call.at)
    ensures Faithful(c, Step(c, w, call).db, Step(c, w, call).log, call.at)
  {
    NewUnitsAre(call);
    forall id ensures KeyFaithful(c, Step(c, w, call).db, Step(c, w, call).log, id, call.at) {
      assert KeyFaithful(c, w.db, w.log, id, call.at);
      if id == call.id {
        OwnStep(c, w, call);
      } else {
        ForeignStep(c, w, call, id);
      }
    }
  }

  // ---------- Members against units ----------

  ghost predicate NoRepeat(log: seq<Unit>, id: string, lo: int) {
    forall j, k | 0 <= j < k < |log| && log[j].id == id && log[k].id == id && log[k].m.ms > lo :: log[j].m != log[k].m
  }

  lemma WindowSetGrows(init: seq<Unit>, u: Unit, id: string, lo: int)
    ensures WindowSet(init + [u], id, lo)
         == WindowSet(init, id, lo) + if u.id == id && u.m.ms > lo then {u.m} else {}
  {
    var log := init + [u];
    assert log[|init|] == u;
    forall m | m in WindowSet(init, id, lo) ensures m in WindowSet(log, id, lo) {
      var k :| 0 <= k < |init| && init[k].id == id && init[k].m.ms > lo && init[k].m == m;
      assert log[k] == init[k];
    }
  }

  lemma NoRepeatGrows(init: seq<Unit>, u: Unit, id: string, lo: int)
    ensures NoRepeat(init + [u], id, lo) <==>
              NoRepeat(init, id, lo) && (u.id == id && u.m.ms > lo ==> u.m !in WindowSet(init, id, lo))
  {
    var log := init + [u];
    assert log[|init|] == u;
    if NoRepeat(init, id, lo) && (u.id == id && u.m.ms > lo ==> u.m !in WindowSet(init, id, lo)) {
      forall j, k | 0 <= j < k < |log| && log[j].id == id && log[k].id == id && log[k].m.ms > lo
        ensures log[j].m != log[k].m
      {
        if k == |init| {
          assert log[j] == init[j];
          assert init[j].m.ms > lo ==> init[j].m in WindowSet(init, id, lo);
        }
      }
    }
    if NoRepeat(log, id, lo) {
      forall j, k | 0 <= j < k < |init| && init[j].id == id && init[k].id == id && init[k].m.ms > lo
        ensures init[j].m != init[k].m
      {
        assert log[j].m != log[k].m;
      }
      if u.id == id && u.m.ms > lo {
        forall j | 0 <= j < |init| && init[j].id == id ensures init[j].m != u.m {
          assert log[j].m != log[|init|].m;
        }
      }
    }
  }

  /** The sorted set never counts more than the units admitted, and it counts them all iff no member is repeated. */
  lemma {:induction false} MembersVersusUnits(log: seq<Unit>, id: string, lo: int)
    ensures |WindowSet(log, id, lo)| <= Count(log, id, lo)
    ensures |WindowSet(log, id, lo)| == Count(log, id, lo) <==> NoRepeat(log, id, lo)
  {
    if log != [] {
      var init, u := log[..|log| - 1], log[|log| - 1];
      assert log == init + [u];
      MembersVersusUnits(init, id, lo);
      WindowSetGrows(init, u, id, lo);
      NoRepeatGrows(init, u, id, lo);
    }
  }

  lemma CardVersusCount(c: Config, db: Logs, log: seq<Unit>, id: string, now: int)
    requires c.window >= 1 && Faithful(c, db, log, now)
    ensures var card := |Members(Prune(db, now, id, now - c.window), now, id)|;
            && card <= Count(log, id, now - c.window)
            && (card == Count(log, id, now - c.window) <==> NoRepeat(log, id, now - c.window))
  {
    PrunedIsWindow(c, db, log, id, now);
    MembersVersusUnits(log, id, now - c.window);
    var z := Members(Prune(db, now, id, now - c.window), now, id);
    assert |z| == |z.Keys|;
  }

  /** ZCARD counts exactly the units still in the window iff none of them shares its member with another. */
  lemma CardIsCountIff(c: Config, calls: seq<Call>, id: string, now: int)
    requires c.window >= 1 && Salted(calls) && Clocked(calls)
    requires calls != [] ==> calls[|calls| - 1].at <= now
    ensures var w := Run(c, calls);
            var card := |Members(Prune(w.db, now, id, now - c.window), now, id)|;
            && card <= Count(w.log, id, now - c.window)
            && (card == Count(w.log, id, now - c.window) <==> NoRepeat(w.log, id, now - c.window))
  {
    RunFaithful(c, calls, now);
    CardVersusCount(c, Run(c, calls).db, Run(c, calls).log, id, now);
  }

  // ---------- Distinct random draws ----------

  ghost predicate FromCalls(log: seq<Unit>, calls: seq<Call>) {
    forall k | 0 <= k < |log| :: exists j :: 0 <= j < |calls| && FromCall(log[k], calls[j])
  }

  ghost predicate AllDiffer(log: seq<Unit>) {
    forall j, k | 0 <= j < k < |log| :: log[j] != log[k]
  }

  lemma {:induction false} RunAllDiffer(c: Config, calls: seq<Call>)
    requires Salted(calls) && Distinct(calls)
    ensures FromCalls(Run(c, calls).log, calls) && AllDiffer(Run(c, calls).log)
  {
    if calls != [] {
      var init, call := calls[..|calls| - 1], calls[|calls| - 1];
      assert calls == init + [call] && Distinct(init);
      RunAllDiffer(c, init);
      AllDifferStep(Run(c, init).log, init, call);
    }
  }

  lemma AllDifferStep(log: seq<Unit>, init: seq<Call>, call: Call)
    requires call.n <= |call.salts| && Distinct(init + [call]) && FromCalls(log, init) && AllDiffer(log)
    ensures FromCalls(log + NewUnits(call), init + [call]) && AllDiffer(log + NewUnits(call))
    ensures FromCalls(log, init + [call])
  {
    var calls, more := init + [call], NewUnits(call);
    NewUnitsAre(call);
    assert calls[|init|] == call;
    forall k | 0 <= k < |log| ensures exists j :: 0 <= j < |calls| && FromCall(log[k], calls[j]) {
      var j :| 0 <= j < |init| && FromCall(log[k], init[j]);
      assert FromCall(log[k], calls[j]);
    }
    forall k | 0 <= k < |more| ensures exists j :: 0 <= j < |calls| && FromCall(more[k], calls[j]) {
      assert FromCall(more[k], calls[|init|]);
    }
    forall j, k | 0 <= j < |log| && 0 <= k < |more| ensures log[j] != more[k] {
      var i :| 0 <= i < |init| && FromCall(log[j], init[i]);
      assert !Collide(calls[i], calls[|init|]);
    }
    AllDifferAppend(log, more);
  }

  lemma AllDifferAppend(log: seq<Unit>, more: seq<Unit>)
    requires AllDiffer(log) && AllDiffer(more)
    requires forall j, k | 0 <= j < |log| && 0 <= k < |more| :: log[j] != more[k]
    ensures AllDiffer(log + more)
  {
  }

  /** With distinct draws ZCARD is the number of units admitted in the last window. */
  lemma DistinctCard(c: Config, calls: seq<Call>, id: string, now: int)
    requires c.window >= 1 && Salted(calls) && Clocked(calls) && Distinct(calls)
    requires calls != [] ==> calls[|calls| - 1].at <= now
    ensures var w := Run(c, calls);
            |Members(Prune(w.db, now, id, now - c.window), now, id)| == Count(w.log, id, now - c.window)
  {
    CardIsCountIff(c, calls, id, now);
    RunAllDiffer(c, calls);
    var log := Run(c, calls).log;
    forall j, k | 0 <= j < k < |log| && log[j].id == id && log[k].id == id && log[k].m.ms > now - c.window
      ensures log[j].m != log[k].m
    {
      assert log[j] != log[k];
    }
  }

  /** A first call within the limit is admitted whole. */
  lemma FirstCall(c: Config, call: Call)
    requires 0 <= call.n <= |call.salts| && call.n <= c.max
    ensures Salted([call]) && Run(c, [call]).log == NewUnits(call)
  {
    assert [call][..0] == [];
    assert [] + NewUnits(call) == NewUnits(call);
  }

  lemma {:induction false} CountAll(log: seq<Unit>, id: string, lo: int)
    requires forall k | 0 <= k < |log| :: log[k].id == id && log[k].m.ms > lo
    ensures Count(log, id, lo) == |log|
  {
    if log != [] {
      CountAll(log[..|log| - 1], id, lo);
    }
  }

  // ---------- The script refines the limiter that never forgets ----------

  /** A faithful store whose members are all recent has exactly the times of the window. */
  lemma RecentIsWindow(c: Config, db: Logs, log: seq<Unit>, id: string, now: int)
    requires c.window >= 1 && KeyFaithful(c, db, log, id, now)
    requires forall m | m in Members(db, now, id) :: m.ms > now - c.window
    ensures Members(db, now, id).Values == Times(log, id, now - c.window)
  {
  }

  /** Right after a call the sorted set holds exactly the units of the window, the new ones included. */
  lemma AfterIsWindow(c: Config, w: World, call: Call)
    requires c.window >= 1 && call.n <= |call.salts| && 0 <= call.at == call.ms
    requires Faithful(c, w.db, w.log, call.at)
    ensures var w' := Step(c, w, call);
            Members(w'.db, call.at, call.id).Values == Times(w'.log, call.id, call.at - c.window)
  {
    hide Step, Members, KeyFaithful, Times;
    var w' := Step(c, w, call);
    StepFaithful(c, w, call);
    assert KeyFaithful(c, w'.db, w'.log, call.id, call.at);
    forall m | m in Members(w'.db, call.at, call.id) ensures m.ms > call.at - c.window {
      MembersRecent(c, w, call, m);
    }
    RecentIsWindow(c, w'.db, w'.log, call.id, call.at);
  }

  lemma MembersRecent(c: Config, w: World, call: Call, m: Member)
    requires c.window >= 1 && call.n <= |call.salts| && 0 <= call.at == call.ms
    requires Faithful(c, w.db, w.log, call.at)
    requires m in Members(Step(c, w, call).db, call.at, call.id)
    ensures m.ms > call.at - c.window
  {
    PrunedIsWindow(c, w.db, w.log, call.id, call.at);
    NewUnitsAre(call);
    var pruned := Prune(w.db, call.at, call.id, call.at - c.window);
    assert m in Members(pruned, call.at, call.id) || m in NewMembers(call.ms, call.n, call.salts);
  }

  /** Every reply of the script is the reply of the limiter that keeps all admitted units for ever. */
  lemma {:induction false} RefinesHistory(c: Config, calls: seq<Call>)
    requires c.window >= 1 && Salted(calls) && Clocked(calls) && Distinct(calls)
    ensures Run(c, calls).replies == History(c, calls).replies
    ensures Run(c, calls).log == History(c, calls).log
  {
    if calls != [] {
      var init, call := calls[..|calls| - 1], calls[|calls| - 1];
      assert Distinct(init);
      RefinesHistory(c, init);
      RefinesOnce(c, init, call);
    }
  }

  lemma RefinesOnce(c: Config, init: seq<Call>, call: Call)
    requires c.window >= 1 && Salted(init) && Clocked(init) && Distinct(init)
    requires init != [] ==> init[|init| - 1].at <= call.at
    requires call.n <= |call.salts| && 0 <= call.at == call.ms
    requires Run(c, init).replies == History(c, init).replies && Run(c, init).log == History(c, init).log
    ensures Step(c, Run(c, init), call).log == Remember(c, History(c, init), call).log
    ensures Step(c, Run(c, init), call).replies == Remember(c, History(c, init), call).replies
  {
    DistinctCard(c, init, call.id, call.at);
    RunFaithful(c, init, call.at);
    RefinesStep(c, Run(c, init), History(c, init), call);
  }

  lemma RefinesStep(c: Config, w: World, p: Past, call: Call)
    requires c.window >= 1 && call.n <= |call.salts| && 0 <= call.at == call.ms
    requires Faithful(c, w.db, w.log, call.at) && w.log == p.log && w.replies == p.replies
    requires |Members(Prune(w.db, call.at, call.id, call.at - c.window), call.at, call.id)|
          == Count(w.log, call.id, call.at - c.window)
    ensures Step(c, w, call).log == Remember(c, p, call).log
    ensures Step(c, w, call).replies == Remember(c, p, call).replies
  {
    hide Fits, Answer, After, Prune, Members, Faithful, AddAll, ResetMs, Times, NewUnits, Count;
    SameReply(c, w, call);
  }

  lemma SameReply(c: Config, w: World, call: Call)
    requires c.window >= 1 && call.n <= |call.salts| && 0 <= call.at == call.ms
    requires Faithful(c, w.db, w.log, call.at)
    requires |Members(Prune(w.db, call.at, call.id, call.at - c.window), call.at, call.id)|
          == Count(w.log, call.id, call.at - c.window)
    ensures var used := Count(w.log, call.id, call.ms - c.window);
            var ok := used + call.n <= c.max;
            var log := if ok then w.log + NewUnits(call) else w.log;
            && Fits(c, w.db, call.at, call.id, call.ms, call.n) == ok
            && Answer(c, w.db, call.at, call.id, call.ms, call.n, call.salts)
            == F.Reply(ok, c.max - used - (if ok then call.n else 0),
                       ResetMs(c, Times(log, call.id, call.ms - c.window), call.ms), c.max)
  {
    hide Prune, AddAll, Faithful, Times;
    AfterIsWindow(c, w, call);
    assert Step(c, w, call).db == After(c, w.db, call.at, call.id, call.ms, call.n, call.salts);
  }

  // ---------- The bound over every interval ----------

  function CountIn(log: seq<Unit>, id: string, lo: int, hi: int): nat {
    if log == [] then 0
    else
      var u := log[|log| - 1];
      CountIn(log[..|log| - 1], id, lo, hi) + if u.id == id && lo < u.m.ms <= hi then 1 else 0
  }

  lemma {:induction false} CountInBelow(log: seq<Unit>, id: string, lo: int, lo': int, hi: int)
    requires lo' <= lo
    ensures CountIn(log, id, lo, hi) <= Count(log, id, lo')
  {
    if log != [] {
      CountInBelow(log[..|log| - 1], id, lo, lo', hi);
    }
  }

  lemma {:induction false} CountAppend(log: seq<Unit>, more: seq<Unit>, id: string, lo: int, hi: int, ms: int)
    requires forall k | 0 <= k < |more| :: more[k].m.ms == ms
    ensures Count(log + more, id, lo) <= Count(log, id, lo) + |more|
    ensures ms > hi || (forall k | 0 <= k < |more| :: more[k].id != id) ==>
              CountIn(log + more, id, lo, hi) == CountIn(log, id, lo, hi)
  {
    if more == [] {
      assert log + more == log;
    } else {
      var init, u := more[..|more| - 1], more[|more| - 1];
      assert (log + more)[..|log + more| - 1] == log + init;
      CountAppend(log, init, id, lo, hi, ms);
    }
  }

  /** Whole-run bound: for every t, at most max units are admitted with times in (t - window, t]. */
  lemma {:induction false} IntervalBound(c: Config, calls: seq<Call>, id: string, t: int)
    requires c.window >= 1 && Salted(calls) && Clocked(calls) && Distinct(calls)
    ensures CountIn(Run(c, calls).log, id, t - c.window, t) <= F.Cap(c)
  {
    if calls != [] {
      var init, call := calls[..|calls| - 1], calls[|calls| - 1];
      assert Distinct(init);
      IntervalBound(c, init, id, t);
      BoundOnce(c, init, call, id, t);
    }
  }

  lemma BoundOnce(c: Config, init: seq<Call>, call: Call, id: string, t: int)
    requires c.window >= 1 && Salted(init) && Clocked(init) && Distinct(init)
    requires init != [] ==> init[|init| - 1].at <= call.at
    requires call.n <= |call.salts| && call.at == call.ms
    requires CountIn(Run(c, init).log, id, t - c.window, t) <= F.Cap(c)
    ensures CountIn(Step(c, Run(c, init), call).log, id, t - c.window, t) <= F.Cap(c)
  {
    DistinctCard(c, init, call.id, call.at);
    BoundStep(c, Run(c, init), call, id, t);
  }

  lemma BoundStep(c: Config, w: World, call: Call, id: string, t: int)
    requires call.n <= |call.salts| && call.at == call.ms
    requires |Members(Prune(w.db, call.at, call.id, call.at - c.window), call.at, call.id)|
          == Count(w.log, call.id, call.at - c.window)
    requires CountIn(w.log, id, t - c.window, t) <= F.Cap(c)
    ensures CountIn(Step(c, w, call).log, id, t - c.window, t) <= F.Cap(c)
  {
    hide Answer, After, Prune, Members, NewUnits, Count, CountIn;
    if Count(w.log, call.id, call.at - c.window) + call.n <= c.max {
      AdmittedWithin(c, w.log, call, id, t);
    }
  }

  lemma CapIs(c: Config)
    ensures F.Cap(c) >= c.max
  {
  }

  /** Admitted units either fall outside (t - window, t] or join no more than the script counted. */
  lemma AdmittedWithin(c: Config, log: seq<Unit>, call: Call, id: string, t: int)
    requires call.n <= |call.salts| && call.at == call.ms
    requires Count(log, call.id, call.at - c.window) + call.n <= c.max
    requires CountIn(log, id, t - c.window, t) <= F.Cap(c)
    ensures CountIn(log + NewUnits(call), id, t - c.window, t) <= F.Cap(c)
  {
    hide *;
    var more := NewUnits(call);
    NewUnitsAre(call);
    assert F.Cap(c) >= c.max by { CapIs(c); }
    if more == [] {
      assert log + more == log;
    } else if call.id == id && call.ms <= t {
      CountAppend(log, more, id, call.at - c.window, t, call.ms);
      CountInBelow(log + more, id, t - c.window, call.at - c.window, t);
    } else {
      CountAppend(log, more, id, t - c.window, t, call.ms);
    }
  }

  /** The distinct members of the units admitted with times in (lo, hi]. */
  function MembersIn(log: seq<Unit>, id: string, lo: int, hi: int): set<Member> {
    set k | 0 <= k < |log| && log[k].id == id && lo < log[k].m.ms <= hi :: log[k].m
  }

  /** The units admitted with times in (lo, hi] whose member had been admitted before. */
  function Repeats(log: seq<Unit>, id: string, lo: int, hi: int): nat {
    if log == [] then 0
    else
      var init, u := log[..|log| - 1], log[|log| - 1];
      Repeats(init, id, lo, hi) + if u.id == id && lo < u.m.ms <= hi && u.m in MembersIn(init, id, lo, hi) then 1 else 0
  }

  lemma MembersInGrows(init: seq<Unit>, u: Unit, id: string, lo: int, hi: int)
    ensures MembersIn(init + [u], id, lo, hi)
         == MembersIn(init, id, lo, hi) + if u.id == id && lo < u.m.ms <= hi then {u.m} else {}
  {
    var log := init + [u];
    assert log[|init|] == u;
    forall m | m in MembersIn(init, id, lo, hi) ensures m in MembersIn(log, id, lo, hi) {
      var k :| 0 <= k < |init| && init[k].id == id && lo < init[k].m.ms <= hi && init[k].m == m;
      assert log[k] == init[k];
    }
  }

  lemma {:induction false} UnitsAreMembersAndRepeats(log: seq<Unit>, id: string, lo: int, hi: int)
    ensures CountIn(log, id, lo, hi) == |MembersIn(log, id, lo, hi)| + Repeats(log, id, lo, hi)
  {
    hide MembersIn;
    if log != [] {
      var init, u := log[..|log| - 1], log[|log| - 1];
      UnitsAreMembersAndRepeats(init, id, lo, hi);
      assert log == init + [u];
      MembersInGrows(init, u, id, lo, hi);
      AddedCard(MembersIn(init, id, lo, hi), u.m);
    } else {
      NoMembers(id, lo, hi);
    }
  }

  lemma AddedCard<T>(s: set<T>, x: T)
    ensures |s + {x}| == |s| + (if x in s then 0 else 1) && s + {} == s
  {
    assert x in s ==> s + {x} == s;
  }

  lemma NoMembers(id: string, lo: int, hi: int)
    ensures MembersIn([], id, lo, hi) == {}
  {
  }

  /** Whatever the draws, at most max distinct members are admitted with times in (t - window, t]. */
  lemma {:induction false} MembersBound(c: Config, calls: seq<Call>, id: string, t: int)
    requires c.window >= 1 && Salted(calls) && Clocked(calls)
    ensures |MembersIn(Run(c, calls).log, id, t - c.window, t)| <= F.Cap(c)
  {
    if calls != [] {
      var init, call := calls[..|calls| - 1], calls[|calls| - 1];
      MembersBound(c, init, id, t);
      RunFaithful(c, init, call.at);
      MembersStep(c, Run(c, init), call, id, t);
    }
  }

  lemma MembersStep(c: Config, w: World, call: Call, id: string, t: int)
    requires c.window >= 1 && call.n <= |call.salts| && 0 <= call.at == call.ms && Faithful(c, w.db, w.log, call.at)
    requires |MembersIn(w.log, id, t - c.window, t)| <= F.Cap(c)
    ensures |MembersIn(Step(c, w, call).log, id, t - c.window, t)| <= F.Cap(c)
  {
    hide Prune, NewUnits, Faithful, MembersIn, WindowSet, NewMembers, F.Cap;
    PrunedIsWindow(c, w.db, w.log, call.id, call.at);
    var z := Members(Prune(w.db, call.at, call.id, call.at - c.window), call.at, call.id);
    assert |z| == |z.Keys|;
    if Fits(c, w.db, call.at, call.id, call.ms, call.n) {
      MembersJoin(c, w.log, call, id, t);
    }
  }

  lemma MembersJoin(c: Config, log: seq<Unit>, call: Call, id: string, t: int)
    requires call.n <= |call.salts| && call.at == call.ms
    requires |WindowSet(log, call.id, call.at - c.window)| + call.n <= c.max
    requires |MembersIn(log, id, t - c.window, t)| <= F.Cap(c)
    ensures |MembersIn(log + NewUnits(call), id, t - c.window, t)| <= F.Cap(c)
  {
    hide NewUnits, MembersIn, WindowSet, NewMembers;
    var more, lo := NewUnits(call), t - c.window;
    NewUnitsAre(call);
    if call.n <= 0 {
      assert log + more == log;
    } else if call.id == id && call.ms <= t {
      var held, added := WindowSet(log, id, call.at - c.window), NewMembers(call.ms, call.n, call.salts);
      JoinsWindow(log, more, id, lo, t, call.at - c.window, added);
      SubsetCard(MembersIn(log + more, id, lo, t), held + added);
      NewMembersCard(call.ms, call.n, call.salts);
    } else {
      JoinsNone(log, more, id, lo, t);
    }
  }

  lemma JoinsWindow(log: seq<Unit>, more: seq<Unit>, id: string, lo: int, hi: int, lo': int, added: set<Member>)
    requires lo' <= lo && forall k | 0 <= k < |more| :: more[k].m in added
    ensures MembersIn(log + more, id, lo, hi) <= WindowSet(log, id, lo') + added
  {
    forall m | m in MembersIn(log + more, id, lo, hi) ensures m in WindowSet(log, id, lo') + added {
      var k :| 0 <= k < |log + more| && (log + more)[k].id == id && lo < (log + more)[k].m.ms <= hi && (log + more)[k].m == m;
    }
  }

  lemma JoinsNone(log: seq<Unit>, more: seq<Unit>, id: string, lo: int, hi: int)
    requires forall k | 0 <= k < |more| :: more[k].id != id || more[k].m.ms > hi
    ensures MembersIn(log + more, id, lo, hi) == MembersIn(log, id, lo, hi)
  {
    forall m | m in MembersIn(log, id, lo, hi) ensures m in MembersIn(log + more, id, lo, hi) {
      var k :| 0 <= k < |log| && log[k].id == id && lo < log[k].m.ms <= hi && log[k].m == m;
      assert (log + more)[k] == log[k];
    }
    forall m | m in MembersIn(log + more, id, lo, hi) ensures m in MembersIn(log, id, lo, hi) {
      var k :| 0 <= k < |log + more| && (log + more)[k].id == id && lo < (log + more)[k].m.ms <= hi && (log + more)[k].m == m;
    }
  }

  /** Whole-run bound for any draws: the units in (t - window, t] exceed max by no more than the repeated members. */
  lemma AnyDrawsBound(c: Config, calls: seq<Call>, id: string, t: int)
    requires c.window >= 1 && Salted(calls) && Clocked(calls)
    ensures var log := Run(c, calls).log;
            CountIn(log, id, t - c.window, t) <= F.Cap(c) + Repeats(log, id, t - c.window, t)
  {
    hide *;
    MembersBound(c, calls, id, t);
    UnitsAreMembersAndRepeats(Run(c, calls).log, id, t - c.window, t);
  }

  /** Without distinct draws the bound fails: two equal draws in one millisecond let a third unit through a limit of two. */
  lemma CollisionBreaksBound(id: string, r: int)
    ensures var calls := seq(3, _ => Allow(0, 0, id, 1, [r]));
            && Clocked(calls) && Salted(calls)
            && CountIn(Run(F.Config(2, 10), calls).log, id, -10, 0) == 3
  {
    var c, call := F.Config(2, 10), Allow(0, 0, id, 1, [r]);
    var calls, u := seq(3, _ => call), Unit(id, Member(0, 1, r));
    assert calls[..2] == [call, call];
    CollidingRun(id, r);
    CollidingCall(id, r, Run(c, [call, call]));
    ThreeUnits(id, u);
    assert Run(c, calls).log == [u, u] + [u];
  }

  lemma ThreeUnits(id: string, u: Unit)
    requires u.id == id && u.m.ms == 0
    ensures CountIn([u, u] + [u], id, -10, 0) == 3
  {
    assert ([u, u] + [u])[..2] == [u, u] && [u, u][..1] == [u] && [u][..0] == [];
    assert CountIn([u], id, -10, 0) == 1;
  }

  lemma CollidingRun(id: string, r: int)
    ensures var call := Allow(0, 0, id, 1, [r]);
            var w := Run(F.Config(2, 10), [call, call]);
            && w.db == map[id := Entry(map[Member(0, 1, r) := 0], Some(10))]
            && w.log == [Unit(id, Member(0, 1, r)), Unit(id, Member(0, 1, r))]
  {
    var c, call := F.Config(2, 10), Allow(0, 0, id, 1, [r]);
    assert [call, call][..1] == [call] && [call][..0] == [];
    CollidingCall(id, r, Run(c, []));
    CollidingCall(id, r, Run(c, [call]));
  }

  /** ZREMRANGEBYSCORE up to a negative score removes nothing. */
  lemma NothingToPrune(id: string, z: Zset, m: Member, expiry: Option<int>, upTo: int)
    requires upTo < 0 && m in z
    ensures var db: Logs := map[id := Entry(z, expiry)]; Prune(db, 0, id, upTo) == db
  {
    var kept := map k | k in z && !(0 <= z[k] <= upTo) :: z[k];
    assert kept.Keys == z.Keys && m in kept;
    assert kept == z;
  }

  lemma CollidingCall(id: string, r: int, w: World)
    requires w.db == map[] || w.db == map[id := Entry(map[Member(0, 1, r) := 0], Some(10))]
    ensures var w' := Step(F.Config(2, 10), w, Allow(0, 0, id, 1, [r]));
            && w'.db == map[id := Entry(map[Member(0, 1, r) := 0], Some(10))]
            && w'.log == w.log + [Unit(id, Member(0, 1, r))]
  {
    var m, db := Member(0, 1, r), w.db;
    var z: Zset := map[m := 0];
    assert NthMember(0, 1, [r]) == m;
    assert NewMembers(0, 1, [r]) == {m};
    assert Added(0, 1, [r]) == z;
    assert NewUnits(Allow(0, 0, id, 1, [r])) == [Unit(id, m)];
    if db != map[] {
      NothingToPrune(id, z, m, Some(10), -10);
      assert |z| == 1;
      assert z + z == z;
    }
  }

  // ---------- The reset promise ----------

  ghost predicate StoreOk(c: Config, db: Logs, now: int) {
    forall id | id in db ::
      && |db[id].value| <= F.Cap(c)
      && forall m | m in db[id].value :: 0 <= db[id].value[m] <= now
  }

  lemma {:induction false} NewMembersCard(ms: int, n: nat, salts: seq<int>)
    requires n <= |salts|
    ensures |NewMembers(ms, n, salts)| <= n
  {
    if n == 0 {
      assert NewMembers(ms, n, salts) == {};
    } else {
      NewMembersCard(ms, n - 1, salts);
      assert NewMembers(ms, n, salts) == NewMembers(ms, n - 1, salts) + {NthMember(ms, n, salts)};
    }
  }

  lemma SubmapCard<K, V>(small: map<K, V>, big: map<K, V>)
    requires small.Keys <= big.Keys
    ensures |small| <= |big|
    ensures small.Keys != big.Keys ==> |small| < |big|
  {
    assert big.Keys == small.Keys + (big.Keys - small.Keys);
    assert |small| == |small.Keys| && |big| == |big.Keys|;
  }

  lemma UnionCard<K, V>(a: map<K, V>, b: map<K, V>)
    ensures |a + b| <= |a| + |b|
  {
    assert (a + b).Keys == a.Keys + (b.Keys - a.Keys);
    assert |a + b| == |(a + b).Keys| && |b.Keys - a.Keys| <= |b.Keys|;
  }

  /** Pruning only takes members away. */
  lemma PruneShrinks(c: Config, db: Logs, now: int, id: string, upTo: int)
    requires StoreOk(c, db, now)
    ensures StoreOk(c, Prune(db, now, id, upTo), now)
  {
    if Exists(db, now, id) {
      var kept := map m | m in db[id].value && !(0 <= db[id].value[m] <= upTo) :: db[id].value[m];
      SubmapCard(kept, db[id].value);
    }
  }

  lemma StoreStep(c: Config, db: Logs, call: Call)
    requires c.window >= 1 && call.n <= |call.salts| && 0 <= call.at == call.ms && StoreOk(c, db, call.at)
    ensures StoreOk(c, After(c, db, call.at, call.id, call.ms, call.n, call.salts), call.at)
  {
    hide Prune, AddAll, StoreOk, Members, Expire;
    PruneShrinks(c, db, call.at, call.id, call.ms - c.window);
    if Fits(c, db, call.at, call.id, call.ms, call.n) {
      AddStep(c, Prune(db, call.at, call.id, call.ms - c.window), call);
    }
  }

  /** Added members carry this instant's score and cannot take the card above the limit. */
  lemma AddStep(c: Config, pruned: Logs, call: Call)
    requires c.window >= 1 && call.n <= |call.salts| && 0 <= call.at == call.ms && StoreOk(c, pruned, call.at)
    requires |Members(pruned, call.at, call.id)| + call.n <= c.max
    ensures StoreOk(c, Expire(AddAll(pruned, call.at, call.id, call.ms, call.n, call.salts), call.at, call.id, c.window), call.at)
  {
    hide AddAll, Expire, Members, StoreOk;
    var grown := AddAll(pruned, call.at, call.id, call.ms, call.n, call.salts);
    if call.n >= 1 {
      GrownCard(c, pruned, call);
      GrownOk(c, pruned, call);
    } else {
      NothingAdded(pruned, call);
    }
    ExpireOk(c, grown, call.at, call.id);
  }

  lemma NothingAdded(db: Logs, call: Call)
    requires call.n <= 0
    ensures AddAll(db, call.at, call.id, call.ms, call.n, call.salts) == db
  {
  }

  lemma GrownOk(c: Config, pruned: Logs, call: Call)
    requires 1 <= call.n <= |call.salts| && 0 <= call.at == call.ms && StoreOk(c, pruned, call.at)
    requires |AddAll(pruned, call.at, call.id, call.ms, call.n, call.salts)[call.id].value| <= c.max
    ensures StoreOk(c, AddAll(pruned, call.at, call.id, call.ms, call.n, call.salts), call.at)
  {
    hide NewMembers;
  }

  lemma ExpireOk(c: Config, db: Logs, now: int, id: string)
    requires c.window >= 1 && StoreOk(c, db, now)
    ensures StoreOk(c, Expire(db, now, id, c.window), now)
  {
  }

  lemma GrownCard(c: Config, pruned: Logs, call: Call)
    requires 1 <= call.n <= |call.salts| && call.at == call.ms
    requires |Members(pruned, call.at, call.id)| + call.n <= c.max
    ensures |AddAll(pruned, call.at, call.id, call.ms, call.n, call.salts)[call.id].value| <= c.max
  {
    var added := Added(call.ms, call.n, call.salts);
    NewMembersCard(call.ms, call.n, call.salts);
    assert added.Keys == NewMembers(call.ms, call.n, call.salts) && |added| == |added.Keys|;
    UnionCard(Members(pruned, call.at, call.id), added);
  }

  /** The card bound and the score range hold in every reachable store, whatever the random draws. */
  lemma {:induction false} ReachableStore(c: Config, calls: seq<Call>, now: int)
    requires c.window >= 1 && Salted(calls) && Clocked(calls)
    requires calls != [] ==> calls[|calls| - 1].at <= now
    ensures StoreOk(c, Run(c, calls).db, now)
  {
    if calls != [] {
      var init, call := calls[..|calls| - 1], calls[|calls| - 1];
      ReachableStore(c, init, call.at);
      StoreStep(c, Run(c, init).db, call);
    }
  }

  ghost predicate PromiseKept(c: Config, db: Logs, id: string, now: int, salts: seq<int>)
    requires |salts| >= 1
  {
    var r := Answer(c, db, now, id, now, 1, salts);
    var later := now + r.resetMs;
    0 < r.resetMs <= c.window && Fits(c, After(c, db, now, id, now, 1, salts), later, id, later, 1)
  }

  /**
   A one-unit request denied now is admitted at the reported reset time if nothing is admitted meanwhile,
   whatever the random draws; that time is never zero and never more than a window away.
   */
  lemma {:induction false} ResetPromise(c: Config, calls: seq<Call>, id: string, now: int, salts: seq<int>)
    requires c.window >= 1 && c.max >= 1 && Salted(calls) && Clocked(calls) && 0 <= now && |salts| >= 1
    requires calls != [] ==> calls[|calls| - 1].at <= now
    requires !Fits(c, Run(c, calls).db, now, id, now, 1)
    ensures PromiseKept(c, Run(c, calls).db, id, now, salts)
  {
    ReachableStore(c, calls, now);
    DeniedThenAdmitted(c, Run(c, calls).db, id, now, salts);
  }

  /** Until the oldest member's window ends, at a time before its key expires, pruning removes nothing. */
  lemma NoneLeaves(c: Config, p: Logs, id: string, t: int)
    requires Exists(p, t, id) && p[id].value.Values != {}
    requires forall m | m in p[id].value :: t - c.window < p[id].value[m]
    ensures Members(Prune(p, t, id, t - c.window), t, id) == p[id].value
  {
    var z := p[id].value;
    var kept := map m | m in z && !(0 <= z[m] <= t - c.window) :: z[m];
    assert kept == z;
    var s := AnElement(z.Values);
    var m :| m in z && z[m] == s;
    assert m in kept;
  }

  /** The reported reset time is the earliest: before it a one-unit request is denied at every instant. */
  lemma {:induction false} ResetIsEarliest(c: Config, calls: seq<Call>, id: string, now: int, salts: seq<int>, t: int)
    requires c.window >= 1 && c.max >= 1 && Salted(calls) && Clocked(calls) && 0 <= now && |salts| >= 1
    requires calls != [] ==> calls[|calls| - 1].at <= now
    requires !Fits(c, Run(c, calls).db, now, id, now, 1)
    requires now <= t < now + Answer(c, Run(c, calls).db, now, id, now, 1, salts).resetMs
    ensures !Fits(c, After(c, Run(c, calls).db, now, id, now, 1, salts), t, id, t, 1)
  {
    hide Run, Faithful, AddAll;
    var db, log := Run(c, calls).db, Run(c, calls).log;
    ReachableStore(c, calls, now);
    RunFaithful(c, calls, now);
    DeniedStep(c, db, log, id, now);
    FullZset(c, db, id, now);
    DeniedUntil(c, db, log, id, now, salts, t);
  }

  lemma DeniedUntil(c: Config, db: Logs, log: seq<Unit>, id: string, now: int, salts: seq<int>, t: int)
    requires c.window >= 1 && |salts| >= 1 && !Fits(c, db, now, id, now, 1)
    requires var p := Prune(db, now, id, now - c.window);
             Members(p, now, id).Values != {} && Backed(c, p, log, id)
    requires now <= t < now + Answer(c, db, now, id, now, 1, salts).resetMs
    ensures !Fits(c, After(c, db, now, id, now, 1, salts), t, id, t, 1)
  {
    hide Prune, AddAll, Least;
    var p := Prune(db, now, id, now - c.window);
    var z := p[id].value;
    var oldest := Least(z.Values);
    assert t < oldest + c.window;
    forall m | m in z ensures t < z[m] + c.window <= p[id].expiry.value {
      assert z[m] in z.Values && Logged(log, id, m);
      var k :| 0 <= k < |log| && log[k] == Unit(id, m);
    }
    var m :| m in z && z[m] == oldest;
    NoneLeaves(c, p, id, t);
  }

  // ---------- Replies, read off the log ----------

  /** The reset time for any scores, also after the client's clock has jumped: it is never negative. */
  lemma ResetSpelled(c: Config, scores: set<int>, ms: int, oldest: int)
    requires oldest in scores && forall s | s in scores :: oldest <= s
    ensures ResetMs(c, scores, ms) == if oldest + c.window >= ms then oldest + c.window - ms else 0
    ensures ResetMs(c, {}, ms) == c.window
  {
    assert Least(scores) == oldest;
  }

  /** Verdict and remaining of every reply, in terms of the units admitted before it. */
  lemma {:induction false} ReplyFromLog(c: Config, calls: seq<Call>, call: Call)
    requires c.window >= 1 && Salted(calls + [call]) && Clocked(calls + [call]) && Distinct(calls)
    ensures var w, w' := Run(c, calls), Run(c, calls + [call]);
            var r, used := w'.replies[|w'.replies| - 1], Count(w.log, call.id, call.ms - c.window);
            && (r.allowed <==> used + call.n <= c.max)
            && r.remaining == c.max - used - (if r.allowed then call.n else 0)
            && r.total == c.max
            && w'.log == w.log + if r.allowed then NewUnits(call) else []
  {
    hide *;
    LastCall(c, calls, call);
    DistinctCard(c, calls, call.id, call.at);
    StepSpelled(c, Run(c, calls), call);
  }

  lemma StepSpelled(c: Config, w: World, call: Call)
    requires call.n <= |call.salts| && call.at == call.ms
    ensures var w' := Step(c, w, call);
            var used := |Members(Prune(w.db, call.at, call.id, call.at - c.window), call.at, call.id)|;
            && w'.replies != []
            && (w'.replies[|w'.replies| - 1].allowed <==> used + call.n <= c.max)
            && w'.replies[|w'.replies| - 1].remaining == c.max - used - (if used + call.n <= c.max then call.n else 0)
            && w'.replies[|w'.replies| - 1].total == c.max
            && w'.log == w.log + if used + call.n <= c.max then NewUnits(call) else []
  {
    hide NewUnits, Prune, AddAll, ResetMs, After, Members;
    assert w.log + [] == w.log;
  }

  lemma LastCall(c: Config, calls: seq<Call>, call: Call)
    requires Salted(calls + [call]) && Clocked(calls + [call])
    ensures Salted(calls) && Clocked(calls) && call.n <= |call.salts| && 0 <= call.at == call.ms
    ensures calls != [] ==> calls[|calls| - 1].at <= call.at
    ensures Run(c, calls + [call]) == Step(c, Run(c, calls), call)
  {
    var all := calls + [call];
    assert all[..|calls|] == calls && all[|calls|] == call;
    forall k | 0 <= k < |calls| ensures calls[k].n <= |calls[k].salts| && 0 <= calls[k].at == calls[k].ms && calls[k].at <= call.at {
      assert all[k] == calls[k];
    }
    forall j, k | 0 <= j < k < |calls| ensures calls[j].at <= calls[k].at {
      assert all[j].at <= all[k].at;
    }
  }

  /** An admitted unit of `id` that is in the window at `now`. */
  predicate Counts(u: Unit, id: string, now: int, window: int) {
    u.id == id && u.m.ms > now - window
  }

  /**
   The reset time of every reply, whatever the draws: the time until the first unit leaves the window, of those
   admitted so far including this call's; a full window if there is none.
   */
  lemma {:induction false} ResetFromLog(c: Config, calls: seq<Call>, call: Call)
    requires c.window >= 1 && Salted(calls + [call]) && Clocked(calls + [call])
    ensures var w := Run(c, calls + [call]);
            var log, reset := w.log, w.replies[|w.replies| - 1].resetMs;
            && (forall k | 0 <= k < |log| && Counts(log[k], call.id, call.at, c.window) ::
                  reset <= log[k].m.ms + c.window - call.at)
            && ((exists k :: 0 <= k < |log| && Counts(log[k], call.id, call.at, c.window)
                       && reset == log[k].m.ms + c.window - call.at)
                || ((forall k | 0 <= k < |log| :: !Counts(log[k], call.id, call.at, c.window)) && reset == c.window))
  {
    hide Run, Faithful, Step, Fits;
    LastCall(c, calls, call);
    RunFaithful(c, calls, call.at);
    var w, w' := Run(c, calls), Run(c, calls + [call]);
    AfterIsWindow(c, w, call);
    StepReply(c, w, call);
    var times := Times(w'.log, call.id, call.at - c.window);
    TimesReset(c, w'.log, call.id, call.at, ResetMs(c, times, call.at));
  }

  lemma StepReply(c: Config, w: World, call: Call)
    requires call.n <= |call.salts| && call.at == call.ms
    ensures var w' := Step(c, w, call);
            w'.replies[|w'.replies| - 1].resetMs == ResetMs(c, Members(w'.db, call.at, call.id).Values, call.at)
  {
  }

  lemma TimesReset(c: Config, log: seq<Unit>, id: string, now: int, reset: int)
    requires c.window >= 1 && reset == ResetMs(c, Times(log, id, now - c.window), now)
    ensures forall k | 0 <= k < |log| && Counts(log[k], id, now, c.window) :: reset <= log[k].m.ms + c.window - now
    ensures (exists k :: 0 <= k < |log| && Counts(log[k], id, now, c.window) && reset == log[k].m.ms + c.window - now)
         || ((forall k | 0 <= k < |log| :: !Counts(log[k], id, now, c.window)) && reset == c.window)
  {
    var times := Times(log, id, now - c.window);
    forall k | 0 <= k < |log| && Counts(log[k], id, now, c.window) ensures log[k].m.ms in times {
    }
    if times != {} {
      var least := Least(times);
      var k :| 0 <= k < |log| && log[k].id == id && log[k].m.ms > now - c.window && log[k].m.ms == least;
      assert Counts(log[k], id, now, c.window);
    }
  }

  lemma {:induction false} DeniedThenAdmitted(c: Config, db: Logs, id: string, now: int, salts: seq<int>)
    requires c.window >= 1 && c.max >= 1 && 0 <= now && |salts| >= 1
    requires StoreOk(c, db, now) && !Fits(c, db, now, id, now, 1)
    ensures PromiseKept(c, db, id, now, salts)
  {
    hide Prune, AddAll;
    var p := Prune(db, now, id, now - c.window);
    var z := Members(p, now, id);
    PruneShrinks(c, db, now, id, now - c.window);
    FullZset(c, db, id, now);
    var oldest := Least(z.Values);
    var later := oldest + c.window;
    assert Answer(c, db, now, id, now, 1, salts).resetMs == later - now;
    assert |p[id].value| <= c.max;
    PruneOldest(c, p, id, now, later);
  }

  /** A denied one-unit call leaves a non-empty sorted set with scores in (now - window, now]. */
  lemma {:induction false} FullZset(c: Config, db: Logs, id: string, now: int)
    requires c.window >= 1 && c.max >= 1 && 0 <= now
    requires StoreOk(c, db, now) && !Fits(c, db, now, id, now, 1)
    ensures var z := Members(Prune(db, now, id, now - c.window), now, id);
            && z.Values != {}
            && forall s | s in z.Values :: now - c.window < s <= now
  {
  }

  lemma PruneOldest(c: Config, p: Logs, id: string, now: int, later: int)
    requires Exists(p, now, id) && p[id].value.Values != {} && now <= later
    requires forall m | m in p[id].value :: 0 <= p[id].value[m]
    requires later - c.window == Least(p[id].value.Values) && 1 <= c.max && |p[id].value| <= c.max
    ensures Fits(c, p, later, id, later, 1)
  {
    var z, oldest := p[id].value, later - c.window;
    var m :| m in z && z[m] == oldest;
    if Exists(p, later, id) {
      var kept := map k | k in z && !(0 <= z[k] <= oldest) :: z[k];
      assert m in z.Keys && m !in kept.Keys;
      SubmapCard(kept, z);
      assert Members(Prune(p, later, id, oldest), later, id) == kept;
    }
  }
}
