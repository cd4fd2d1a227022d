/**
 The fixed-window script: a counter whose expiry is set when the window opens and never moved.
 `After` and `Answer` give the net effect and the reply of one call; `Run` plays a whole run and
 records every admission with the opening time of its window.
 */
module FixedWindow {
  import opened Redis

  /** `max` is maxReqs + burst; `window` is in milliseconds. */
  datatype Config = Config(max: int, window: int)

  datatype Reply = Reply(allowed: bool, remaining: int, resetMs: int, total: int)

  type Counters = map<string, Entry<int>>

  function Used(db: Counters, now: int, id: string): int {
    match Get(db, now, id)
    case None => 0
    case Some(v) => v
  }

  predicate Fits(c: Config, db: Counters, now: int, id: string, n: int) {
    Used(db, now, id) + n <= c.max
  }

  function After(c: Config, db: Counters, now: int, id: string, n: int): Counters {
    if !Fits(c, db, now, id, n) then db
    else if Exists(db, now, id) then db[id := Entry(db[id].value + n, db[id].expiry)]
    else if c.window > 0 then db[id := Entry(n, Some(now + c.window))]
    else db - {id}
  }

  function ResetMs(c: Config, db: Counters, now: int, id: string): int {
    var ttl := Ttl(db, now, id);
    if ttl < 0 then c.window else ttl
  }

  function Answer(c: Config, db: Counters, now: int, id: string, n: int): Reply {
    var ok := Fits(c, db, now, id, n);
    Reply(ok, c.max - Used(db, now, id) - (if ok then n else 0),
          ResetMs(c, After(c, db, now, id, n), now, id), c.max)
  }

  /** GetStatus: it clamps `remaining` at zero and keeps the full window unless the key has time left. */
  function Status(c: Config, db: Counters, now: int, id: string): Reply {
    var left := c.max - Used(db, now, id);
    var remaining := if left < 0 then 0 else left;
    var ttl := Ttl(db, now, id);
    Reply(remaining > 0, remaining, if ttl > 0 then ttl else c.window, c.max)
  }

  // ---------- Runs ----------

  datatype Call =
    | Allow(at: int, id: string, n: int)
    | GetStatus(at: int, id: string)
    | Reset(at: int, id: string)

  datatype Admission = Admission(id: string, at: int, units: int, start: int)

  datatype World = World(db: Counters, log: seq<Admission>)

  /** When the window that counts a call opened: `now` if this call opens it. */
  function WindowStart(c: Config, db: Counters, now: int, id: string): int {
    if Exists(db, now, id) && db[id].expiry.Some? then db[id].expiry.value - c.window else now
  }

  function Step(c: Config, w: World, call: Call): World {
    match call
    case Allow(at, id, n) =>
      World(After(c, w.db, at, id, n),
            if Fits(c, w.db, at, id, n)
            then w.log + [Admission(id, at, n, WindowStart(c, w.db, at, id))]
            else w.log)
    case GetStatus(_, _) => w
    case Reset(_, id) => World(w.db - {id}, w.log)
  }

  function Run(c: Config, calls: seq<Call>): World {
    if calls == [] then World(map[], [])
    else Step(c, Run(c, calls[..|calls| - 1]), calls[|calls| - 1])
  }

  ghost predicate Ordered(calls: seq<Call>) {
    forall i, j | 0 <= i < j < |calls| :: calls[i].at <= calls[j].at
  }

  ghost predicate Positive(calls: seq<Call>) {
    forall i | 0 <= i < |calls| :: calls[i].Allow? ==> calls[i].n >= 1
  }

  ghost predicate NeverReset(calls: seq<Call>, id: string) {
    forall i | 0 <= i < |calls| :: calls[i].Reset? ==> calls[i].id != id
  }

  // ---------- Sums over the log ----------

  function Units(log: seq<Admission>, p: Admission -> bool): int {
    if log == [] then 0
    else
      var a := log[|log| - 1];
      Units(log[..|log| - 1], p) + if p(a) then a.units else 0
  }

  function InWindow(id: string, start: int): Admission -> bool {
    (a: Admission) => a.id == id && a.start == start
  }

  function InInterval(id: string, lo: int, hi: int): Admission -> bool {
    (a: Admission) => a.id == id && lo <= a.at < hi
  }

  function InIntervalFrom(id: string, lo: int, hi: int, late: bool): Admission -> bool {
    (a: Admission) => a.id == id && lo <= a.at < hi && (a.start >= lo) == late
  }

  lemma UnitsAppend(log: seq<Admission>, a: Admission, p: Admission -> bool)
    ensures Units(log + [a], p) == Units(log, p) + if p(a) then a.units else 0
  {
    assert (log + [a])[..|log|] == log;
  }

  ghost predicate Positives(log: seq<Admission>, q: Admission -> bool) {
    forall k | 0 <= k < |log| :: q(log[k]) ==> log[k].units >= 1
  }

  ghost predicate Within(log: seq<Admission>, p: Admission -> bool, q: Admission -> bool) {
    forall k | 0 <= k < |log| :: p(log[k]) ==> q(log[k])
  }

  lemma {:induction false} UnitsMonotone(log: seq<Admission>, p: Admission -> bool, q: Admission -> bool)
    requires Positives(log, q) && Within(log, p, q)
    ensures 0 <= Units(log, p) <= Units(log, q)
  {
    if log != [] {
      UnitsMonotone(log[..|log| - 1], p, q);
    }
  }

  /** A narrower sum that leaves out entry `j` is smaller by at least that entry. */
  lemma {:induction false} UnitsLeaveOut(log: seq<Admission>, p: Admission -> bool, q: Admission -> bool, j: nat)
    requires Positives(log, q) && Within(log, p, q)
    requires j < |log| && q(log[j]) && !p(log[j])
    ensures Units(log, p) + 1 <= Units(log, q)
  {
    var init := log[..|log| - 1];
    if j < |log| - 1 {
      UnitsLeaveOut(init, p, q, j);
    } else {
      UnitsMonotone(init, p, q);
    }
  }

  lemma {:induction false} UnitsSplit(log: seq<Admission>, id: string, lo: int, hi: int)
    ensures Units(log, InInterval(id, lo, hi))
         == Units(log, InIntervalFrom(id, lo, hi, false)) + Units(log, InIntervalFrom(id, lo, hi, true))
  {
    if log != [] {
      UnitsSplit(log[..|log| - 1], id, lo, hi);
    }
  }

  // ---------- The invariant of a run ----------

  /** One admission lies in its own window. */
  ghost predicate Placed(c: Config, a: Admission, now: int) {
    a.units >= 1 && a.start <= a.at < a.start + c.window && a.at <= now
  }

  ghost predicate AllPlaced(c: Config, log: seq<Admission>, id: string, now: int) {
    forall k | 0 <= k < |log| && log[k].id == id :: Placed(c, log[k], now)
  }

  /** Some admission opened the window. */
  ghost predicate Opened(log: seq<Admission>, id: string, start: int) {
    exists j :: 0 <= j < |log| && log[j].id == id && log[j].start == start == log[j].at
  }

  ghost predicate AllOpened(log: seq<Admission>, id: string) {
    forall k | 0 <= k < |log| && log[k].id == id :: Opened(log, id, log[k].start)
  }

  ghost predicate Apart(c: Config, a: Admission, b: Admission) {
    a.start == b.start || a.start + c.window <= b.start
  }

  /** Windows of one id come in order and open at least a window apart. */
  ghost predicate Spaced(c: Config, log: seq<Admission>, id: string) {
    forall j, k | 0 <= j < k < |log| && log[j].id == id && log[k].id == id :: Apart(c, log[j], log[k])
  }

  function Cap(c: Config): nat { if c.max > 0 then c.max else 0 }

  ghost predicate Bounded(c: Config, log: seq<Admission>, id: string) {
    forall s :: Units(log, InWindow(id, s)) <= Cap(c)
  }

  ghost predicate LogOk(c: Config, log: seq<Admission>, id: string, now: int) {
    AllPlaced(c, log, id, now) && AllOpened(log, id) && Spaced(c, log, id) && Bounded(c, log, id)
  }

  /** Every window of the id opened at `s` or before. */
  ghost predicate Latest(log: seq<Admission>, id: string, s: int) {
    forall k | 0 <= k < |log| && log[k].id == id :: log[k].start <= s
  }

  /** The key holds the sum of the latest window and expires when that window ends. */
  ghost predicate KeyOk(c: Config, db: Counters, log: seq<Admission>, id: string) {
    if id !in db then forall k | 0 <= k < |log| :: log[k].id != id
    else
      && db[id].expiry.Some?
      && var s := db[id].expiry.value - c.window;
      && db[id].value == Units(log, InWindow(id, s))
      && Opened(log, id, s)
      && Latest(log, id, s)
  }

  lemma {:induction false} UnitsNone(log: seq<Admission>, p: Admission -> bool)
    requires forall k | 0 <= k < |log| :: !p(log[k])
    ensures Units(log, p) == 0
  {
    if log != [] {
      UnitsNone(log[..|log| - 1], p);
    }
  }

  lemma OpenedAppend(log: seq<Admission>, a: Admission, id: string, s: int)
    requires Opened(log, id, s) || (a.id == id && a.at == a.start == s)
    ensures Opened(log + [a], id, s)
  {
    if a.id == id && a.at == a.start == s {
      assert (log + [a])[|log|] == a;
    } else {
      var j :| 0 <= j < |log| && log[j].id == id && log[j].start == s == log[j].at;
      assert (log + [a])[j] == log[j];
    }
  }

  lemma AllOpenedAppend(log: seq<Admission>, a: Admission, id: string)
    requires AllOpened(log, id)
    requires a.id == id ==> a.at == a.start || Opened(log, id, a.start)
    ensures AllOpened(log + [a], id)
  {
    var log' := log + [a];
    forall k | 0 <= k < |log'| && log'[k].id == id ensures Opened(log', id, log'[k].start) {
      OpenedAppend(log, a, id, log'[k].start);
    }
  }

  lemma SpacedAppend(c: Config, log: seq<Admission>, a: Admission, id: string)
    requires Spaced(c, log, id)
    requires a.id == id ==> forall k | 0 <= k < |log| && log[k].id == id :: Apart(c, log[k], a)
    ensures Spaced(c, log + [a], id)
  {
  }

  lemma BoundedAppend(c: Config, log: seq<Admission>, a: Admission, id: string)
    requires Bounded(c, log, id)
    requires a.id == id ==> Units(log, InWindow(id, a.start)) + a.units <= Cap(c)
    ensures Bounded(c, log + [a], id)
  {
  }

  /** Either the key is dead and the call opens a window after all others have ended, or it joins the latest one. */
  lemma Joining(c: Config, db: Counters, log: seq<Admission>, id: string, at: int)
    requires c.window >= 1 && AllPlaced(c, log, id, at) && Spaced(c, log, id) && KeyOk(c, db, log, id)
    ensures var s := WindowStart(c, db, at, id);
            && Units(log, InWindow(id, s)) == Used(db, at, id)
            && s <= at < s + c.window
            && (s == at || Opened(log, id, s))
            && Latest(log, id, s)
            && forall k | 0 <= k < |log| && log[k].id == id :: log[k].start == s || log[k].start + c.window <= s
  {
    var s := WindowStart(c, db, at, id);
    if !Exists(db, at, id) {
      UnitsNone(log, InWindow(id, s));
    } else {
      var j :| 0 <= j < |log| && log[j].id == id && log[j].start == s == log[j].at;
      assert Placed(c, log[j], at);
      forall k | 0 <= k < |log| && log[k].id == id ensures log[k].start == s || log[k].start + c.window <= s {
        assert j < k ==> Apart(c, log[j], log[k]);
        assert k < j ==> Apart(c, log[k], log[j]);
      }
    }
  }

  /** One call by anyone keeps the invariant of `id`. */
  lemma StepInvariant(c: Config, w: World, at: int, id': string, n: int, id: string)
    requires c.window >= 1 && n >= 1 && Fits(c, w.db, at, id', n)
    requires LogOk(c, w.log, id, at) && KeyOk(c, w.db, w.log, id)
    ensures var w' := Step(c, w, Allow(at, id', n)); LogOk(c, w'.log, id, at) && KeyOk(c, w'.db, w'.log, id)
  {
    var a := Admission(id', at, n, WindowStart(c, w.db, at, id'));
    hide Units;
    Joining(c, w.db, w.log, id, at);
    AllOpenedAppend(w.log, a, id);
    SpacedAppend(c, w.log, a, id);
    BoundedAppend(c, w.log, a, id);
    KeyStep(c, w, at, id', n, id);
  }

  lemma KeyStep(c: Config, w: World, at: int, id': string, n: int, id: string)
    requires c.window >= 1 && n >= 1 && Fits(c, w.db, at, id', n)
    requires AllPlaced(c, w.log, id, at) && Spaced(c, w.log, id) && KeyOk(c, w.db, w.log, id)
    ensures var w' := Step(c, w, Allow(at, id', n)); KeyOk(c, w'.db, w'.log, id)
  {
    hide Units, Opened, AllPlaced, Spaced, KeyOk;
    var a := Admission(id', at, n, WindowStart(c, w.db, at, id'));
    var db' := After(c, w.db, at, id', n);
    if id == id' {
      OwnKeyStep(c, w.db, w.log, at, id, n);
    } else {
      ForeignKeyStep(c, w.db, db', w.log, a, id);
    }
  }

  lemma OwnKeyStep(c: Config, db: Counters, log: seq<Admission>, at: int, id: string, n: int)
    requires c.window >= 1 && n >= 1 && Fits(c, db, at, id, n)
    requires AllPlaced(c, log, id, at) && Spaced(c, log, id) && KeyOk(c, db, log, id)
    ensures KeyOk(c, After(c, db, at, id, n), log + [Admission(id, at, n, WindowStart(c, db, at, id))], id)
  {
    hide Units, Opened, AllPlaced, Spaced;
    var s := WindowStart(c, db, at, id);
    var a := Admission(id, at, n, s);
    Joining(c, db, log, id, at);
    UnitsAppend(log, a, InWindow(id, s));
    OpenedAppend(log, a, id, s);
  }

  lemma ForeignKeyStep(c: Config, db: Counters, db': Counters, log: seq<Admission>, a: Admission, id: string)
    requires KeyOk(c, db, log, id) && a.id != id
    requires (id in db' <==> id in db) && (id in db ==> db'[id] == db[id])
    ensures KeyOk(c, db', log + [a], id)
  {
    hide Units, Opened;
    if id in db {
      var s := db[id].expiry.value - c.window;
      UnitsAppend(log, a, InWindow(id, s));
      OpenedAppend(log, a, id, s);
    }
  }

  lemma {:induction false} RunInvariant(c: Config, calls: seq<Call>, id: string, now: int)
    requires c.window >= 1 && Ordered(calls) && Positive(calls) && NeverReset(calls, id)
    requires calls != [] ==> calls[|calls| - 1].at <= now
    ensures LogOk(c, Run(c, calls).log, id, now) && KeyOk(c, Run(c, calls).db, Run(c, calls).log, id)
  {
    if calls != [] {
      var init, call := calls[..|calls| - 1], calls[|calls| - 1];
      RunInvariant(c, init, id, call.at);
      var w := Run(c, init);
      if call.Allow? && Fits(c, w.db, call.at, call.id, call.n) {
        StepInvariant(c, w, call.at, call.id, call.n, id);
      }
    }
  }

  // ---------- Results ----------

  /** No window admits more than `max`, and a later window of the identifier opens at least a window after it. */
  lemma WindowBound(c: Config, calls: seq<Call>, id: string, j: nat)
    requires c.window >= 1 && Ordered(calls) && Positive(calls) && NeverReset(calls, id)
    requires j < |Run(c, calls).log| && Run(c, calls).log[j].id == id
    ensures var log := Run(c, calls).log;
            && Units(log, InWindow(id, log[j].start)) <= c.max
            && log[j].start <= log[j].at < log[j].start + c.window
            && forall k | j < k < |log| && log[k].id == id ::
                 log[j].start == log[k].start || log[j].start + c.window <= log[k].start
  {
    var now := calls[|calls| - 1].at;
    RunInvariant(c, calls, id, now);
    hide Run;
    LogBound(c, Run(c, calls).log, id, now, j);
  }

  lemma LogBound(c: Config, log: seq<Admission>, id: string, now: int, j: nat)
    requires LogOk(c, log, id, now) && j < |log| && log[j].id == id
    ensures Units(log, InWindow(id, log[j].start)) <= c.max
    ensures log[j].start <= log[j].at < log[j].start + c.window
    ensures forall k | j < k < |log| && log[k].id == id :: Apart(c, log[j], log[k])
  {
    hide Units;
    assert Placed(c, log[j], now);
    assert InWindow(id, log[j].start)(log[j]);
    assert Units(log, InWindow(id, log[j].start)) <= Cap(c);
    forall k | 0 <= k < |log| && InWindow(id, log[j].start)(log[k]) ensures log[k].units >= 1 {
      assert Placed(c, log[k], now);
    }
    UnitsAtLeast(log, InWindow(id, log[j].start), j);
  }

  lemma UnitsAtLeast(log: seq<Admission>, p: Admission -> bool, j: nat)
    requires Positives(log, p) && j < |log| && p(log[j])
    ensures Units(log, p) >= 1
  {
    var none := (a: Admission) => false;
    UnitsNone(log, none);
    UnitsLeaveOut(log, none, p, j);
  }

  ghost predicate OneStart(log: seq<Admission>, id: string, p: Admission -> bool) {
    forall j, k | 0 <= j < |log| && 0 <= k < |log| && p(log[j]) && p(log[k]) ::
      log[j].id == id && log[j].start == log[k].start
  }

  /** Admissions that share a window sum to at most `max`, and to less if the opening admission is not among them. */
  lemma OneWindow(c: Config, log: seq<Admission>, id: string, now: int, p: Admission -> bool)
    requires LogOk(c, log, id, now) && OneStart(log, id, p)
    ensures Units(log, p) <= Cap(c)
    ensures (forall k | 0 <= k < |log| && p(log[k]) :: log[k].at != log[k].start) ==>
              Units(log, p) <= if c.max > 0 then c.max - 1 else 0
  {
    if k :| 0 <= k < |log| && p(log[k]) {
      var s := log[k].start;
      var q := InWindow(id, s);
      UnitsMonotone(log, p, q);
      assert Opened(log, id, s);
      var j :| 0 <= j < |log| && log[j].id == id && log[j].start == s && log[j].at == s;
      if !p(log[j]) {
        UnitsLeaveOut(log, p, q, j);
      }
    } else {
      UnitsNone(log, p);
    }
  }

  lemma EarlyBound(c: Config, log: seq<Admission>, id: string, now: int, lo: int)
    requires c.window >= 1 && LogOk(c, log, id, now)
    ensures Units(log, InIntervalFrom(id, lo, lo + c.window, false)) <= if c.max > 0 then c.max - 1 else 0
  {
    var p := InIntervalFrom(id, lo, lo + c.window, false);
    forall k | 0 <= k < |log| && p(log[k]) ensures lo - c.window < log[k].start < lo <= log[k].at {
      assert Placed(c, log[k], now);
    }
    SameStart(c, log, id, p, lo - c.window);
    OneWindow(c, log, id, now, p);
  }

  lemma LateBound(c: Config, log: seq<Admission>, id: string, now: int, lo: int)
    requires c.window >= 1 && LogOk(c, log, id, now)
    ensures Units(log, InIntervalFrom(id, lo, lo + c.window, true)) <= Cap(c)
  {
    var p := InIntervalFrom(id, lo, lo + c.window, true);
    forall k | 0 <= k < |log| && p(log[k]) ensures lo <= log[k].start < lo + c.window {
      assert Placed(c, log[k], now);
    }
    SameStart(c, log, id, p, lo);
    OneWindow(c, log, id, now, p);
  }

  /** Windows that open less than a window apart are one window. */
  lemma SameStart(c: Config, log: seq<Admission>, id: string, p: Admission -> bool, lo: int)
    requires Spaced(c, log, id)
    requires forall k | 0 <= k < |log| && p(log[k]) :: log[k].id == id && lo <= log[k].start < lo + c.window
    ensures OneStart(log, id, p)
  {
  }

  /**
   Whole-run bound: any half-open interval of one window's length admits at most 2 * max - 1 units.
   It meets at most two windows, and of the earlier one it misses the admission that opened it.
   */
  lemma IntervalBound(c: Config, calls: seq<Call>, id: string, lo: int)
    requires c.window >= 1 && Ordered(calls) && Positive(calls) && NeverReset(calls, id)
    ensures Units(Run(c, calls).log, InInterval(id, lo, lo + c.window)) <= if c.max > 0 then 2 * c.max - 1 else 0
  {
    var now := if calls == [] then 0 else calls[|calls| - 1].at;
    RunInvariant(c, calls, id, now);
    var log := Run(c, calls).log;
    EarlyBound(c, log, id, now, lo);
    LateBound(c, log, id, now, lo);
    UnitsSplit(log, id, lo, lo + c.window);
  }

  /** The bound is reached: one unit opens a window, the rest fill its last millisecond, and the next window fills at once. */
  lemma IntervalBoundIsTight(c: Config, id: string)
    requires c.window >= 2 && c.max >= 2
    ensures var calls := [Allow(0, id, 1), Allow(c.window - 1, id, c.max - 1), Allow(c.window, id, c.max)];
            && Ordered(calls) && Positive(calls) && NeverReset(calls, id)
            && Units(Run(c, calls).log, InInterval(id, c.window - 1, 2 * c.window - 1)) == 2 * c.max - 1
  {
    hide Run, Step, Units;
    var c0, c1, c2 := Allow(0, id, 1), Allow(c.window - 1, id, c.max - 1), Allow(c.window, id, c.max);
    assert [c0, c1, c2] == [] + [c0] + [c1] + [c2];
    RunSnoc(c, [], c0);
    RunSnoc(c, [] + [c0], c1);
    RunSnoc(c, [] + [c0] + [c1], c2);
    TightLog(c, id);
    TightSum(c, id);
  }

  lemma TightLog(c: Config, id: string)
    requires c.window >= 2 && c.max >= 2
    ensures var w1 := Step(c, World(map[], []), Allow(0, id, 1));
            var w2 := Step(c, w1, Allow(c.window - 1, id, c.max - 1));
            (Step(c, w2, Allow(c.window, id, c.max)).log
              == [] + [Admission(id, 0, 1, 0)] + [Admission(id, c.window - 1, c.max - 1, 0)]
                 + [Admission(id, c.window, c.max, c.window)])
  {
    hide Step;
    var a0, a1 := Admission(id, 0, 1, 0), Admission(id, c.window - 1, c.max - 1, 0);
    OpenStep(c, map[], [], id, 1, 0);
    assert map[][id := Entry(1, Some(c.window))] == map[id := Entry(1, Some(c.window))];
    JoinStep(c, [] + [a0], id);
    OpenStep(c, map[id := Entry(c.max, Some(c.window))], [] + [a0] + [a1], id, c.max, c.window);
  }

  /** A call on a dead key opens a window. */
  lemma OpenStep(c: Config, db: Counters, log: seq<Admission>, id: string, n: int, at: int)
    requires c.window >= 1 && n <= c.max && !Exists(db, at, id)
    ensures Step(c, World(db, log), Allow(at, id, n))
         == World(db[id := Entry(n, Some(at + c.window))], log + [Admission(id, at, n, at)])
  {
  }

  /** The second call of the tight run fills the window that the first one opened. */
  lemma JoinStep(c: Config, log: seq<Admission>, id: string)
    requires c.window >= 2
    ensures Step(c, World(map[id := Entry(1, Some(c.window))], log), Allow(c.window - 1, id, c.max - 1))
         == World(map[id := Entry(c.max, Some(c.window))], log + [Admission(id, c.window - 1, c.max - 1, 0)])
  {
    var db: Counters := map[id := Entry(1, Some(c.window))];
    assert Exists(db, c.window - 1, id) && Used(db, c.window - 1, id) == 1;
    assert db[id := Entry(c.max, Some(c.window))] == map[id := Entry(c.max, Some(c.window))];
  }

  lemma TightSum(c: Config, id: string)
    requires c.window >= 2
    ensures Units([] + [Admission(id, 0, 1, 0)] + [Admission(id, c.window - 1, c.max - 1, 0)]
                  + [Admission(id, c.window, c.max, c.window)], InInterval(id, c.window - 1, 2 * c.window - 1)) == 2 * c.max - 1
  {
    var a0, a1 := Admission(id, 0, 1, 0), Admission(id, c.window - 1, c.max - 1, 0);
    var p := InInterval(id, c.window - 1, 2 * c.window - 1);
    UnitsAppend([] + [a0] + [a1], Admission(id, c.window, c.max, c.window), p);
    UnitsAppend([] + [a0], a1, p);
    UnitsAppend([], a0, p);
  }

  lemma RunSnoc(c: Config, calls: seq<Call>, call: Call)
    ensures Run(c, calls + [call]) == Step(c, Run(c, calls), call)
    ensures calls == [] ==> Run(c, calls) == World(map[], [])
  {
    assert (calls + [call])[..|calls|] == calls;
  }

  // ---------- Status and reset promises ----------

  /** GetStatus on any store, also one that no run of this limiter leaves: the clamp, and the window when no time is left. */
  lemma StatusSpelled(c: Config, db: Counters, now: int, id: string)
    ensures var used := if Exists(db, now, id) then db[id].value else 0;
            var r := Status(c, db, now, id);
            && r.allowed == (used < c.max)
            && r.remaining == (if used < c.max then c.max - used else 0)
            && r.resetMs == (if Exists(db, now, id) && db[id].expiry.Some? then db[id].expiry.value - now else c.window)
            && r.total == c.max
  {
  }

  /** Allow on any store, also on a key without expiry, whose window never ends and is reported as a full one. */
  lemma AnswerSpelled(c: Config, db: Counters, now: int, id: string, n: int)
    requires c.window >= 1
    ensures var used := if Exists(db, now, id) then db[id].value else 0;
            var r := Answer(c, db, now, id, n);
            && r.allowed == (used + n <= c.max)
            && r.remaining == c.max - used - (if r.allowed then n else 0)
            && r.resetMs == (if Exists(db, now, id) && db[id].expiry.Some? then db[id].expiry.value - now else c.window)
            && r.total == c.max
  {
  }

  /** What every reachable store satisfies for every key, resets included. */
  ghost predicate StoreOk(c: Config, db: Counters, now: int) {
    forall id | id in db ::
      1 <= db[id].value <= c.max && db[id].expiry.Some? && db[id].expiry.value <= now + c.window
  }

  lemma {:induction false} ReachableStore(c: Config, calls: seq<Call>, now: int)
    requires c.window >= 1 && Ordered(calls) && Positive(calls)
    requires calls != [] ==> calls[|calls| - 1].at <= now
    ensures StoreOk(c, Run(c, calls).db, now)
  {
    if calls != [] {
      ReachableStore(c, calls[..|calls| - 1], calls[|calls| - 1].at);
    }
  }

  ghost predicate AllEnded(c: Config, log: seq<Admission>, id: string, now: int) {
    forall k | 0 <= k < |log| && log[k].id == id :: log[k].start + c.window <= now
  }

  /**
   The reply of every call, read off the log. `s` opens the window that counts the call: the latest one, if it has
   not ended, or else one that the call opens. The call is admitted iff its units fit beside those of that window;
   `remaining` is what is left after it, and the reset time is the time until that window ends.
   */
  lemma {:induction false} AnswerFromLog(c: Config, calls: seq<Call>, id: string, now: int, n: int) returns (s: int)
    requires c.window >= 1 && n >= 1 && Ordered(calls) && Positive(calls) && NeverReset(calls, id)
    requires calls != [] ==> calls[|calls| - 1].at <= now
    ensures var w, w' := Run(c, calls), Step(c, Run(c, calls), Allow(now, id, n));
            var r := Answer(c, w.db, now, id, n);
            && s <= now < s + c.window
            && ((s == now && AllEnded(c, w.log, id, now)) || (Opened(w.log, id, s) && Latest(w.log, id, s)))
            && (r.allowed <==> Units(w.log, InWindow(id, s)) + n <= c.max)
            && w'.log == w.log + (if r.allowed then [Admission(id, now, n, s)] else [])
            && r.remaining == c.max - Units(w'.log, InWindow(id, s))
            && r.resetMs == s + c.window - now
            && r.total == c.max
  {
    RunInvariant(c, calls, id, now);
    hide Run, Units, Opened;
    var w := Run(c, calls);
    s := WindowStart(c, w.db, now, id);
    Joining(c, w.db, w.log, id, now);
    UnitsAppend(w.log, Admission(id, now, n, s), InWindow(id, s));
    assert w.log + [] == w.log;
  }

  /** GetStatus reports what a one-unit Allow at the same instant would be told, and the units really left. */
  lemma {:induction false} StatusAgreesWithAllow(c: Config, calls: seq<Call>, id: string, now: int)
    requires c.window >= 1 && c.max >= 0 && Ordered(calls) && Positive(calls)
    requires calls != [] ==> calls[|calls| - 1].at <= now
    ensures Exists(Run(c, calls).db, now, id) ==> Run(c, calls).db[id].expiry.Some?
    ensures var db, status := Run(c, calls).db, Status(c, Run(c, calls).db, now, id);
            && status.allowed == Answer(c, db, now, id, 1).allowed
            && status.remaining == c.max - Used(db, now, id)
            && status.resetMs == (if Exists(db, now, id) then db[id].expiry.value - now else c.window)
            && status.total == c.max
            && (!status.allowed ==> status.resetMs == Answer(c, db, now, id, 1).resetMs)
            && Run(c, calls + [GetStatus(now, id)]) == Run(c, calls)
  {
    ReachableStore(c, calls, now);
    assert (calls + [GetStatus(now, id)])[..|calls|] == calls;
  }

  /** A one-unit request denied now is admitted at the reported reset time, if nothing is admitted meanwhile. */
  lemma {:induction false} ResetPromise(c: Config, calls: seq<Call>, id: string, now: int)
    requires c.window >= 1 && c.max >= 1 && Ordered(calls) && Positive(calls)
    requires calls != [] ==> calls[|calls| - 1].at <= now
    requires !Fits(c, Run(c, calls).db, now, id, 1)
    ensures var db := Run(c, calls).db;
            var r := Answer(c, db, now, id, 1);
            0 < r.resetMs <= c.window && !r.allowed && Fits(c, db, now + r.resetMs, id, 1)
  {
    ReachableStore(c, calls, now);
  }
}
