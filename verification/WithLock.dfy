/**
 WithLock: any number of processes that acquire a lock with retries, run `fn`, and release, beside arbitrary
 other users of the same server. The Lock object of a WithLock call stays private to it.
 */
module WithLock {
  import opened Redis
  import L = Locks
  import C = LockClient

  /** `leaseEnd` is the expiry that the server gave the lease; None is never. */
  datatype Phase =
    | Trying
    | InFn(owner: string, leaseEnd: Option<int>)
    | Releasing(owner: string)
    | Finished

  datatype Proc = Proc(key: string, ttl: int, phase: Phase, tried: nat)

  /** `mine` holds the tokens drawn by WithLock calls. */
  datatype World = World(lock: L.World, procs: map<int, Proc>, mine: set<string>)

  datatype Event =
    | Begin(p: int, key: string, ttl: int)
    | Try(p: int, owner: string, net: L.Net, cancelled: bool)
    | FnReturns(p: int)
    | FnRelease(p: int, net: L.Net)
    | Env(op: L.Op)

  predicate Allowed(w: World, retryCount: int, e: Event) {
    match e
    case Begin(p, _, _) => p !in w.procs
    case Try(p, owner, net, _) => p in w.procs && w.procs[p].phase.Trying? && owner !in w.lock.used
    case FnReturns(p) => p in w.procs && w.procs[p].phase.InFn?
    case FnRelease(p, net) => p in w.procs && w.procs[p].phase.Releasing? && w.procs[p].phase.owner in w.lock.handles
    case Env(op) => L.Allowed(w.lock, op) && (op.Tick? || op.owner !in w.mine)
  }

  /** After an attempt: run fn, or give up on an error, a cancelled context or the last attempt, or try again. */
  function AfterTry(retryCount: int, proc: Proc, m: C.Moment): Proc {
    var tried := proc.tried + 1;
    match C.OutcomeAt(m, proc.key, proc.ttl)
    case Won => proc.(phase := InFn(m.owner, SetExpiry(m.now, proc.ttl)), tried := tried)
    case Contended =>
      if !m.cancelled && tried < retryCount then proc.(tried := tried) else proc.(phase := Finished, tried := tried)
    case Failed => proc.(phase := Finished, tried := tried)
  }

  function Step(w: World, retryCount: int, e: Event): World
    requires Allowed(w, retryCount, e)
  {
    match e
    case Begin(p, key, ttl) =>
      w.(procs := w.procs[p := Proc(key, ttl, if retryCount > 0 then Trying else Finished, 0)])
    case Try(p, owner, net, cancelled) =>
      var proc := w.procs[p];
      World(L.Step(w.lock, L.Acquire(owner, proc.key, proc.ttl, net)),
            w.procs[p := AfterTry(retryCount, proc, C.Moment(w.lock.now, w.lock.db, owner, net, cancelled))],
            w.mine + {owner})
    case FnReturns(p) =>
      w.(procs := w.procs[p := w.procs[p].(phase := Releasing(w.procs[p].phase.owner))])
    case FnRelease(p, net) =>
      w.(lock := L.Step(w.lock, L.Release(w.procs[p].phase.owner, net)),
         procs := w.procs[p := w.procs[p].(phase := Finished)])
    case Env(op) => w.(lock := L.Step(w.lock, op))
  }

  predicate RunAllowed(w: World, retryCount: int, es: seq<Event>)
    decreases |es|
  {
    es == [] || (Allowed(w, retryCount, es[0]) && RunAllowed(Step(w, retryCount, es[0]), retryCount, es[1..]))
  }

  function Run(w: World, retryCount: int, es: seq<Event>): World
    requires RunAllowed(w, retryCount, es)
    decreases |es|
  {
    if es == [] then w else Run(Step(w, retryCount, es[0]), retryCount, es[1..])
  }

  const Start: World := World(L.Start, map[], {})

  // ---------- Invariant ----------

  predicate Outlived(w: World, p: int)
    requires p in w.procs && w.procs[p].phase.InFn?
  {
    var lease := w.procs[p].phase.leaseEnd;
    lease.Some? && lease.value <= w.lock.now
  }

  predicate HasToken(proc: Proc) {
    proc.phase.InFn? || proc.phase.Releasing?
  }

  /** While fn is within its lease the server stores exactly that lease. */
  predicate LeaseStored(w: World, p: int)
    requires p in w.procs
  {
    var proc := w.procs[p];
    proc.phase.InFn? && !Outlived(w, p) ==>
      proc.key in w.lock.db && w.lock.db[proc.key] == Entry(proc.phase.owner, proc.phase.leaseEnd)
  }

  ghost predicate Leases(w: World) {
    forall p | p in w.procs :: LeaseStored(w, p)
  }

  ghost predicate Tokens(w: World) {
    && w.mine <= w.lock.used
    && (forall p | p in w.procs && HasToken(w.procs[p]) ::
          w.procs[p].phase.owner in w.mine && w.procs[p].phase.owner in w.lock.handles)
    && (forall p, q | p in w.procs && q in w.procs && p != q && HasToken(w.procs[p]) && HasToken(w.procs[q]) ::
          w.procs[p].phase.owner != w.procs[q].phase.owner)
  }

  ghost predicate Tries(w: World, retryCount: int) {
    forall p | p in w.procs ::
      && w.procs[p].tried <= (if retryCount > 0 then retryCount else 0)
      && (w.procs[p].phase.Trying? ==> w.procs[p].tried < retryCount)
      && (w.procs[p].phase.InFn? ==> w.procs[p].tried >= 1)
  }

  ghost predicate Inv(w: World, retryCount: int) {
    L.Inv(w.lock) && Leases(w) && Tokens(w) && Tries(w, retryCount)
  }

  /** A lock step by anyone but the lease's owner leaves the lease alone. */
  lemma LeaseSurvives(w: World, op: L.Op, p: int, w': World)
    requires L.Inv(w.lock) && L.Allowed(w.lock, op) && w'.lock == L.Step(w.lock, op)
    requires p in w.procs && p in w'.procs && w'.procs[p] == w.procs[p] && LeaseStored(w, p)
    requires HasToken(w.procs[p]) ==> op.Tick? || op.owner != w.procs[p].phase.owner
    ensures LeaseStored(w', p)
  {
  }

  lemma TryKeeps(w: World, retryCount: int, p: int, owner: string, net: L.Net, cancelled: bool)
    requires Inv(w, retryCount) && Allowed(w, retryCount, Try(p, owner, net, cancelled))
    ensures Inv(Step(w, retryCount, Try(p, owner, net, cancelled)), retryCount)
  {
    hide L.Inv;
    var w' := Step(w, retryCount, Try(p, owner, net, cancelled));
    var op := L.Acquire(owner, w.procs[p].key, w.procs[p].ttl, net);
    L.StepKeeps(w.lock, op);
    forall q | q in w'.procs ensures LeaseStored(w', q) {
      if q != p {
        LeaseSurvives(w, op, q, w');
      }
    }
  }

  lemma ReleaseKeeps(w: World, retryCount: int, p: int, net: L.Net)
    requires Inv(w, retryCount) && Allowed(w, retryCount, FnRelease(p, net))
    ensures Inv(Step(w, retryCount, FnRelease(p, net)), retryCount)
  {
    hide L.Inv;
    var w' := Step(w, retryCount, FnRelease(p, net));
    var op := L.Release(w.procs[p].phase.owner, net);
    L.StepKeeps(w.lock, op);
    forall q | q in w'.procs ensures LeaseStored(w', q) {
      if q != p {
        LeaseSurvives(w, op, q, w');
      }
    }
  }

  lemma EnvKeeps(w: World, retryCount: int, op: L.Op)
    requires Inv(w, retryCount) && Allowed(w, retryCount, Env(op))
    ensures Inv(Step(w, retryCount, Env(op)), retryCount)
  {
    hide L.Inv;
    var w' := Step(w, retryCount, Env(op));
    L.StepKeeps(w.lock, op);
    forall q | q in w'.procs ensures LeaseStored(w', q) {
      LeaseSurvives(w, op, q, w');
    }
  }

  lemma StepKeeps(w: World, retryCount: int, e: Event)
    requires Inv(w, retryCount) && Allowed(w, retryCount, e)
    ensures Inv(Step(w, retryCount, e), retryCount)
  {
    hide L.Inv;
    var w' := Step(w, retryCount, e);
    match e {
      case Begin(p, key, ttl) =>
        forall q | q in w'.procs ensures LeaseStored(w', q) {
          assert q != p ==> LeaseStored(w, q);
        }
      case Try(p, owner, net, cancelled) => TryKeeps(w, retryCount, p, owner, net, cancelled);
      case FnReturns(p) =>
        forall q | q in w'.procs ensures LeaseStored(w', q) {
          assert LeaseStored(w, q);
        }
      case FnRelease(p, net) => ReleaseKeeps(w, retryCount, p, net);
      case Env(op) => EnvKeeps(w, retryCount, op);
    }
  }

  lemma {:induction false} RunKeeps(w: World, retryCount: int, es: seq<Event>)
    requires Inv(w, retryCount) && RunAllowed(w, retryCount, es)
    ensures Inv(Run(w, retryCount, es), retryCount)
    decreases |es|
  {
    if es != [] {
      StepKeeps(w, retryCount, es[0]);
      RunKeeps(Step(w, retryCount, es[0]), retryCount, es[1..]);
    }
  }

  // ---------- Results ----------

  /** A process after `n` attempts, when attempt k finds `moments(k)`. */
  function AfterTries(retryCount: int, proc: Proc, moments: nat -> C.Moment, n: nat): Proc {
    if n == 0 then proc else AfterTry(retryCount, AfterTries(retryCount, proc, moments, n - 1), moments(n - 1))
  }

  /**
   The attempts of AcquireWithRetryAndTTL, as its contract gives them, are the attempts of a process: it is still
   trying before each of them, and after the last it is in fn iff that one won, and finished otherwise.
   */
  lemma {:induction false} LoopIsTries(key: string, ttl: int, retryCount: int, moments: nat -> C.Moment, attempts: nat, n: nat)
    requires 1 <= attempts <= retryCount && n <= attempts
    requires forall i: nat | i + 1 < attempts :: C.OutcomeAt(moments(i), key, ttl).Contended? && !moments(i).cancelled
    requires var m := moments(attempts - 1);
             C.OutcomeAt(m, key, ttl).Contended? && !m.cancelled ==> attempts == retryCount
    ensures var proc := AfterTries(retryCount, Proc(key, ttl, Trying, 0), moments, n);
            var m := moments(attempts - 1);
            proc == Proc(key, ttl,
                         if n < attempts then Trying
                         else if C.OutcomeAt(m, key, ttl).Won? then InFn(m.owner, SetExpiry(m.now, ttl))
                         else Finished, n)
  {
    if n > 0 {
      LoopIsTries(key, ttl, retryCount, moments, attempts, n - 1);
    }
  }

  /** No WithLock call makes more than `retryCount` attempts, and fn starts only after one to `retryCount` of them. */
  lemma {:induction false} AttemptsBound(retryCount: int, es: seq<Event>, p: int)
    requires RunAllowed(Start, retryCount, es) && p in Run(Start, retryCount, es).procs
    ensures var proc := Run(Start, retryCount, es).procs[p];
            && proc.tried <= (if retryCount > 0 then retryCount else 0)
            && (proc.phase.InFn? ==> 1 <= proc.tried <= retryCount)
  {
    assert L.Inv(L.Start);
    RunKeeps(Start, retryCount, es);
  }

  /** When the deferred release reaches the server, the call's token is nowhere on it. */
  lemma ReleaseFrees(w: World, retryCount: int, p: int, net: L.Net)
    requires Inv(w, retryCount) && Allowed(w, retryCount, FnRelease(p, net)) && !net.RequestLost?
    ensures L.Gone(Step(w, retryCount, FnRelease(p, net)).lock, w.procs[p].phase.owner)
    ensures Step(w, retryCount, FnRelease(p, net)).procs[p].phase.Finished?
  {
    var owner, w' := w.procs[p].phase.owner, Step(w, retryCount, FnRelease(p, net));
    forall key ensures !L.Holds(w'.lock.db, w'.lock.now, key, owner) {
      if L.Holds(w.lock.db, w.lock.now, key, owner) {
        var _ := L.HeldTenure(w.lock, key, owner);
        assert !L.Gone(w.lock, owner);
      }
    }
  }

  /**
   Critical sections exclude each other: two processes are inside fn for one resource only if one of them has
   outlived its lease. In a run where every fn returns within its lease, no two overlap.
   */
  lemma CriticalSectionsExclude(retryCount: int, es: seq<Event>, p: int, q: int)
    requires RunAllowed(Start, retryCount, es)
    requires var procs := Run(Start, retryCount, es).procs;
             && p != q && p in procs && q in procs
             && procs[p].phase.InFn? && procs[q].phase.InFn? && procs[p].key == procs[q].key
    ensures var w := Run(Start, retryCount, es);
            Outlived(w, p) || Outlived(w, q)
  {
    assert L.Inv(L.Start);
    RunKeeps(Start, retryCount, es);
    var w := Run(Start, retryCount, es);
    assert LeaseStored(w, p) && LeaseStored(w, q);
  }

  /** The lease condition is needed: an fn that outlives its lease by any amount can be joined by another. */
  lemma OutlivedLeaseIsShared(key: string, ttl: int, late: nat)
    requires ttl >= 1
    ensures var es := [Begin(1, key, ttl), Try(1, "a", L.Delivered, false), Begin(2, key, ttl),
                       Env(L.Tick(ttl + late)), Try(2, "b", L.Delivered, false)];
            && RunAllowed(Start, 1, es)
            && var procs := Run(Start, 1, es).procs;
               1 in procs && 2 in procs && procs[1].phase.InFn? && procs[2].phase.InFn? && procs[1].key == procs[2].key
  {
    var e1, e2, e3 := Begin(1, key, ttl), Try(1, "a", L.Delivered, false), Begin(2, key, ttl);
    var e4, e5 := Env(L.Tick(ttl + late)), Try(2, "b", L.Delivered, false);
    var w1 := Step(Start, 1, e1);
    var w2 := Step(w1, 1, e2);
    var w3 := Step(w2, 1, e3);
    var w4 := Step(w3, 1, e4);
    var w5 := Step(w4, 1, e5);
    assert w5.procs[1].phase.InFn? && w5.procs[2].phase.InFn?;
    assert [e1, e2, e3, e4, e5][1..] == [e2, e3, e4, e5] && [e2, e3, e4, e5][1..] == [e3, e4, e5];
    assert [e3, e4, e5][1..] == [e4, e5] && [e4, e5][1..] == [e5] && [e5][1..] == [];
    assert Run(w5, 1, []) == w5 && RunAllowed(w5, 1, []);
    assert RunAllowed(w4, 1, [e5]) && Run(w4, 1, [e5]) == w5;
    assert RunAllowed(w3, 1, [e4, e5]) && Run(w3, 1, [e4, e5]) == w5;
    assert RunAllowed(w2, 1, [e3, e4, e5]) && Run(w2, 1, [e3, e4, e5]) == w5;
    assert RunAllowed(w1, 1, [e2, e3, e4, e5]) && Run(w1, 1, [e2, e3, e4, e5]) == w5;
  }
}
