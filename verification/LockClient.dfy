/**
 The Locker and its Lock objects against one server: each method is tied to the server commands and reply
 handling of the protocol. `net` says what became of a request; other clients act between calls.
 */
module LockClient {
  import opened Redis
  import L = Locks

  datatype Code = LockFailed | LockNotHeld | Timeout | Connection

  class Server {
    var now: int
    var db: L.Keys

    constructor ()
      ensures now == 0 && db == map[]
    {
      now, db := 0, map[];
    }
  }

  class Lock {
    const server: Server
    const key: string
    const owner: string
    var ttl: int
    var acquired: bool
    var expiresAt: int

    constructor (server: Server, key: string, owner: string, ttl: int)
      ensures this.server == server && this.owner == owner
      ensures View() == L.Handle(key, true, ttl, server.now + ttl)
    {
      this.server, this.key, this.owner := server, key, owner;
      this.ttl, acquired, expiresAt := ttl, true, server.now + ttl;
    }

    function View(): L.Handle
      reads this
    {
      L.Handle(key, acquired, ttl, expiresAt)
    }

    predicate Held()
      reads server
    {
      L.Holds(server.db, server.now, key, owner)
    }

    /** The script that deletes the key only for its owner. */
    method Release(net: L.Net) returns (r: Result<bool, Code>)
      modifies this, server
      ensures server.now == old(server.now)
      ensures server.db == if old(acquired) && !net.RequestLost?
                           then L.ReleaseKey(old(server.db), server.now, key, owner) else old(server.db)
      ensures server.db == if old(acquired) && !net.RequestLost? && old(Get(server.db, server.now, key)) == Some(owner)
                           then old(server.db) - {key} else old(server.db)
      ensures acquired == (old(acquired) && !(net.Delivered? && old(Held()))) && ttl == old(ttl) && expiresAt == old(expiresAt)
      ensures View() == L.AfterRelease(old(View()), old(Held()), net)
      ensures r.Ok? <==> old(acquired) && net.Delivered? && old(Held())
      ensures !old(acquired) || (net.Delivered? && !old(Held())) ==> r == Err(LockNotHeld)
    {
      if !acquired {
        return Err(LockNotHeld);
      }
      var result := 0;
      if !net.RequestLost? {
        if Get(server.db, server.now, key) == Some(owner) {
          server.db := server.db - {key};
          result := 1;
        }
      }
      if !net.Delivered? {
        return Err(Connection);
      }
      if result == 0 {
        return Err(LockNotHeld);
      }
      acquired := false;
      return Ok(true);
    }

    /** The script that re-times the key only for its owner. */
    method Extend(newTtl: int, net: L.Net) returns (r: Result<bool, Code>)
      modifies this, server
      ensures server.now == old(server.now)
      ensures server.db == if old(acquired) && !net.RequestLost?
                           then L.ExtendKey(old(server.db), server.now, key, owner, newTtl) else old(server.db)
      ensures server.db == if !(old(acquired) && !net.RequestLost? && old(Get(server.db, server.now, key)) == Some(owner))
                           then old(server.db)
                           else if newTtl <= 0 then old(server.db) - {key}
                           else old(server.db)[key := Entry(owner, Some(server.now + newTtl))]
      ensures old(acquired) && net.Delivered? && old(Held()) ==> acquired && ttl == newTtl && expiresAt == server.now + newTtl
      ensures !(old(acquired) && net.Delivered? && old(Held())) ==> ttl == old(ttl) && expiresAt == old(expiresAt)
      ensures !(old(acquired) && net.Delivered? && old(Held())) ==> acquired == (old(acquired) && !net.Delivered?)
      ensures View() == L.AfterExtend(old(View()), old(Held()), net, server.now, newTtl)
      ensures r.Ok? <==> old(acquired) && net.Delivered? && old(Held())
      ensures !old(acquired) || (net.Delivered? && !old(Held())) ==> r == Err(LockNotHeld)
    {
      if !acquired {
        return Err(LockNotHeld);
      }
      var result := 0;
      if !net.RequestLost? {
        if Get(server.db, server.now, key) == Some(owner) {
          server.db := Expire(server.db, server.now, key, newTtl);
          result := 1;
        }
      }
      if !net.Delivered? {
        return Err(Connection);
      }
      if result == 0 {
        acquired := false;
        return Err(LockNotHeld);
      }
      ttl := newTtl;
      expiresAt := server.now + newTtl;
      return Ok(true);
    }

    method Verify(net: L.Net) returns (r: Result<bool, Code>)
      modifies this
      ensures View() == L.AfterVerify(old(View()), Held(), net)
      ensures acquired == (old(acquired) && (net.Delivered? ==> Get(server.db, server.now, key) == Some(owner)))
      ensures ttl == old(ttl) && expiresAt == old(expiresAt)
      ensures r.Err? <==> old(acquired) && !net.Delivered?
      ensures r.Ok? ==> (r.value <==> old(acquired) && Held())
    {
      if !acquired {
        return Ok(false);
      }
      if !net.Delivered? {
        return Err(Connection);
      }
      var found := Get(server.db, server.now, key);
      if found.None? {
        acquired := false;
        return Ok(false);
      }
      var isHeld := found.value == owner;
      if !isHeld {
        acquired := false;
      }
      return Ok(isHeld);
    }

    method IsExpired(clientNow: int) returns (expired: bool)
      ensures expired <==> clientNow > expiresAt
    {
      return clientNow > expiresAt;
    }
  }

  // ---------- Acquiring ----------

  datatype Attempt = Won | Contended | Failed

  /** How one attempt ends for the client. */
  function Outcome(db: L.Keys, now: int, key: string, ttl: int, net: L.Net): Attempt {
    if !net.Delivered? || ttl < 0 then Failed
    else if Exists(db, now, key) then Contended
    else Won
  }

  /** `owner` is the generated token. */
  method AcquireWithTTL(server: Server, key: string, owner: string, ttl: int, net: L.Net) returns (r: Result<Lock, Code>)
    modifies server
    ensures server.now == old(server.now)
    ensures server.db == if net.RequestLost? then old(server.db) else L.SetNX(old(server.db), server.now, key, owner, ttl)
    ensures match Outcome(old(server.db), server.now, key, ttl, net)
            case Won => r.Ok? && fresh(r.value) && r.value.server == server && r.value.owner == owner
                        && r.value.View() == L.Handle(key, true, ttl, server.now + ttl)
            case Contended => r == Err(LockFailed)
            case Failed => r == Err(Connection)
    ensures !net.Delivered? || ttl < 0 ==> r == Err(Connection)
    ensures net.Delivered? && ttl >= 0 ==> (r.Ok? <==> !Exists(old(server.db), server.now, key))
    ensures net.Delivered? && ttl >= 0 && Exists(old(server.db), server.now, key) ==> r == Err(LockFailed)
    ensures !net.RequestLost? && ttl >= 0 && !Exists(old(server.db), server.now, key) ==>
              server.db == old(server.db)[key := Entry(owner, if ttl > 0 then Some(server.now + ttl) else None)]
    ensures net.RequestLost? || ttl < 0 || Exists(old(server.db), server.now, key) ==> server.db == old(server.db)
  {
    var ok := !net.RequestLost? && L.Free(server.db, server.now, key, ttl);
    if ok {
      server.db := server.db[key := Entry(owner, SetExpiry(server.now, ttl))];
    }
    if !net.Delivered? || ttl < 0 {
      return Err(Connection);
    }
    if !ok {
      return Err(LockFailed);
    }
    var lock := new Lock(server, key, owner, ttl);
    return Ok(lock);
  }

  /** What attempt `i` finds: other clients and time have changed the server during the sleep before it. */
  datatype Moment = Moment(now: int, db: L.Keys, owner: string, net: L.Net, cancelled: bool)

  function OutcomeAt(m: Moment, key: string, ttl: int): Attempt {
    Outcome(m.db, m.now, key, ttl, m.net)
  }

  /** The key is taken when attempt `m` arrives, the answer comes back, and the context is still good. */
  predicate FindsTaken(m: Moment, key: string) {
    m.net.Delivered? && Exists(m.db, m.now, key) && !m.cancelled
  }

  predicate FindsFree(m: Moment, key: string) {
    m.net.Delivered? && !Exists(m.db, m.now, key)
  }

  /**
   At most `retryCount` attempts, the first of them without contention decides; a cancelled context stops the
   retries after a contended attempt; every attempt but the last was contended.
   */
  method AcquireWithRetryAndTTL(server: Server, key: string, ttl: int, retryCount: int, moments: nat -> Moment)
    returns (r: Result<Lock, Code>, attempts: nat)
    modifies server
    ensures attempts <= if retryCount > 0 then retryCount else 0
    ensures forall i: nat | i + 1 < attempts :: OutcomeAt(moments(i), key, ttl).Contended? && !moments(i).cancelled
    ensures attempts == 0 ==> r == Err(LockFailed) && retryCount <= 0
    ensures attempts > 0 ==>
              var m := moments(attempts - 1);
              match OutcomeAt(m, key, ttl)
              case Won => r.Ok? && fresh(r.value) && r.value.server == server && r.value.owner == m.owner
                          && r.value.View() == L.Handle(key, true, ttl, m.now + ttl)
                          && server.now == m.now && server.db == L.SetNX(m.db, m.now, key, m.owner, ttl)
              case Failed => r == Err(Connection)
              case Contended => r == Err(if m.cancelled then Timeout else LockFailed)
                                && (!m.cancelled ==> attempts == retryCount)
    ensures forall k: nat | ttl >= 0 && k < retryCount && (forall i: nat | i < k :: FindsTaken(moments(i), key))
                            && FindsFree(moments(k), key) ::
              attempts == k + 1 && r.Ok? && r.value.owner == moments(k).owner
    ensures forall k: nat | ttl >= 0 && k < retryCount && (forall i: nat | i < k :: FindsTaken(moments(i), key))
                            && !FindsTaken(moments(k), key) && !FindsFree(moments(k), key) ::
              attempts == k + 1 && r == Err(if moments(k).net.Delivered? then Timeout else Connection)
    ensures ttl >= 0 && retryCount >= 0 && (forall i: nat | i < retryCount :: FindsTaken(moments(i), key)) ==>
              attempts == retryCount && r == Err(LockFailed)
  {
    attempts := 0;
    for i := 0 to if retryCount > 0 then retryCount else 0
      invariant attempts == i
      invariant forall k: nat | k < attempts :: OutcomeAt(moments(k), key, ttl).Contended? && !moments(k).cancelled
    {
      var m := moments(i);
      server.now, server.db := m.now, m.db;
      r := AcquireWithTTL(server, key, m.owner, ttl, m.net);
      attempts := attempts + 1;
      if r.Ok? {
        return;
      }
      if r.error != LockFailed {
        return;
      }
      if m.cancelled {
        r := Err(Timeout);
        return;
      }
    }
    r := Err(LockFailed);
  }

  /**
   fn is called exactly when the last attempt won; afterwards the key is released iff it still holds this call's
   token, and a failed release does not fail the call. `after` is the server as fn leaves it, `fn` its result.
   */
  method WithLockAndTTL(server: Server, key: string, ttl: int, retryCount: int, moments: nat -> Moment,
                        after: Moment, fn: Result<bool, Code>)
    returns (r: Result<bool, Code>, attempts: nat, called: bool)
    modifies server
    ensures attempts <= if retryCount > 0 then retryCount else 0
    ensures called <==> attempts > 0 && OutcomeAt(moments(attempts - 1), key, ttl).Won?
    ensures !called ==> r.Err? && r.error in {LockFailed, Timeout, Connection}
    ensures called ==> r == fn && server.now == after.now
    ensures called ==>
              server.db == if after.net.RequestLost? then after.db
                           else L.ReleaseKey(after.db, after.now, key, moments(attempts - 1).owner)
  {
    called := false;
    var acquired;
    acquired, attempts := AcquireWithRetryAndTTL(server, key, ttl, retryCount, moments);
    if acquired.Err? {
      return Err(acquired.error), attempts, called;
    }
    var lock := acquired.value;
    called := true;
    server.now, server.db := after.now, after.db;
    var _ := lock.Release(after.net);
    return fn, attempts, called;
  }
}
