/**
 The lock protocol: any number of clients, each with Lock objects known by their owner token, one server, and
 messages that may be lost on the way there or on the way back. Times are in milliseconds.
 Every successful SETNX opens a tenure, whether or not its client learns of it; the tenure ends with the key.
 */
module Locks {
  import opened Redis

  type Keys = map<string, Entry<string>>

  datatype Net = Delivered | ReplyLost | RequestLost

  /** A client's Lock object. */
  datatype Handle = Handle(key: string, acquired: bool, ttl: int, expiresAt: int)

  /** `end` is when the key goes away, as far as the server knows now; None is never. */
  datatype Tenure = Tenure(key: string, owner: string, start: int, end: Option<int>)

  // ---------- Server commands ----------

  predicate Holds(db: Keys, now: int, key: string, owner: string) {
    Get(db, now, key) == Some(owner)
  }

  /** SETNX succeeds on a free key; the server refuses a negative time, and zero means no expiry. */
  predicate Free(db: Keys, now: int, key: string, ttl: int) {
    ttl >= 0 && !Exists(db, now, key)
  }

  function SetNX(db: Keys, now: int, key: string, owner: string, ttl: int): Keys {
    if Free(db, now, key, ttl) then db[key := Entry(owner, SetExpiry(now, ttl))] else db
  }

  function ReleaseKey(db: Keys, now: int, key: string, owner: string): Keys {
    if Holds(db, now, key, owner) then db - {key} else db
  }

  function ExtendKey(db: Keys, now: int, key: string, owner: string, ttl: int): Keys {
    if Holds(db, now, key, owner) then Expire(db, now, key, ttl) else db
  }

  // ---------- What a reply does to the Lock object ----------

  function AfterRelease(h: Handle, held: bool, net: Net): Handle {
    if h.acquired && net.Delivered? && held then h.(acquired := false) else h
  }

  function AfterExtend(h: Handle, held: bool, net: Net, now: int, ttl: int): Handle {
    if !h.acquired || !net.Delivered? then h
    else if held then h.(ttl := ttl, expiresAt := now + ttl)
    else h.(acquired := false)
  }

  function AfterVerify(h: Handle, held: bool, net: Net): Handle {
    if h.acquired && net.Delivered? && !held then h.(acquired := false) else h
  }

  // ---------- Steps ----------

  datatype World = World(now: int, db: Keys, handles: map<string, Handle>, used: set<string>, tenures: seq<Tenure>)

  datatype Op =
    | Tick(ms: nat)
    | Acquire(owner: string, key: string, ttl: int, net: Net)
    | Release(owner: string, net: Net)
    | Extend(owner: string, ttl: int, net: Net)
    | Verify(owner: string, net: Net)

  /** Owner tokens are never drawn twice, and only Lock objects that exist are used. */
  predicate Allowed(w: World, op: Op) {
    match op
    case Tick(_) => true
    case Acquire(owner, _, _, _) => owner !in w.used
    case _ => op.owner in w.handles
  }

  /** A Lock object that knows it is not acquired sends nothing. */
  predicate Reaches(w: World, owner: string, net: Net) {
    owner in w.handles && w.handles[owner].acquired && !net.RequestLost?
  }

  predicate HoldsOwn(w: World, owner: string) {
    owner in w.handles && Holds(w.db, w.now, w.handles[owner].key, owner)
  }

  function Retime(ts: seq<Tenure>, owner: string, end: Option<int>): (r: seq<Tenure>)
    ensures |r| == |ts|
    ensures forall i | 0 <= i < |ts| :: r[i] == if ts[i].owner == owner then ts[i].(end := end) else ts[i]
  {
    seq(|ts|, i requires 0 <= i < |ts| => if ts[i].owner == owner then ts[i].(end := end) else ts[i])
  }

  function Step(w: World, op: Op): World
    requires Allowed(w, op)
  {
    match op
    case Tick(ms) => w.(now := w.now + ms)
    case Acquire(owner, key, ttl, net) =>
      if !net.RequestLost? && Free(w.db, w.now, key, ttl) then
        World(w.now, SetNX(w.db, w.now, key, owner, ttl),
              if net.Delivered? then w.handles[owner := Handle(key, true, ttl, w.now + ttl)] else w.handles,
              w.used + {owner},
              w.tenures + [Tenure(key, owner, w.now, SetExpiry(w.now, ttl))])
      else w.(used := w.used + {owner})
    case Release(owner, net) =>
      var h, held := w.handles[owner], HoldsOwn(w, owner);
      if Reaches(w, owner, net) && held then
        w.(db := ReleaseKey(w.db, w.now, h.key, owner),
           handles := w.handles[owner := AfterRelease(h, held, net)],
           tenures := Retime(w.tenures, owner, Some(w.now)))
      else w.(handles := w.handles[owner := AfterRelease(h, held, net)])
    case Extend(owner, ttl, net) =>
      var h, held := w.handles[owner], HoldsOwn(w, owner);
      if Reaches(w, owner, net) && held then
        w.(db := ExtendKey(w.db, w.now, h.key, owner, ttl),
           handles := w.handles[owner := AfterExtend(h, held, net, w.now, ttl)],
           tenures := Retime(w.tenures, owner, Some(if ttl > 0 then w.now + ttl else w.now)))
      else w.(handles := w.handles[owner := AfterExtend(h, held, net, w.now, ttl)])
    case Verify(owner, net) =>
      w.(handles := w.handles[owner := AfterVerify(w.handles[owner], HoldsOwn(w, owner), net)])
  }

  predicate RunAllowed(w: World, ops: seq<Op>)
    decreases |ops|
  {
    ops == [] || (Allowed(w, ops[0]) && RunAllowed(Step(w, ops[0]), ops[1..]))
  }

  function Run(w: World, ops: seq<Op>): World
    requires RunAllowed(w, ops)
    decreases |ops|
  {
    if ops == [] then w else Run(Step(w, ops[0]), ops[1..])
  }

  const Start: World := World(0, map[], map[], {}, [])

  // ---------- The invariant ----------

  predicate Ended(t: Tenure, at: int) {
    t.end.Some? && t.end.value <= at
  }

  ghost predicate Known(w: World) {
    && (forall i | 0 <= i < |w.tenures| :: w.tenures[i].owner in w.used)
    && (forall key | key in w.db :: w.db[key].value in w.used)
    && w.handles.Keys <= w.used
  }

  ghost predicate Started(w: World) {
    forall i | 0 <= i < |w.tenures| ::
      w.tenures[i].start <= w.now && (w.tenures[i].end.Some? ==> w.tenures[i].start <= w.tenures[i].end.value)
  }

  ghost predicate OnePerOwner(ts: seq<Tenure>) {
    forall i, j | 0 <= i < j < |ts| :: ts[i].owner != ts[j].owner
  }

  /** Of two tenures of one key the earlier has ended when the later starts. */
  ghost predicate Disjoint(ts: seq<Tenure>) {
    forall i, j | 0 <= i < j < |ts| && ts[i].key == ts[j].key :: Ended(ts[i], ts[j].start)
  }

  /** An unfinished tenure is what the server stores under its key. */
  ghost predicate OpenIsStored(w: World) {
    forall i | 0 <= i < |w.tenures| && !Ended(w.tenures[i], w.now) ::
      w.tenures[i].key in w.db && w.db[w.tenures[i].key] == Entry(w.tenures[i].owner, w.tenures[i].end)
  }

  ghost predicate HasTenure(ts: seq<Tenure>, key: string, e: Entry<string>) {
    exists i :: 0 <= i < |ts| && ts[i].key == key && ts[i].owner == e.value && ts[i].end == e.expiry
  }

  /** What the server stores and has not expired is an unfinished tenure. */
  ghost predicate StoredIsOpen(w: World) {
    forall key | Exists(w.db, w.now, key) :: HasTenure(w.tenures, key, w.db[key])
  }

  ghost predicate HandleKeys(w: World) {
    forall i | 0 <= i < |w.tenures| && w.tenures[i].owner in w.handles ::
      w.handles[w.tenures[i].owner].key == w.tenures[i].key
  }

  ghost predicate Gone(w: World, owner: string) {
    forall key :: !Holds(w.db, w.now, key, owner)
  }

  /** A Lock object that says it is not acquired is right. */
  ghost predicate HandlesHonest(w: World) {
    forall owner | owner in w.handles && !w.handles[owner].acquired :: Gone(w, owner)
  }

  ghost predicate Inv(w: World) {
    && Known(w) && Started(w) && OnePerOwner(w.tenures) && Disjoint(w.tenures)
    && OpenIsStored(w) && StoredIsOpen(w) && HandleKeys(w) && HandlesHonest(w)
  }

  /** A held key belongs to exactly one tenure, which is unfinished and the last one of its key. */
  lemma HeldTenure(w: World, key: string, owner: string) returns (i: nat)
    requires Inv(w) && Holds(w.db, w.now, key, owner)
    ensures i < |w.tenures| && w.tenures[i].key == key && w.tenures[i].owner == owner
    ensures w.tenures[i].end == w.db[key].expiry && !Ended(w.tenures[i], w.now)
    ensures forall j | 0 <= j < |w.tenures| && w.tenures[j].owner == owner :: j == i
    ensures forall j | i < j < |w.tenures| :: w.tenures[j].key != key
    ensures forall k | Holds(w.db, w.now, k, owner) :: k == key
    ensures owner in w.handles ==> w.handles[owner].key == key
  {
    assert HasTenure(w.tenures, key, w.db[key]);
    i :| 0 <= i < |w.tenures| && w.tenures[i].key == key && w.tenures[i].owner == owner && w.tenures[i].end == w.db[key].expiry;
    forall k | Holds(w.db, w.now, k, owner) ensures k == key {
      assert HasTenure(w.tenures, k, w.db[k]);
      var j :| 0 <= j < |w.tenures| && w.tenures[j].key == k && w.tenures[j].owner == owner && w.tenures[j].end == w.db[k].expiry;
    }
    forall j | i < j < |w.tenures| ensures w.tenures[j].key != key {
      assert w.tenures[j].start <= w.now;
    }
  }

  lemma TickKeeps(w: World, ms: nat)
    requires Inv(w)
    ensures Inv(Step(w, Tick(ms)))
  {
    var w' := Step(w, Tick(ms));
    forall owner | owner in w'.handles && !w'.handles[owner].acquired ensures Gone(w', owner) {
      assert Gone(w, owner);
      forall key ensures !Holds(w'.db, w'.now, key, owner) {
        assert !Holds(w.db, w.now, key, owner);
      }
    }
  }

  lemma AcquireKeeps(w: World, owner: string, key: string, ttl: int, net: Net)
    requires Inv(w) && Allowed(w, Acquire(owner, key, ttl, net))
    ensures Inv(Step(w, Acquire(owner, key, ttl, net)))
  {
    hide Known, Started, OnePerOwner, Disjoint, OpenIsStored, StoredIsOpen, HandleKeys, HandlesHonest;
    AcquireTenures(w, owner, key, ttl, net);
    AcquireOpen(w, owner, key, ttl, net);
    AcquireStored(w, owner, key, ttl, net);
    AcquireHonest(w, owner, key, ttl, net);
  }

  lemma AcquireTenures(w: World, owner: string, key: string, ttl: int, net: Net)
    requires Known(w) && Started(w) && OnePerOwner(w.tenures) && HandleKeys(w)
    requires Allowed(w, Acquire(owner, key, ttl, net))
    ensures var w' := Step(w, Acquire(owner, key, ttl, net));
            Known(w') && Started(w') && OnePerOwner(w'.tenures) && HandleKeys(w')
  {
  }

  /** A free key means that every earlier tenure of it has ended. */
  lemma AcquireOpen(w: World, owner: string, key: string, ttl: int, net: Net)
    requires Disjoint(w.tenures) && OpenIsStored(w) && Started(w) && Allowed(w, Acquire(owner, key, ttl, net))
    ensures var w' := Step(w, Acquire(owner, key, ttl, net)); Disjoint(w'.tenures) && OpenIsStored(w')
  {
  }

  lemma AcquireStored(w: World, owner: string, key: string, ttl: int, net: Net)
    requires StoredIsOpen(w) && Allowed(w, Acquire(owner, key, ttl, net))
    ensures StoredIsOpen(Step(w, Acquire(owner, key, ttl, net)))
  {
    var w' := Step(w, Acquire(owner, key, ttl, net));
    forall k | Exists(w'.db, w'.now, k) ensures HasTenure(w'.tenures, k, w'.db[k]) {
      if |w'.tenures| > |w.tenures| && k == key {
        assert w'.tenures[|w.tenures|].key == key;
      } else {
        assert HasTenure(w.tenures, k, w.db[k]);
        var i :| 0 <= i < |w.tenures| && w.tenures[i].key == k && w.tenures[i].owner == w.db[k].value && w.tenures[i].end == w.db[k].expiry;
        assert w'.tenures[i] == w.tenures[i];
      }
    }
  }

  lemma AcquireHonest(w: World, owner: string, key: string, ttl: int, net: Net)
    requires Known(w) && HandlesHonest(w) && Allowed(w, Acquire(owner, key, ttl, net))
    ensures HandlesHonest(Step(w, Acquire(owner, key, ttl, net)))
  {
    var w' := Step(w, Acquire(owner, key, ttl, net));
    forall o | o in w'.handles && !w'.handles[o].acquired ensures Gone(w', o) {
      assert Gone(w, o);
      forall k ensures !Holds(w'.db, w'.now, k, o) {
        assert !Holds(w.db, w.now, k, o);
      }
    }
  }

  /** The holder ends or re-times its own tenure; nothing else changes on the server. */
  ghost predicate OwnChange(w: World, owner: string, h': Handle, db': Keys, end: Option<int>) {
    && HoldsOwn(w, owner) && end.Some? && end.value >= w.now
    && h'.key == w.handles[owner].key
    && db' == (if end.value > w.now then w.db[h'.key := Entry(owner, end)] else w.db - {h'.key})
    && (!h'.acquired ==> end.value == w.now)
  }

  function Changed(w: World, owner: string, h': Handle, db': Keys, end: Option<int>): World {
    w.(db := db', handles := w.handles[owner := h'], tenures := Retime(w.tenures, owner, end))
  }

  lemma OwnChangeKeeps(w: World, owner: string, h': Handle, db': Keys, end: Option<int>)
    requires Inv(w) && OwnChange(w, owner, h', db', end)
    ensures Inv(Changed(w, owner, h', db', end))
  {
    var i := HeldTenure(w, h'.key, owner);
    hide Known, Started, OnePerOwner, Disjoint, OpenIsStored, StoredIsOpen, HandleKeys, HandlesHonest;
    OwnTenures(w, owner, h', db', end, i);
    OwnStored(w, owner, h', db', end, i);
    OwnHonest(w, owner, h', db', end);
  }

  lemma OwnTenures(w: World, owner: string, h': Handle, db': Keys, end: Option<int>, i: nat)
    requires Known(w) && Started(w) && OnePerOwner(w.tenures) && Disjoint(w.tenures) && HandleKeys(w)
    requires OwnChange(w, owner, h', db', end)
    requires i < |w.tenures| && w.tenures[i].key == h'.key && w.tenures[i].owner == owner
    requires forall j | 0 <= j < |w.tenures| && w.tenures[j].owner == owner :: j == i
    requires forall j | i < j < |w.tenures| :: w.tenures[j].key != h'.key
    ensures var w' := Changed(w, owner, h', db', end);
            Known(w') && Started(w') && OnePerOwner(w'.tenures) && Disjoint(w'.tenures) && HandleKeys(w')
  {
  }

  lemma OwnStored(w: World, owner: string, h': Handle, db': Keys, end: Option<int>, i: nat)
    requires OpenIsStored(w) && StoredIsOpen(w) && OwnChange(w, owner, h', db', end)
    requires i < |w.tenures| && w.tenures[i].key == h'.key && w.tenures[i].owner == owner
    requires forall j | 0 <= j < |w.tenures| && w.tenures[j].owner == owner :: j == i
    ensures var w' := Changed(w, owner, h', db', end); OpenIsStored(w') && StoredIsOpen(w')
  {
  }

  lemma OwnHonest(w: World, owner: string, h': Handle, db': Keys, end: Option<int>)
    requires HandlesHonest(w) && OwnChange(w, owner, h', db', end)
    requires forall k | Holds(w.db, w.now, k, owner) :: k == h'.key
    ensures HandlesHonest(Changed(w, owner, h', db', end))
  {
    var w' := Changed(w, owner, h', db', end);
    forall o | o in w'.handles && !w'.handles[o].acquired ensures Gone(w', o) {
      assert o != owner ==> Gone(w, o);
      forall k ensures !Holds(w'.db, w'.now, k, o) {
        assert Holds(w.db, w.now, k, o) ==> o == owner && k == h'.key;
      }
    }
  }

  /** A Lock object may be marked as lost when the server does not hold its token. */
  lemma MarkKeeps(w: World, owner: string, h': Handle)
    requires Inv(w) && owner in w.handles && h'.key == w.handles[owner].key
    requires !h'.acquired ==> !w.handles[owner].acquired || !HoldsOwn(w, owner)
    ensures Inv(w.(handles := w.handles[owner := h']))
  {
  }

  lemma StepKeeps(w: World, op: Op)
    requires Inv(w) && Allowed(w, op)
    ensures Inv(Step(w, op))
  {
    hide Inv, AfterRelease, Retime;
    var w' := Step(w, op);
    match op {
      case Tick(ms) => TickKeeps(w, ms);
      case Acquire(owner, key, ttl, net) => AcquireKeeps(w, owner, key, ttl, net);
      case Release(owner, net) => ReleaseKeeps(w, owner, net);
      case Extend(owner, ttl, net) => ExtendKeeps(w, owner, ttl, net);
      case Verify(owner, net) => MarkKeeps(w, owner, AfterVerify(w.handles[owner], HoldsOwn(w, owner), net));
    }
  }

  lemma ReleaseKeeps(w: World, owner: string, net: Net)
    requires Inv(w) && owner in w.handles
    ensures Inv(Step(w, Release(owner, net)))
  {
    hide Inv;
    var h, held := w.handles[owner], HoldsOwn(w, owner);
    var h' := AfterRelease(h, held, net);
    if Reaches(w, owner, net) && held {
      OwnChangeKeeps(w, owner, h', ReleaseKey(w.db, w.now, h.key, owner), Some(w.now));
    } else {
      MarkKeeps(w, owner, h');
    }
  }

  lemma ExtendKeeps(w: World, owner: string, ttl: int, net: Net)
    requires Inv(w) && owner in w.handles
    ensures Inv(Step(w, Extend(owner, ttl, net)))
  {
    hide Inv;
    var h, held := w.handles[owner], HoldsOwn(w, owner);
    var h' := AfterExtend(h, held, net, w.now, ttl);
    if Reaches(w, owner, net) && held {
      OwnChangeKeeps(w, owner, h', ExtendKey(w.db, w.now, h.key, owner, ttl), Some(if ttl > 0 then w.now + ttl else w.now));
    } else {
      MarkKeeps(w, owner, h');
    }
  }

  lemma {:induction false} RunKeeps(w: World, ops: seq<Op>)
    requires Inv(w) && RunAllowed(w, ops)
    ensures Inv(Run(w, ops))
    decreases |ops|
  {
    if ops != [] {
      StepKeeps(w, ops[0]);
      RunKeeps(Step(w, ops[0]), ops[1..]);
    }
  }

  // ---------- Results ----------

  /**
   Mutual exclusion of tenures: in every run, of two successful acquisitions of one key the earlier has ended
   before the later starts, lost replies included.
   */
  lemma TenuresAreDisjoint(ops: seq<Op>, i: nat, j: nat)
    requires RunAllowed(Start, ops)
    requires var ts := Run(Start, ops).tenures; i < j < |ts| && ts[i].key == ts[j].key
    ensures var ts := Run(Start, ops).tenures;
            && ts[i].end.Some? && ts[i].start <= ts[i].end.value
            && ts[i].owner != ts[j].owner
            && ts[i].end.value <= ts[j].start
  {
    RunKeeps(Start, ops);
  }

  /** The server stores a live token exactly while one of its tenures runs. */
  lemma HeldIffInTenure(ops: seq<Op>, key: string, owner: string)
    requires RunAllowed(Start, ops)
    ensures var w := Run(Start, ops);
            Holds(w.db, w.now, key, owner) <==>
              exists i :: 0 <= i < |w.tenures| && w.tenures[i].key == key && w.tenures[i].owner == owner
                       && w.tenures[i].start <= w.now && !Ended(w.tenures[i], w.now)
  {
    RunKeeps(Start, ops);
    var w := Run(Start, ops);
    if Holds(w.db, w.now, key, owner) {
      var i := HeldTenure(w, key, owner);
      assert w.tenures[i].start <= w.now;
    }
  }

  /** Only its owner's requests, or time, can change or remove a live entry. */
  lemma OthersCannotAlter(w: World, op: Op, key: string)
    requires Inv(w) && Allowed(w, op) && Exists(w.db, w.now, key)
    requires op.Tick? || op.owner != w.db[key].value
    ensures var w' := Step(w, op); key in w'.db && w'.db[key] == w.db[key]
  {
  }

  ghost predicate Lost(w: World, owner: string) {
    owner in w.used && Gone(w, owner)
  }

  lemma StepKeepsLost(w: World, op: Op, owner: string)
    requires Inv(w) && Allowed(w, op) && Lost(w, owner)
    ensures Lost(Step(w, op), owner)
  {
    var w' := Step(w, op);
    forall key ensures !Holds(w'.db, w'.now, key, owner) {
      assert !Holds(w.db, w.now, key, owner);
    }
  }

  /** The replies that report success for a request of this Lock object. */
  predicate Succeeds(w: World, op: Op)
    requires Allowed(w, op)
  {
    match op
    case Release(owner, net) => Reaches(w, owner, net) && net.Delivered? && HoldsOwn(w, owner)
    case Extend(owner, _, net) => Reaches(w, owner, net) && net.Delivered? && HoldsOwn(w, owner)
    case Verify(owner, net) => Reaches(w, owner, net) && net.Delivered? && HoldsOwn(w, owner)
    case _ => true
  }

  /** Once a token is off the server it never returns: no later Release, Extend or Verify of its Lock succeeds. */
  lemma {:induction false} LostStaysLost(w: World, ops: seq<Op>, op: Op)
    requires Inv(w) && RunAllowed(w, ops) && Allowed(Run(w, ops), op)
    requires (op.Release? || op.Extend? || op.Verify?) && Lost(w, op.owner)
    ensures Lost(Run(w, ops), op.owner) && !Succeeds(Run(w, ops), op)
    decreases |ops|
  {
    if ops != [] {
      StepKeeps(w, ops[0]);
      StepKeepsLost(w, ops[0], op.owner);
      LostStaysLost(Step(w, ops[0]), ops[1..], op);
    } else {
      assert Gone(w, op.owner);
    }
  }

  /** A Lock object that says it is not acquired has no token anywhere on the server. */
  lemma NotAcquiredIsGone(ops: seq<Op>, owner: string)
    requires RunAllowed(Start, ops)
    requires var w := Run(Start, ops); owner in w.handles && !w.handles[owner].acquired
    ensures Gone(Run(Start, ops), owner)
  {
    RunKeeps(Start, ops);
  }

  // ---------- The client's expiry ----------

  /** What the server knows of a held token is what its Lock object expects. */
  ghost predicate ExpiryKnown(w: World, owner: string) {
    HoldsOwn(w, owner) ==> w.handles[owner].acquired && w.db[w.handles[owner].key].expiry == Some(w.handles[owner].expiresAt)
  }

  /** A Lock object that is acquired and not yet expired is held. */
  ghost predicate HeldUntilExpiry(w: World, owner: string) {
    owner in w.handles && w.handles[owner].acquired && w.now < w.handles[owner].expiresAt ==> HoldsOwn(w, owner)
  }

  /** The token was acquired with a positive time, and no Extend of it lost its reply. */
  predicate ExtendsHeard(op: Op, owner: string) {
    && (op.Acquire? && op.owner == owner ==> op.ttl > 0)
    && (op.Extend? && op.owner == owner ==> !op.net.ReplyLost?)
  }

  predicate ReleasesHeard(op: Op, owner: string) {
    op.Release? && op.owner == owner ==> !op.net.ReplyLost?
  }

  lemma StepKeepsExpiry(w: World, op: Op, owner: string)
    requires Inv(w) && Allowed(w, op) && ExpiryKnown(w, owner) && ExtendsHeard(op, owner)
    ensures ExpiryKnown(Step(w, op), owner)
    ensures ReleasesHeard(op, owner) && HeldUntilExpiry(w, owner) ==> HeldUntilExpiry(Step(w, op), owner)
  {
    if op.Tick? || op.owner != owner {
      if owner in w.handles {
        OthersKeepHeld(w, op, owner);
      }
    } else {
      OwnKeepsExpiry(w, op, owner);
    }
  }

  /** Anyone else's step neither ends nor starts a hold, and leaves the Lock object alone. */
  lemma OthersKeepHeld(w: World, op: Op, owner: string)
    requires Inv(w) && Allowed(w, op) && owner in w.handles && (op.Tick? || op.owner != owner)
    ensures var w' := Step(w, op);
            && owner in w'.handles && w'.handles[owner] == w.handles[owner]
            && (HoldsOwn(w', owner) ==> HoldsOwn(w, owner) && w'.db[w.handles[owner].key] == w.db[w.handles[owner].key])
            && (HoldsOwn(w, owner) && (op.Tick? ==> Live(w.db[w.handles[owner].key], w'.now)) ==> HoldsOwn(w', owner))
  {
    if HoldsOwn(w, owner) {
      OthersCannotAlter(w, op, w.handles[owner].key);
    }
  }

  lemma OwnKeepsExpiry(w: World, op: Op, owner: string)
    requires Known(w) && Allowed(w, op) && ExpiryKnown(w, owner) && ExtendsHeard(op, owner) && !op.Tick? && op.owner == owner
    ensures ExpiryKnown(Step(w, op), owner)
    ensures ReleasesHeard(op, owner) && HeldUntilExpiry(w, owner) ==> HeldUntilExpiry(Step(w, op), owner)
  {
  }

  lemma {:induction false} RunKeepsExpiry(w: World, ops: seq<Op>, owner: string)
    requires Inv(w) && RunAllowed(w, ops) && ExpiryKnown(w, owner)
    requires forall k | 0 <= k < |ops| :: ExtendsHeard(ops[k], owner)
    ensures ExpiryKnown(Run(w, ops), owner)
    ensures HeldUntilExpiry(w, owner) && (forall k | 0 <= k < |ops| :: ReleasesHeard(ops[k], owner)) ==>
              HeldUntilExpiry(Run(w, ops), owner)
    decreases |ops|
  {
    if ops != [] {
      hide Inv, Step, ExpiryKnown, HeldUntilExpiry;
      StepKeeps(w, ops[0]);
      StepKeepsExpiry(w, ops[0], owner);
      RunKeepsExpiry(Step(w, ops[0]), ops[1..], owner);
    }
  }

  /**
   A passed `expiresAt` means that the token is gone, if it was acquired with a positive time and no Extend of it
   lost its reply. If no Release lost its reply either, the Lock object knows exactly: the token is on the server
   iff the object is acquired and `expiresAt` has not been reached.
   */
  lemma {:induction false} ExpiryIsServers(ops: seq<Op>, owner: string)
    requires RunAllowed(Start, ops) && owner in Run(Start, ops).handles
    requires forall k | 0 <= k < |ops| :: ExtendsHeard(ops[k], owner)
    ensures var w := Run(Start, ops);
            && (w.now >= w.handles[owner].expiresAt ==> Gone(w, owner))
            && ((forall k | 0 <= k < |ops| :: ReleasesHeard(ops[k], owner)) ==>
                  (HoldsOwn(w, owner) <==> w.handles[owner].acquired && w.now < w.handles[owner].expiresAt))
  {
    RunKeepsExpiry(Start, ops, owner);
    RunKeeps(Start, ops);
    var w := Run(Start, ops);
    if w.now >= w.handles[owner].expiresAt {
      forall key ensures !Holds(w.db, w.now, key, owner) {
        if Holds(w.db, w.now, key, owner) {
          var _ := HeldTenure(w, key, owner);
        }
      }
    }
  }

  /** The condition is needed: after an Extend with a lost reply the server may hold the token past `expiresAt`. */
  lemma LostExtendOutlives(key: string, owner: string, ttl: nat)
    requires ttl >= 1
    ensures var ops := [Acquire(owner, key, ttl, Delivered), Extend(owner, 2 * ttl, ReplyLost), Tick(ttl)];
            && RunAllowed(Start, ops)
            && var w := Run(Start, ops);
               owner in w.handles && HoldsOwn(w, owner) && w.now >= w.handles[owner].expiresAt
  {
    var o1, o2, o3 := Acquire(owner, key, ttl, Delivered), Extend(owner, 2 * ttl, ReplyLost), Tick(ttl);
    var w1 := Step(Start, o1);
    var w2 := Step(w1, o2);
    var w3 := Step(w2, o3);
    assert [o1, o2, o3][1..] == [o2, o3] && [o2, o3][1..] == [o3] && [o3][1..] == [];
    assert RunAllowed(w3, []) && Run(w3, []) == w3;
    assert RunAllowed(w2, [o3]) && Run(w2, [o3]) == w3;
    assert RunAllowed(w1, [o2, o3]) && Run(w1, [o2, o3]) == w3;
  }
}
