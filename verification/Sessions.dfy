/**
 The session store's effect on its two kinds of keys, in whole seconds: a session under its ID, and per user
 an index of session IDs with an expiry of its own. Operations are serialised and take no time, except where
 a lemma takes them apart.
 */
module Sessions {
  import opened Redis

  /** `data` stands for the device fields, the address and the custom data. */
  datatype Session = Session(id: string, user: string, created: int, lastActive: int, expiresAt: int, data: string)

  type SessionKeys = map<string, Entry<Session>>
  type Indexes = map<string, Entry<set<string>>>

  datatype Store = Store(sessions: SessionKeys, indexes: Indexes)

  function Members(ix: Indexes, now: int, user: string): set<string> {
    match Get(ix, now, user)
    case None => {}
    case Some(ids) => ids
  }

  function SAdd(ix: Indexes, now: int, user: string, id: string): Indexes {
    if Exists(ix, now, user) then ix[user := Entry(ix[user].value + {id}, ix[user].expiry)]
    else ix[user := Entry({id}, None)]
  }

  /** SREM; an emptied set is deleted. */
  function SRem(ix: Indexes, now: int, user: string, ids: set<string>): Indexes {
    if !Exists(ix, now, user) then ix
    else if ix[user].value - ids == {} then ix - {user}
    else ix[user := Entry(ix[user].value - ids, ix[user].expiry)]
  }

  // ---------- Operations ----------

  /** The writes of CreateWithTTL, given the index TTL that was read before them. */
  function CreateAfterRead(st: Store, now: int, user: string, ttl: int, currentTtl: int, id: string, data: string): Store {
    var indexTtl := if currentTtl > 0 && currentTtl > ttl then currentTtl else ttl;
    Store(st.sessions[id := Entry(Session(id, user, now, now, now + ttl, data), SetExpiry(now, ttl))],
          Expire(SAdd(st.indexes, now, user, id), now, user, indexTtl))
  }

  function Create(st: Store, now: int, user: string, ttl: int, id: string, data: string): Store {
    if ttl <= 0 then st
    else CreateAfterRead(st, now, user, ttl, Ttl(st.indexes, now, user), id, data)
  }

  /** `update` writes unconditionally; a session past its time is kept for the default time. */
  function Write(st: Store, now: int, defaultTtl: int, s: Session): Store {
    var ttl := if s.expiresAt - now <= 0 then defaultTtl else s.expiresAt - now;
    st.(sessions := st.sessions[s.id := Entry(s, SetExpiry(now, ttl))])
  }

  function Update(st: Store, now: int, defaultTtl: int, s: Session): Store {
    Write(st, now, defaultTtl, s.(lastActive := now))
  }

  function Touch(st: Store, now: int, defaultTtl: int, id: string): Store {
    match Get(st.sessions, now, id)
    case None => st
    case Some(s) => Write(st, now, defaultTtl, s.(lastActive := now))
  }

  function Extend(st: Store, now: int, defaultTtl: int, id: string, ttl: int): Store {
    match Get(st.sessions, now, id)
    case None => st
    case Some(s) =>
      var st' := Write(st, now, defaultTtl, s.(expiresAt := now + ttl, lastActive := now));
      var currentTtl := Ttl(st'.indexes, now, s.user);
      if currentTtl < 0 || ttl > currentTtl then st'.(indexes := Expire(st'.indexes, now, s.user, ttl)) else st'
  }

  function Delete(st: Store, now: int, id: string): Store {
    match Get(st.sessions, now, id)
    case None => st
    case Some(s) => Store(st.sessions - {id}, SRem(st.indexes, now, s.user, {id}))
  }

  /** The DEL of DeleteByUserID, given the members that were read before it. */
  function DeleteAfterRead(st: Store, user: string, ids: set<string>): Store {
    if ids == {} then st else Store(st.sessions - ids, st.indexes - {user})
  }

  function DeleteByUser(st: Store, now: int, user: string): Store {
    DeleteAfterRead(st, user, Members(st.indexes, now, user))
  }

  function Present(st: Store, now: int, user: string): set<string> {
    set id | id in Members(st.indexes, now, user) && Exists(st.sessions, now, id)
  }

  function Stale(st: Store, now: int, user: string): set<string> {
    Members(st.indexes, now, user) - Present(st, now, user)
  }

  /** The background SREM of ids found expired earlier. */
  function Cleanup(st: Store, now: int, user: string, ids: set<string>): Store {
    st.(indexes := SRem(st.indexes, now, user, ids))
  }

  // ---------- The index invariant ----------

  /** The user's index holds the id and lasts at least until the given time. */
  predicate Covered(st: Store, now: int, user: string, id: string, until: int) {
    && Exists(st.indexes, now, user)
    && id in st.indexes[user].value
    && st.indexes[user].expiry.Some?
    && until <= st.indexes[user].expiry.value
  }

  predicate SessionOk(st: Store, now: int, id: string)
    requires Exists(st.sessions, now, id)
  {
    var s := st.sessions[id].value;
    && s.id == id
    && st.sessions[id].expiry == Some(s.expiresAt)
    && Covered(st, now, s.user, id, s.expiresAt)
  }

  ghost predicate SessionsOk(st: Store, now: int) {
    forall id | Exists(st.sessions, now, id) :: SessionOk(st, now, id)
  }

  /** A live session appears in no other user's index. */
  predicate Owned(st: Store, now: int, user: string, id: string) {
    id in Members(st.indexes, now, user) && Exists(st.sessions, now, id) ==> st.sessions[id].value.user == user
  }

  ghost predicate OwnersOk(st: Store, now: int) {
    forall user, id :: Owned(st, now, user, id)
  }

  ghost predicate Inv(st: Store, now: int) {
    SessionsOk(st, now) && OwnersOk(st, now)
  }

  ghost predicate Fresh(st: Store, now: int, id: string) {
    !Exists(st.sessions, now, id) && forall user :: id !in Members(st.indexes, now, user)
  }

  predicate LiveOf(st: Store, now: int, user: string, id: string) {
    Exists(st.sessions, now, id) && st.sessions[id].value.user == user
  }

  lemma TimePasses(st: Store, now: int, later: int)
    requires Inv(st, now) && now <= later
    ensures Inv(st, later)
  {
    forall id | Exists(st.sessions, later, id) ensures SessionOk(st, later, id) {
      assert SessionOk(st, now, id);
    }
    forall user, id ensures Owned(st, later, user, id) {
      assert Owned(st, now, user, id);
    }
  }

  // ---------- Create, and what a stale TTL read does to it ----------

  /**
   The writes of a create keep the invariant, whatever TTL was read before them, iff no live session of the
   user outlives the index expiry that they set.
   */
  lemma CreateAfterReadIff(st: Store, now: int, user: string, ttl: int, currentTtl: int, id: string, data: string)
    requires Inv(st, now) && ttl > 0 && Fresh(st, now, id)
    ensures var bound := now + if currentTtl > 0 && currentTtl > ttl then currentTtl else ttl;
            Inv(CreateAfterRead(st, now, user, ttl, currentTtl, id, data), now) <==>
              forall k | LiveOf(st, now, user, k) :: st.sessions[k].value.expiresAt <= bound
  {
    var st' := CreateAfterRead(st, now, user, ttl, currentTtl, id, data);
    var bound := now + if currentTtl > 0 && currentTtl > ttl then currentTtl else ttl;
    assert st'.indexes[user].expiry == Some(bound);
    forall u, k ensures Owned(st', now, u, k) {
      assert Owned(st, now, u, k);
      assert id !in Members(st.indexes, now, u);
    }
    if forall k | LiveOf(st, now, user, k) :: st.sessions[k].value.expiresAt <= bound {
      forall k | Exists(st'.sessions, now, k) ensures SessionOk(st', now, k) {
        if k != id {
          assert SessionOk(st, now, k);
        }
      }
    }
    if Inv(st', now) {
      forall k | LiveOf(st, now, user, k) ensures st.sessions[k].value.expiresAt <= bound {
        assert k != id;
        assert SessionOk(st', now, k);
      }
    }
  }

  /** A serialised create keeps the invariant and never shortens the index. */
  lemma CreateKeeps(st: Store, now: int, user: string, ttl: int, id: string, data: string)
    requires Inv(st, now) && Fresh(st, now, id)
    ensures var st' := Create(st, now, user, ttl, id, data);
            && Inv(st', now)
            && forall u | Exists(st.indexes, now, u) && st.indexes[u].expiry.Some? ::
                 && Exists(st'.indexes, now, u) && st'.indexes[u].expiry.Some?
                 && st.indexes[u].expiry.value <= st'.indexes[u].expiry.value
  {
    if ttl > 0 {
      forall k | LiveOf(st, now, user, k) ensures st.sessions[k].value.expiresAt <= now + Ttl(st.indexes, now, user) {
        assert SessionOk(st, now, k);
      }
      CreateAfterReadIff(st, now, user, ttl, Ttl(st.indexes, now, user), id, data);
    }
  }

  /** Interleaved creates break it: both read the TTL of a missing index, and the shorter one writes last. */
  lemma RacingCreatesShortenIndex(user: string, long: string, short: string)
    requires long != short
    ensures var empty := Store(map[], map[]);
            var read := Ttl(empty.indexes, 0, user);
            var st := CreateAfterRead(CreateAfterRead(empty, 0, user, 100, read, long, ""), 0, user, 10, read, short, "");
            && Inv(empty, 0)
            && Exists(st.sessions, 10, long) && !Exists(st.indexes, 10, user)
            && !Inv(st, 0)
  {
    var empty := Store(map[], map[]);
    var st1 := CreateAfterRead(empty, 0, user, 100, -2, long, "");
    CreateKeeps(empty, 0, user, 100, long, "");
    assert LiveOf(st1, 0, user, long);
    CreateAfterReadIff(st1, 0, user, 10, -2, short, "");
  }

  /** What a create leaves behind, entry by entry. */
  lemma CreateExact(st: Store, now: int, user: string, ttl: int, id: string, data: string)
    requires ttl > 0
    ensures var st' := Create(st, now, user, ttl, id, data);
            && st'.sessions == st.sessions[id := Entry(Session(id, user, now, now, now + ttl, data), Some(now + ttl))]
            && user in st'.indexes
            && st'.indexes[user].value == (if Exists(st.indexes, now, user) then st.indexes[user].value else {}) + {id}
            && st'.indexes[user].expiry.Some? && st'.indexes[user].expiry.value >= now + ttl
            && (Exists(st.indexes, now, user) && st.indexes[user].expiry.Some? ==>
                  st'.indexes[user].expiry.value == Later(st.indexes[user].expiry.value, now + ttl))
            && (!Exists(st.indexes, now, user) || st.indexes[user].expiry.None? ==>
                  st'.indexes[user].expiry.value == now + ttl)
            && (forall u | u != user :: (u in st'.indexes <==> u in st.indexes)
                                     && (u in st.indexes ==> st'.indexes[u] == st.indexes[u]))
  {
  }

  function Later(a: int, b: int): (m: int)
    ensures m >= a && m >= b && (m == a || m == b)
  {
    if a >= b then a else b
  }

  // ---------- Update and Extend ----------

  /**
   Public Update of any session value keeps the invariant iff its time is still ahead, its user's index holds
   its ID long enough, and no other user's index holds it.
   */
  lemma UpdateIff(st: Store, now: int, defaultTtl: int, s: Session)
    requires Inv(st, now)
    ensures Inv(Update(st, now, defaultTtl, s), now) <==>
              && s.expiresAt > now
              && Covered(st, now, s.user, s.id, s.expiresAt)
              && forall user | s.id in Members(st.indexes, now, user) :: user == s.user
  {
    var st' := Update(st, now, defaultTtl, s);
    assert Exists(st'.sessions, now, s.id);
    if s.expiresAt > now && Covered(st, now, s.user, s.id, s.expiresAt)
       && (forall user | s.id in Members(st.indexes, now, user) :: user == s.user) {
      forall u, k ensures Owned(st', now, u, k) {
        assert Owned(st, now, u, k);
      }
      forall k | Exists(st'.sessions, now, k) ensures SessionOk(st', now, k) {
        if k != s.id {
          assert SessionOk(st, now, k);
        }
      }
    }
    if Inv(st', now) {
      assert SessionOk(st', now, s.id);
      forall user | s.id in Members(st.indexes, now, user) ensures user == s.user {
        assert Owned(st', now, user, s.id);
      }
    }
  }

  /** Updating a live session without changing its ID, user or expiry meets that condition. */
  lemma UpdateLiveKeeps(st: Store, now: int, defaultTtl: int, s: Session)
    requires Inv(st, now) && Exists(st.sessions, now, s.id)
    requires var t := st.sessions[s.id].value; s.user == t.user && s.expiresAt == t.expiresAt
    ensures Inv(Update(st, now, defaultTtl, s), now)
  {
    assert SessionOk(st, now, s.id);
    forall user | s.id in Members(st.indexes, now, user) ensures user == s.user {
      assert Owned(st, now, user, s.id);
    }
    UpdateIff(st, now, defaultTtl, s);
  }

  /** Touching rewrites `lastActive` of that session and moves no expiry. */
  lemma TouchMovesNoExpiry(st: Store, now: int, defaultTtl: int, id: string)
    requires Inv(st, now)
    ensures var st' := Touch(st, now, defaultTtl, id);
            && Inv(st', now)
            && st'.indexes == st.indexes
            && st'.sessions ==
                 if Exists(st.sessions, now, id)
                 then st.sessions[id := Entry(st.sessions[id].value.(lastActive := now), st.sessions[id].expiry)]
                 else st.sessions
  {
    if Exists(st.sessions, now, id) {
      assert SessionOk(st, now, id);
      UpdateLiveKeeps(st, now, defaultTtl, st.sessions[id].value);
    }
  }

  /** Extend keeps the invariant iff the new time is positive: otherwise the key outlives the expiry it records. */
  lemma ExtendIff(st: Store, now: int, defaultTtl: int, id: string, ttl: int)
    requires Inv(st, now) && Exists(st.sessions, now, id)
    ensures Inv(Extend(st, now, defaultTtl, id, ttl), now) <==> ttl > 0
  {
    var st', s := Extend(st, now, defaultTtl, id, ttl), st.sessions[id].value;
    assert SessionOk(st, now, id);
    assert Exists(st'.sessions, now, id);
    assert Members(st'.indexes, now, s.user) == Members(st.indexes, now, s.user);
    forall u, k ensures Owned(st', now, u, k) {
      assert Owned(st, now, u, k);
    }
    if ttl > 0 {
      forall k | Exists(st'.sessions, now, k) ensures SessionOk(st', now, k) {
        assert SessionOk(st, now, k);
      }
    } else {
      assert !SessionOk(st', now, id);
    }
  }

  /**
   Extending a live session by a positive time: its key holds the old session with the new expiry and this moment as
   its last activity, until that expiry; its index lasts at least as long; everything else is as before.
   */
  lemma ExtendExact(st: Store, now: int, defaultTtl: int, id: string, ttl: int)
    requires Inv(st, now) && Exists(st.sessions, now, id) && ttl > 0
    ensures var st' := Extend(st, now, defaultTtl, id, ttl);
            var s := st.sessions[id].value;
            && st'.sessions == st.sessions[id := Entry(Session(s.id, s.user, s.created, now, now + ttl, s.data), Some(now + ttl))]
            && s.user in st.indexes && st.indexes[s.user].expiry.Some?
            && st'.indexes == st.indexes[s.user := Entry(st.indexes[s.user].value,
                                                        Some(Later(st.indexes[s.user].expiry.value, now + ttl)))]
  {
    assert SessionOk(st, now, id);
    var user := st.sessions[id].value.user;
    assert st.indexes[user := st.indexes[user]] == st.indexes;
  }

  /** A time that is not positive stores an expiry that has passed, under a key that lives for the default time. */
  lemma LateExtendExact(st: Store, now: int, defaultTtl: int, id: string, ttl: int)
    requires Inv(st, now) && Exists(st.sessions, now, id) && ttl <= 0 && defaultTtl > 0
    ensures var st', s := Extend(st, now, defaultTtl, id, ttl), st.sessions[id].value;
            && st'.indexes == st.indexes
            && st'.sessions == st.sessions[id := Entry(Session(s.id, s.user, s.created, now, now + ttl, s.data), Some(now + defaultTtl))]
  {
    assert SessionOk(st, now, id);
  }

  /** An update stores the caller's value with this moment as its last activity, until its expiry if that is ahead. */
  lemma UpdateExact(st: Store, now: int, defaultTtl: int, s: Session)
    requires s.expiresAt > now
    ensures Update(st, now, defaultTtl, s)
         == Store(st.sessions[s.id := Entry(Session(s.id, s.user, s.created, now, s.expiresAt, s.data), Some(s.expiresAt))], st.indexes)
  {
  }

  /** A session past its expiry is stored for the default time, with the expiry it had. */
  lemma LateUpdateExact(st: Store, now: int, defaultTtl: int, s: Session)
    requires s.expiresAt <= now && defaultTtl > 0
    ensures Update(st, now, defaultTtl, s)
         == Store(st.sessions[s.id := Entry(Session(s.id, s.user, s.created, now, s.expiresAt, s.data), Some(now + defaultTtl))], st.indexes)
  {
  }

  /** Extend never shortens an index, whatever time it is given. */
  lemma ExtendNeverShortens(st: Store, now: int, defaultTtl: int, id: string, ttl: int, user: string)
    requires Inv(st, now) && Exists(st.indexes, now, user) && st.indexes[user].expiry.Some?
    ensures var ix := Extend(st, now, defaultTtl, id, ttl).indexes;
            && Exists(ix, now, user) && ix[user].value == st.indexes[user].value
            && ix[user].expiry.Some? && st.indexes[user].expiry.value <= ix[user].expiry.value
  {
  }

  // ---------- Deletes and cleanup ----------

  lemma DeleteKeeps(st: Store, now: int, id: string)
    requires Inv(st, now)
    ensures var st' := Delete(st, now, id);
            && Inv(st', now) && !Exists(st'.sessions, now, id)
            && forall k | k != id :: Get(st'.sessions, now, k) == Get(st.sessions, now, k)
  {
    var st' := Delete(st, now, id);
    forall u, k ensures Owned(st', now, u, k) {
      assert Owned(st, now, u, k);
    }
    forall k | Exists(st'.sessions, now, k) ensures SessionOk(st', now, k) {
      assert SessionOk(st, now, k);
    }
  }

  /** Deleting a live session removes its key, takes its ID out of its user's index, and changes nothing else. */
  lemma DeleteExact(st: Store, now: int, id: string)
    requires Inv(st, now) && Exists(st.sessions, now, id)
    ensures var st', user := Delete(st, now, id), st.sessions[id].value.user;
            && st'.sessions == st.sessions - {id}
            && (forall u, k :: k in Members(st'.indexes, now, u) <==> k in Members(st.indexes, now, u) && !(u == user && k == id))
            && (forall u | u in st'.indexes :: u in st.indexes && st'.indexes[u].expiry == st.indexes[u].expiry)
  {
    assert SessionOk(st, now, id);
  }

  /** Deleting a session that is not there changes nothing. */
  lemma DeleteMissing(st: Store, now: int, id: string)
    requires !Exists(st.sessions, now, id)
    ensures Delete(st, now, id) == st
  {
  }

  /** A cleanup takes exactly the given IDs out of the user's index. */
  lemma CleanupExact(st: Store, now: int, user: string, ids: set<string>)
    ensures var st' := Cleanup(st, now, user, ids);
            && st'.sessions == st.sessions
            && (forall u, k :: k in Members(st'.indexes, now, u) <==> k in Members(st.indexes, now, u) && !(u == user && k in ids))
  {
    var ix := SRem(st.indexes, now, user, ids);
    assert Members(ix, now, user) == Members(st.indexes, now, user) - ids;
    forall u | u != user ensures Members(ix, now, u) == Members(st.indexes, now, u) {
    }
  }

  /** Deleting what an earlier read found keeps the invariant iff the read found every live session of the user. */
  lemma DeleteAfterReadIff(st: Store, now: int, user: string, ids: set<string>)
    requires Inv(st, now) && ids != {}
    ensures Inv(DeleteAfterRead(st, user, ids), now) <==> forall id | LiveOf(st, now, user, id) :: id in ids
  {
    var st' := DeleteAfterRead(st, user, ids);
    forall u, k ensures Owned(st', now, u, k) {
      assert Owned(st, now, u, k);
    }
    if forall id | LiveOf(st, now, user, id) :: id in ids {
      forall k | Exists(st'.sessions, now, k) ensures SessionOk(st', now, k) {
        assert SessionOk(st, now, k);
      }
    }
    if Inv(st', now) {
      forall id | LiveOf(st, now, user, id) ensures id in ids {
        assert id !in ids ==> SessionOk(st', now, id);
      }
    }
  }

  /** The index lists exactly the user's live sessions. */
  lemma PresentIsLive(st: Store, now: int, user: string)
    requires Inv(st, now)
    ensures forall id :: id in Present(st, now, user) <==> LiveOf(st, now, user, id)
  {
    forall id ensures id in Present(st, now, user) <==> LiveOf(st, now, user, id) {
      assert Owned(st, now, user, id);
      assert Exists(st.sessions, now, id) ==> SessionOk(st, now, id);
    }
  }

  /** After DeleteByUserID that user has no live session, and everyone else's are as before. */
  lemma DeleteByUserExact(st: Store, now: int, user: string)
    requires Inv(st, now)
    ensures var st' := DeleteByUser(st, now, user);
            && Inv(st', now)
            && (forall id :: !LiveOf(st', now, user, id))
            && (forall id | !LiveOf(st, now, user, id) :: Get(st'.sessions, now, id) == Get(st.sessions, now, id))
            && (forall u | u != user :: Get(st'.indexes, now, u) == Get(st.indexes, now, u))
  {
    PresentIsLive(st, now, user);
    var ids := Members(st.indexes, now, user);
    if ids != {} {
      DeleteAfterReadIff(st, now, user, ids);
    }
  }

  /** Removing IDs without a live session from an index keeps the invariant and no session is touched. */
  lemma CleanupKeeps(st: Store, now: int, user: string, ids: set<string>)
    requires Inv(st, now) && forall id | id in ids :: !Exists(st.sessions, now, id)
    ensures Inv(Cleanup(st, now, user, ids), now) && Cleanup(st, now, user, ids).sessions == st.sessions
  {
    var st' := Cleanup(st, now, user, ids);
    forall u, k ensures Owned(st', now, u, k) {
      assert Owned(st, now, u, k);
    }
    forall k | Exists(st'.sessions, now, k) ensures SessionOk(st', now, k) {
      assert SessionOk(st, now, k);
      assert st.sessions[k].value.user == user ==> k in st.indexes[user].value - ids;
    }
  }

  // ---------- Runs ----------

  datatype Op =
    | Tick(seconds: nat)
    | DoCreate(user: string, ttl: int, id: string, data: string)
    | DoGet(id: string, touch: bool)
    | DoUpdate(s: Session)
    | DoExtend(id: string, ttl: int)
    | DoDelete(id: string)
    | DoDeleteByUser(user: string)
    | DoListOrCount(user: string)
    | DoCleanup(job: Job)

  /** A background SREM that has been started and may run at any later time, or never, or again. */
  datatype Job = Job(user: string, ids: set<string>)

  /** `creators` maps every ID that was ever generated to the user it was created for. */
  datatype World = World(now: int, st: Store, creators: map<string, string>, jobs: set<Job>)

  /** What callers are asked for: new IDs, updates of live sessions that keep ID, user and expiry, positive extensions. */
  predicate Allowed(w: World, op: Op) {
    match op
    case DoCreate(_, _, id, _) => id !in w.creators
    case DoUpdate(s) =>
      && Exists(w.st.sessions, w.now, s.id)
      && s.user == w.st.sessions[s.id].value.user && s.expiresAt == w.st.sessions[s.id].value.expiresAt
    case DoExtend(_, ttl) => ttl > 0
    case DoCleanup(job) => job in w.jobs
    case _ => true
  }

  function Step(w: World, defaultTtl: int, op: Op): World {
    match op
    case Tick(d) => w.(now := w.now + d)
    case DoCreate(user, ttl, id, data) => w.(st := Create(w.st, w.now, user, ttl, id, data), creators := w.creators[id := user])
    case DoGet(id, touch) => if touch then w.(st := Touch(w.st, w.now, defaultTtl, id)) else w
    case DoUpdate(s) => w.(st := Update(w.st, w.now, defaultTtl, s))
    case DoExtend(id, ttl) => w.(st := Extend(w.st, w.now, defaultTtl, id, ttl))
    case DoDelete(id) => w.(st := Delete(w.st, w.now, id))
    case DoDeleteByUser(user) => w.(st := DeleteByUser(w.st, w.now, user))
    case DoListOrCount(user) => w.(jobs := w.jobs + {Job(user, Stale(w.st, w.now, user))})
    case DoCleanup(job) => w.(st := Cleanup(w.st, w.now, job.user, job.ids))
  }

  predicate RunAllowed(w: World, defaultTtl: int, ops: seq<Op>)
    decreases |ops|
  {
    ops == [] || (Allowed(w, ops[0]) && RunAllowed(Step(w, defaultTtl, ops[0]), defaultTtl, ops[1..]))
  }

  function Run(w: World, defaultTtl: int, ops: seq<Op>): World
    decreases |ops|
  {
    if ops == [] then w else Run(Step(w, defaultTtl, ops[0]), defaultTtl, ops[1..])
  }

  predicate CreatedFor(w: World, user: string, id: string) {
    id in w.creators && w.creators[id] == user
  }

  /** Sessions and index entries belong to the user their ID was created for, also after the session has expired. */
  ghost predicate Known(w: World) {
    && (forall id | id in w.st.sessions :: CreatedFor(w, w.st.sessions[id].value.user, id))
    && (forall user, id | user in w.st.indexes && id in w.st.indexes[user].value :: CreatedFor(w, user, id))
  }

  predicate Dead(w: World, id: string) {
    id in w.creators && !Exists(w.st.sessions, w.now, id)
  }

  ghost predicate JobsDead(w: World) {
    forall job, id | job in w.jobs && id in job.ids :: Dead(w, id)
  }

  ghost predicate WorldInv(w: World) {
    Inv(w.st, w.now) && Known(w) && JobsDead(w)
  }

  lemma StepKeepsInv(w: World, defaultTtl: int, op: Op)
    requires WorldInv(w) && Allowed(w, op)
    ensures var w' := Step(w, defaultTtl, op); Inv(w'.st, w'.now)
  {
    hide Inv;
    assert Inv(w.st, w.now);
    match op {
      case Tick(d) => TimePasses(w.st, w.now, w.now + d);
      case DoCreate(user, ttl, id, data) => FreshId(w, id); CreateKeeps(w.st, w.now, user, ttl, id, data);
      case DoGet(id, touch) => TouchMovesNoExpiry(w.st, w.now, defaultTtl, id);
      case DoUpdate(s) => UpdateLiveKeeps(w.st, w.now, defaultTtl, s);
      case DoExtend(id, ttl) =>
        if Exists(w.st.sessions, w.now, id) {
          ExtendIff(w.st, w.now, defaultTtl, id, ttl);
        }
      case DoDelete(id) => DeleteKeeps(w.st, w.now, id);
      case DoDeleteByUser(user) => DeleteByUserExact(w.st, w.now, user);
      case DoListOrCount(user) =>
      case DoCleanup(job) =>
        assert forall id | id in job.ids :: Dead(w, id);
        CleanupKeeps(w.st, w.now, job.user, job.ids);
    }
  }

  lemma FreshId(w: World, id: string)
    requires Known(w) && id !in w.creators
    ensures Fresh(w.st, w.now, id)
  {
  }

  lemma StepKeepsKnown(w: World, defaultTtl: int, op: Op)
    requires WorldInv(w) && Allowed(w, op)
    ensures Known(Step(w, defaultTtl, op))
  {
    if op.DoExtend? || op.DoUpdate? || op.DoGet? {
      WritesKeepKnown(w, defaultTtl, op);
    }
  }

  /** Rewriting a live session changes neither its user nor the members of an index. */
  lemma WritesKeepKnown(w: World, defaultTtl: int, op: Op)
    requires WorldInv(w) && Allowed(w, op) && (op.DoExtend? || op.DoUpdate? || op.DoGet?)
    ensures Known(Step(w, defaultTtl, op))
  {
    var id := if op.DoUpdate? then op.s.id else op.id;
    if Exists(w.st.sessions, w.now, id) {
      assert SessionOk(w.st, w.now, id);
    }
  }

  /** One step never brings a dead session back. */
  lemma StepKeepsDead(w: World, defaultTtl: int, op: Op, id: string)
    requires WorldInv(w) && Allowed(w, op) && Dead(w, id)
    ensures Dead(Step(w, defaultTtl, op), id)
  {
  }

  lemma StepKeepsWorldInv(w: World, defaultTtl: int, op: Op)
    requires WorldInv(w) && Allowed(w, op)
    ensures WorldInv(Step(w, defaultTtl, op))
  {
    StepKeepsInv(w, defaultTtl, op);
    StepKeepsKnown(w, defaultTtl, op);
    var w' := Step(w, defaultTtl, op);
    forall job, id | job in w'.jobs && id in job.ids ensures Dead(w', id) {
      if job in w.jobs {
        StepKeepsDead(w, defaultTtl, op, id);
      }
    }
  }

  /** The index invariant holds after every serialised run, and so does the deadness of every pending cleanup. */
  lemma {:induction false} RunKeepsInv(w: World, defaultTtl: int, ops: seq<Op>)
    requires WorldInv(w) && RunAllowed(w, defaultTtl, ops)
    ensures WorldInv(Run(w, defaultTtl, ops))
    decreases |ops|
  {
    if ops != [] {
      StepKeepsWorldInv(w, defaultTtl, ops[0]);
      RunKeepsInv(Step(w, defaultTtl, ops[0]), defaultTtl, ops[1..]);
    }
  }

  const Start: World := World(0, Store(map[], map[]), map[], {})

  lemma ReachableInv(defaultTtl: int, ops: seq<Op>)
    requires RunAllowed(Start, defaultTtl, ops)
    ensures WorldInv(Run(Start, defaultTtl, ops))
  {
    RunKeepsInv(Start, defaultTtl, ops);
  }

  /** In every reachable state every ID in an index, live or not, was created for that user. */
  lemma {:induction false} IndexedForOwner(defaultTtl: int, ops: seq<Op>, user: string, id: string)
    requires RunAllowed(Start, defaultTtl, ops)
    requires var w := Run(Start, defaultTtl, ops); id in Members(w.st.indexes, w.now, user)
    ensures CreatedFor(Run(Start, defaultTtl, ops), user, id)
  {
    ReachableInv(defaultTtl, ops);
  }

  /** A session that is gone is gone for the rest of the run. */
  lemma {:induction false} DeadStaysDead(w: World, defaultTtl: int, ops: seq<Op>, id: string)
    requires WorldInv(w) && RunAllowed(w, defaultTtl, ops) && Dead(w, id)
    ensures Dead(Run(w, defaultTtl, ops), id)
    decreases |ops|
  {
    if ops != [] {
      StepKeepsWorldInv(w, defaultTtl, ops[0]);
      StepKeepsDead(w, defaultTtl, ops[0], id);
      DeadStaysDead(Step(w, defaultTtl, ops[0]), defaultTtl, ops[1..], id);
    }
  }

  /** IDs found expired by a List or Count may be removed at any later point of any run: no live session leaves an index. */
  lemma DelayedCleanupIsSafe(w: World, defaultTtl: int, user: string, ops: seq<Op>)
    requires WorldInv(w) && RunAllowed(w, defaultTtl, ops)
    ensures var late := Run(w, defaultTtl, ops);
            var cleaned := Cleanup(late.st, late.now, user, Stale(w.st, w.now, user));
            && Inv(cleaned, late.now)
            && forall u, id | LiveOf(late.st, late.now, u, id) :: id in Present(cleaned, late.now, u)
  {
    var late, ids := Run(w, defaultTtl, ops), Stale(w.st, w.now, user);
    RunKeepsInv(w, defaultTtl, ops);
    forall id | id in ids ensures !Exists(late.st.sessions, late.now, id) {
      DeadStaysDead(w, defaultTtl, ops, id);
    }
    CleanupKeeps(late.st, late.now, user, ids);
    var cleaned := Cleanup(late.st, late.now, user, ids);
    forall u ensures forall id | LiveOf(late.st, late.now, u, id) :: id in Present(cleaned, late.now, u) {
      PresentIsLive(cleaned, late.now, u);
    }
  }
}
