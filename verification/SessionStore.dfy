/**
 The session store as an object: each method issues the same commands in the same order as the source, and
 is tied to the operation that the invariants are about.
 */
module SessionStoring {
  import opened Redis
  import opened Sessions

  datatype Error = InvalidTtl | NotFound

  ghost predicate NoRepeats(ids: seq<string>) {
    forall i, j | 0 <= i < j < |ids| :: ids[i] != ids[j]
  }

  lemma IdsAppend(ids: seq<string>, id: string)
    ensures Elements(ids + [id]) == Elements(ids) + {id}
    ensures NoRepeats(ids) && id !in Elements(ids) ==> NoRepeats(ids + [id])
  {
    ElementsAppend(ids, id);
    assert NoRepeats(ids) && id !in Elements(ids) ==> forall i | 0 <= i < |ids| :: ids[i] in Elements(ids);
  }

  lemma {:induction false} IdsCard(ids: seq<string>)
    requires NoRepeats(ids)
    ensures |Elements(ids)| == |ids|
  {
    if ids != [] {
      var init, last := ids[..|ids| - 1], ids[|ids| - 1];
      assert ids == init + [last];
      IdsCard(init);
      IdsAppend(init, last);
    } else {
      assert Elements(ids) == {};
    }
  }

  ghost function Alive(sessions: SessionKeys, now: int, ids: set<string>): set<string> {
    set id | id in ids && Exists(sessions, now, id)
  }

  lemma AliveAdd(sessions: SessionKeys, now: int, ids: set<string>, id: string)
    requires id !in ids
    ensures Alive(sessions, now, ids + {id}) == Alive(sessions, now, ids) + if Exists(sessions, now, id) then {id} else {}
    ensures |Alive(sessions, now, ids + {id})| == |Alive(sessions, now, ids)| + if Exists(sessions, now, id) then 1 else 0
  {
    assert Alive(sessions, now, ids + {id}) == Alive(sessions, now, ids) + if Exists(sessions, now, id) then {id} else {};
  }

  /** One more ID of an enumeration. */
  lemma NextId(sessions: SessionKeys, now: int, ids: seq<string>, i: nat)
    requires NoRepeats(ids) && i < |ids|
    ensures Elements(ids[..i + 1]) == Elements(ids[..i]) + {ids[i]} && ids[i] !in Elements(ids[..i]) && ids[i] !in Alive(sessions, now, Elements(ids[..i]))
    ensures Alive(sessions, now, Elements(ids[..i + 1]))
         == Alive(sessions, now, Elements(ids[..i])) + if Exists(sessions, now, ids[i]) then {ids[i]} else {}
    ensures |Alive(sessions, now, Elements(ids[..i + 1]))|
         == |Alive(sessions, now, Elements(ids[..i]))| + if Exists(sessions, now, ids[i]) then 1 else 0
  {
    assert ids[..i + 1] == ids[..i] + [ids[i]];
    IdsAppend(ids[..i], ids[i]);
    AliveAdd(sessions, now, Elements(ids[..i]), ids[i]);
  }

  lemma AllSeen(st: Store, now: int, user: string, ids: seq<string>)
    requires Elements(ids) == Members(st.indexes, now, user)
    ensures ids[..|ids|] == ids && Alive(st.sessions, now, Elements(ids)) == Present(st, now, user)
    ensures ids[..0] == [] && Elements<string>([]) == {} && Alive(st.sessions, now, {}) == {} && NoRepeats([])
    ensures |ids| == 0 <==> Elements(ids) == {}
    ensures Stale(st, now, user) == Elements(ids) - Present(st, now, user)
    ensures forall id :: id in Stale(st, now, user) <==> id in Members(st.indexes, now, user) && !Exists(st.sessions, now, id)
  {
    assert |ids| > 0 ==> ids[0] in Elements(ids);
  }

  class SessionStore {
    const defaultTtl: int

    var sessions: SessionKeys
    var indexes: Indexes

    constructor (defaultTtl: int)
      ensures this.defaultTtl == defaultTtl && State() == Store(map[], map[])
    {
      this.defaultTtl := defaultTtl;
      sessions, indexes := map[], map[];
    }

    function State(): Store
      reads this
    {
      Store(sessions, indexes)
    }

    /** `id` is the generated session ID. */
    method CreateWithTTL(now: int, user: string, ttl: int, id: string, data: string) returns (r: Result<Session, Error>)
      modifies this
      ensures State() == Create(old(State()), now, user, ttl, id, data)
      ensures ttl <= 0 ==> r == Err(InvalidTtl)
      ensures ttl > 0 ==> r == Ok(Session(id, user, now, now, now + ttl, data)) && r.value == sessions[id].value
    {
      if ttl <= 0 {
        return Err(InvalidTtl);
      }
      var session := Session(id, user, now, now, now + ttl, data);
      var currentTtl := Ttl(indexes, now, user);
      var indexTtl := ttl;
      if currentTtl > 0 && currentTtl > ttl {
        indexTtl := currentTtl;
      }
      sessions := sessions[session.id := Entry(session, SetExpiry(now, ttl))];
      indexes := SAdd(indexes, now, user, session.id);
      indexes := Expire(indexes, now, user, indexTtl);
      return Ok(session);
    }

    method GetWithTouch(now: int, id: string, touch: bool) returns (r: Result<Session, Error>)
      modifies this
      ensures State() == if touch then Touch(old(State()), now, defaultTtl, id) else old(State())
      ensures r.Ok? <==> Exists(old(sessions), now, id)
      ensures r.Err? ==> r.error == NotFound
      ensures r.Ok? && !touch ==> r.value == old(sessions)[id].value
      ensures r.Ok? && touch ==>
                var s := old(sessions)[id].value;
                r.value == s.(lastActive := now, expiresAt := if s.expiresAt > now then s.expiresAt else now + defaultTtl)
    {
      var found := Get(sessions, now, id);
      if found.None? {
        return Err(NotFound);
      }
      var session := found.value;
      if touch {
        session := session.(lastActive := now);
        session := WriteBack(now, session);
      }
      return Ok(session);
    }

    /** The stored copy is made before the caller's copy gets its revised expiry. */
    method WriteBack(now: int, s: Session) returns (revised: Session)
      modifies this`sessions
      ensures State() == Write(old(State()), now, defaultTtl, s)
      ensures revised == s.(expiresAt := if s.expiresAt > now then s.expiresAt else now + defaultTtl)
    {
      revised := s;
      var data := s;
      var ttl := s.expiresAt - now;
      if ttl <= 0 {
        ttl := defaultTtl;
        revised := revised.(expiresAt := now + ttl);
      }
      sessions := sessions[s.id := Entry(data, SetExpiry(now, ttl))];
    }

    method UpdateSession(now: int, s: Session) returns (revised: Session)
      modifies this`sessions
      ensures State() == Update(old(State()), now, defaultTtl, s)
      ensures revised == s.(lastActive := now, expiresAt := if s.expiresAt > now then s.expiresAt else now + defaultTtl)
    {
      revised := WriteBack(now, s.(lastActive := now));
    }

    method ExtendTTL(now: int, id: string, ttl: int) returns (ok: bool)
      modifies this
      ensures ok == Exists(old(sessions), now, id)
      ensures State() == Extend(old(State()), now, defaultTtl, id, ttl)
    {
      var got := GetWithTouch(now, id, false);
      if got.Err? {
        return false;
      }
      var session := got.value.(expiresAt := now + ttl, lastActive := now);
      var _ := WriteBack(now, session);
      var currentTtl := Ttl(indexes, now, session.user);
      if currentTtl < 0 || ttl > currentTtl {
        indexes := Expire(indexes, now, session.user, ttl);
      }
      return true;
    }

    method DeleteSession(now: int, id: string)
      modifies this
      ensures State() == Delete(old(State()), now, id)
    {
      var got := GetWithTouch(now, id, false);
      if got.Ok? {
        sessions := sessions - {id};
        indexes := SRem(indexes, now, got.value.user, {id});
      }
    }

    /** SMEMBERS: the members once each, in any order. */
    method SMembers(now: int, user: string) returns (ids: seq<string>)
      ensures NoRepeats(ids) && Elements(ids) == Members(indexes, now, user)
    {
      ids := [];
      var rest := Members(indexes, now, user);
      while rest != {}
        invariant NoRepeats(ids) && Elements(ids) !! rest && Elements(ids) + rest == Members(indexes, now, user)
        decreases |rest|
      {
        var id :| id in rest;
        IdsAppend(ids, id);
        ids, rest := ids + [id], rest - {id};
      }
    }

    /** The returned count is that of DEL, which includes the index key itself. */
    method DeleteByUserID(now: int, user: string) returns (deleted: int)
      modifies this
      ensures State() == DeleteByUser(old(State()), now, user)
      ensures deleted == if Members(old(indexes), now, user) == {} then 0 else |Present(old(State()), now, user)| + 1
    {
      hide Elements, NoRepeats, Alive, Members, Present, Stale;
      var ids := SMembers(now, user);
      AllSeen(State(), now, user, ids);
      if |ids| == 0 {
        return 0;
      }
      var count, keys := 0, {};
      for i := 0 to |ids|
        invariant State() == old(State())
        invariant keys == Elements(ids[..i])
        invariant count == |Alive(sessions, now, keys)|
      {
        NextId(sessions, now, ids, i);
        keys := keys + {ids[i]};
        if Exists(sessions, now, ids[i]) {
          count := count + 1;
        }
      }
      sessions := sessions - keys;
      indexes := indexes - {user};
      return count + 1;
    }

    /** Sessions found behind the index, and the IDs left for the background cleanup. */
    method ListByUserID(now: int, user: string) returns (found: seq<Session>, ghost foundIds: seq<string>, expired: seq<string>)
      ensures NoRepeats(foundIds) && Elements(foundIds) == Present(State(), now, user)
      ensures |found| == |foundIds|
      ensures forall k | 0 <= k < |found| :: foundIds[k] in sessions && found[k] == sessions[foundIds[k]].value
      ensures Elements(expired) == Stale(State(), now, user)
      ensures forall id :: id in Elements(expired) <==> id in Members(indexes, now, user) && !Exists(sessions, now, id)
    {
      hide Elements, NoRepeats, Alive, Members, Present, Stale;
      var ids := SMembers(now, user);
      AllSeen(State(), now, user, ids);
      found, foundIds, expired := [], [], [];
      for i := 0 to |ids|
        invariant NoRepeats(foundIds) && |found| == |foundIds|
        invariant Elements(foundIds) == Alive(sessions, now, Elements(ids[..i]))
        invariant Elements(expired) == Elements(ids[..i]) - Alive(sessions, now, Elements(ids[..i]))
        invariant forall k | 0 <= k < |found| :: foundIds[k] in sessions && found[k] == sessions[foundIds[k]].value
      {
        NextId(sessions, now, ids, i);
        var result := Get(sessions, now, ids[i]);
        if result.None? {
          IdsAppend(expired, ids[i]);
          expired := expired + [ids[i]];
        } else {
          IdsAppend(foundIds, ids[i]);
          found, foundIds := found + [result.value], foundIds + [ids[i]];
        }
      }
    }

    method Count(now: int, user: string) returns (count: int, expired: seq<string>)
      ensures count == |Present(State(), now, user)|
      ensures Elements(expired) == Stale(State(), now, user)
      ensures forall id :: id in Elements(expired) <==> id in Members(indexes, now, user) && !Exists(sessions, now, id)
    {
      hide Elements, NoRepeats, Alive, Members, Present, Stale;
      var ids := SMembers(now, user);
      AllSeen(State(), now, user, ids);
      count, expired := 0, [];
      for i := 0 to |ids|
        invariant count == |Alive(sessions, now, Elements(ids[..i]))|
        invariant Elements(expired) == Elements(ids[..i]) - Alive(sessions, now, Elements(ids[..i]))
      {
        NextId(sessions, now, ids, i);
        if Exists(sessions, now, ids[i]) {
          count := count + 1;
        } else {
          IdsAppend(expired, ids[i]);
          expired := expired + [ids[i]];
        }
      }
    }

    /** The background SREM. */
    method RunCleanup(now: int, user: string, ids: set<string>)
      modifies this`indexes
      ensures State() == Cleanup(old(State()), now, user, ids)
    {
      indexes := SRem(indexes, now, user, ids);
    }
  }

  /** Under the index invariant a listing is a full scan: every live session of the user, once, and no other; Count agrees. */
  lemma ListIsScan(st: Store, now: int, user: string, ids: seq<string>, found: seq<Session>)
    requires Inv(st, now)
    requires NoRepeats(ids) && Elements(ids) == Present(st, now, user) && |found| == |ids|
    requires forall k | 0 <= k < |found| :: ids[k] in st.sessions && found[k] == st.sessions[ids[k]].value
    ensures forall k | 0 <= k < |found| :: LiveOf(st, now, user, found[k].id) && found[k] == st.sessions[found[k].id].value
    ensures forall id | LiveOf(st, now, user, id) :: exists k :: 0 <= k < |found| && found[k] == st.sessions[id].value
    ensures forall j, k | 0 <= j < k < |found| :: found[j].id != found[k].id
    ensures |found| == |Present(st, now, user)|
  {
    PresentIsLive(st, now, user);
    IdsCard(ids);
    forall k | 0 <= k < |found| ensures found[k].id == ids[k] && LiveOf(st, now, user, ids[k]) {
      assert ids[k] in Elements(ids);
      assert SessionOk(st, now, ids[k]);
    }
    forall id | LiveOf(st, now, user, id) ensures exists k :: 0 <= k < |found| && found[k] == st.sessions[id].value {
      assert id in Elements(ids);
      var k :| 0 <= k < |ids| && ids[k] == id;
      assert found[k] == st.sessions[id].value;
    }
  }
}
