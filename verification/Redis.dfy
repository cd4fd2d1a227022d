/**
 The part of Redis that the other modules share: keys with an optional expiry, read against a clock.
 An entry whose expiry has passed stays in the map but no command sees it.
 */
module Redis {

  datatype Option<+T> = None | Some(value: T)

  datatype Result<+T, +E> = Ok(value: T) | Err(error: E)

  datatype Entry<+V> = Entry(value: V, expiry: Option<int>)

  predicate Live<V>(e: Entry<V>, now: int) {
    e.expiry.Some? ==> now < e.expiry.value
  }

  predicate Exists<K(==), V>(db: map<K, Entry<V>>, now: int, key: K) {
    key in db && Live(db[key], now)
  }

  /** GET, SMEMBERS and the like: the value, when the key is there and has not expired. */
  function Get<K(==), V>(db: map<K, Entry<V>>, now: int, key: K): Option<V> {
    if Exists(db, now, key) then Some(db[key].value) else None
  }

  /** TTL and PTTL: -2 for a missing key, -1 for a key without expiry. */
  function Ttl<K(==), V>(db: map<K, Entry<V>>, now: int, key: K): int {
    if !Exists(db, now, key) then -2
    else if db[key].expiry.None? then -1
    else db[key].expiry.value - now
  }

  /** EXPIRE and PEXPIRE: a time that is not positive deletes the key. */
  function Expire<K(==), V>(db: map<K, Entry<V>>, now: int, key: K, ttl: int): map<K, Entry<V>> {
    if !Exists(db, now, key) then db
    else if ttl <= 0 then db - {key}
    else db[key := Entry(db[key].value, Some(now + ttl))]
  }

  /** The expiry that SET gets from go-redis: no expiry unless the time is positive. */
  function SetExpiry(now: int, ttl: int): Option<int> {
    if ttl > 0 then Some(now + ttl) else None
  }

  ghost function Elements<T>(s: seq<T>): set<T> {
    set i | 0 <= i < |s| :: s[i]
  }

  lemma ElementsAppend<T>(s: seq<T>, x: T)
    ensures Elements(s + [x]) == Elements(s) + {x}
  {
    assert (s + [x])[|s|] == x;
    forall y | y in Elements(s) ensures y in Elements(s + [x]) {
      var i :| 0 <= i < |s| && s[i] == y;
      assert (s + [x])[i] == y;
    }
  }

  lemma SubsetCard<T>(small: set<T>, big: set<T>)
    requires small <= big
    ensures |small| <= |big|
  {
    assert big == small + (big - small);
  }

  /** The least element of a non-empty set. */
  function Least(s: set<int>): (m: int)
    requires s != {}
    ensures m in s
    ensures forall x | x in s :: m <= x
  {
    LeastExists(s);
    var m :| m in s && forall x | x in s :: m <= x;
    m
  }

  lemma AnElement<T>(s: set<T>) returns (y: T)
    requires s != {}
    ensures y in s
  {
    y :| y in s;
  }

  lemma {:induction false} LeastExists(s: set<int>)
    requires s != {}
    ensures exists m :: m in s && forall x | x in s :: m <= x
    decreases |s|
  {
    var y := AnElement(s);
    var rest := s - {y};
    if rest == {} {
      assert forall x | x in s :: x == y || x in rest;
    } else {
      LeastExists(rest);
      var m :| m in rest && forall x | x in rest :: m <= x;
      assert forall x | x in s :: x == y || x in rest;
      assert (if m <= y then m else y) in s;
    }
  }
}
