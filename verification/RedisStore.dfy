/**
 The part of a Redis server the modelled code relies on: keys with an optional expiry time, and
 the commands GET, SET, SET NX EX, INCR, EXPIRE and DEL. An expired key reads as absent.
 */
module RedisStore {
  import opened Common

  datatype Value = Text(text: string) | Number(number: int) | Stamp(at: real)

  datatype Entry = Entry(value: Value, expires: Option<real>)

  type Store<!K> = map<K, Entry>

  predicate Live<K>(s: Store<K>, k: K, now: real) {
    k in s && (s[k].expires.Some? ==> now < s[k].expires.value)
  }

  function Get<K>(s: Store<K>, k: K, now: real): Option<Value> {
    if Live(s, k, now) then Some(s[k].value) else None
  }

  /** SET without options drops any expiry the key had. */
  function Set<K>(s: Store<K>, k: K, v: Value): Store<K> {
    s[k := Entry(v, None)]
  }

  /** SET key value NX EX ttl: the flag tells whether the key was written. */
  function SetNxEx<K>(s: Store<K>, k: K, v: Value, ttl: real, now: real): (Store<K>, bool) {
    if Live(s, k, now) then (s, false) else (s[k := Entry(v, Some(now + ttl))], true)
  }

  /** INCR keeps the expiry of a live key and creates an absent one at 1 without expiry. */
  function Incr<K>(s: Store<K>, k: K, now: real): (r: (Store<K>, int))
    requires k in s ==> s[k].value.Number?
  {
    if Live(s, k, now) then
      var n := s[k].value.number + 1;
      (s[k := Entry(Number(n), s[k].expires)], n)
    else
      (s[k := Entry(Number(1), None)], 1)
  }

  /** EXPIRE sets the time to live of a live key. */
  function Expire<K>(s: Store<K>, k: K, ttl: real, now: real): Store<K> {
    if Live(s, k, now) then s[k := Entry(s[k].value, Some(now + ttl))] else s
  }

  function Delete<K>(s: Store<K>, k: K): Store<K> {
    s - {k}
  }

  /** A connection to one server. */
  class Redis<K(==)> {
    var entries: Store<K>

    constructor ()
      ensures entries == map[]
    {
      entries := map[];
    }
  }
}
