/** Option values and the time-to-live key/value store shared by the caches of the portal. */
module Prelude {

  datatype Option<+T> = None | Some(value: T)

  /** Instants and durations are counted in microseconds. */
  const SECOND: nat := 1_000_000

  /** A Valkey entry: readable strictly before `expiresAt`. */
  datatype Entry<+V> = Entry(value: V, expiresAt: int)

  /** `GET key` at time `now`. */
  function Lookup<K, V>(m: map<K, Entry<V>>, k: K, now: int): Option<V> {
    if k in m && now < m[k].expiresAt then Some(m[k].value) else None
  }

  /** `SET key value EX ttl` at time `now`. */
  function Put<K, V>(m: map<K, Entry<V>>, k: K, v: V, now: int, ttl: nat): map<K, Entry<V>> {
    m[k := Entry(v, now + ttl)]
  }

  /** Every key was written in the past, with its full time to live. */
  ghost predicate KeysTimely(m: map<nat, Entry<int>>, now: int, ttl: nat) {
    forall u :: u in m ==> m[u].value <= now && m[u].expiresAt == m[u].value + ttl
  }

  lemma SubsetSize<T>(a: set<T>, b: set<T>)
    requires a <= b
    ensures |a| <= |b|
  {
    assert b == a + (b - a);
  }

  lemma PickTwo(all: set<nat>) returns (b: nat, c: nat)
    requires |all| >= 2
    ensures b in all && c in all && b != c && |all - {b, c}| == |all| - 2
  {
    b :| b in all;
    assert |all - {b}| == |all| - 1;
    c :| c in all - {b};
    assert all - {b, c} == all - {b} - {c};
  }

  /** One Valkey client with one key family; every command is a single atomic step. */
  class TtlStore<K(==), V(==)> {
    var entries: map<K, Entry<V>>

    constructor ()
      ensures entries == map[]
    {
      entries := map[];
    }

    method Get(k: K, now: int) returns (v: Option<V>)
      ensures v == Lookup(entries, k, now)
    {
      v := if k in entries && now < entries[k].expiresAt then Some(entries[k].value) else None;
    }

    method Set(k: K, v: V, now: int, ttl: nat)
      modifies this
      ensures entries == Put(old(entries), k, v, now, ttl)
    {
      entries := entries[k := Entry(v, now + ttl)];
    }

    /** `SET key value NX EX ttl`: writes only when no live value is there. */
    method SetIfAbsent(k: K, v: V, now: int, ttl: nat) returns (wrote: bool)
      modifies this
      ensures wrote <==> old(Lookup(entries, k, now)).None?
      ensures entries == if wrote then Put(old(entries), k, v, now, ttl) else old(entries)
    {
      var present := Get(k, now);
      wrote := present.None?;
      if wrote {
        Set(k, v, now, ttl);
      }
    }
  }
}
