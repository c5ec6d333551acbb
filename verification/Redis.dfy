/** Redis keys with expiry times. Each function is one command. */
module Redis {
  import opened Prelude

  datatype Entry<V> = Entry(value: V, expiresAt: Option<nat>)

  /** An entry still stored at instant `now`. */
  predicate Alive<V>(slot: Option<Entry<V>>, now: nat) {
    slot.Some? && (slot.value.expiresAt.Some? ==> now < slot.value.expiresAt.value)
  }

  function Lookup<K, V>(store: map<K, Entry<V>>, key: K, now: nat): Option<Entry<V>> {
    if key in store && Alive(Some(store[key]), now) then Some(store[key]) else None
  }

  /** SET with a time to live; the client sends no expiry for a zero duration. */
  function Stored<V>(value: V, ttl: nat, now: nat): Entry<V> {
    Entry(value, if ttl == 0 then None else Some(now + ttl))
  }

  /** INCR: a missing key counts from zero and gets no expiry, an existing one keeps its own. */
  function Incremented(slot: Option<Entry<int>>, now: nat): Entry<int> {
    if Alive(slot, now) then Entry(slot.value.value + 1, slot.value.expiresAt) else Entry(1, None)
  }

  /** EXPIRE: nothing happens to a missing key, and a zero duration deletes. */
  function Expired<V>(slot: Option<Entry<V>>, ttl: nat, now: nat): Option<Entry<V>> {
    if Alive(slot, now) && ttl > 0 then Some(Entry(slot.value.value, Some(now + ttl))) else None
  }
}
