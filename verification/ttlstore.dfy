// The part of Redis the daemon relies on: keys whose values may expire.
module TtlStore {
  import opened Common

  // An entry is live while the clock has not passed its expiry; None never expires.
  datatype Entry<V> = Entry(value: V, expiry: Option<int>)

  type Store<K, V> = map<K, Entry<V>>

  predicate Live<K, V>(store: Store<K, V>, key: K, now: int) {
    key in store && (store[key].expiry == None || now <= store[key].expiry.value)
  }

  // GET
  function Lookup<K, V>(store: Store<K, V>, key: K, now: int): Option<V> {
    if Live(store, key, now) then Some(store[key].value) else None
  }

  // GET of a counter, read as 0 when there is none.
  function Count<K>(store: Store<K, int>, key: K, now: int): int {
    if Live(store, key, now) then store[key].value else 0
  }

  // INCRBY: keeps the expiry of a live counter and starts a new one without expiry.
  function IncrBy<K>(store: Store<K, int>, key: K, amount: int, now: int): Store<K, int> {
    if Live(store, key, now) then
      store[key := Entry(store[key].value + amount, store[key].expiry)]
    else
      store[key := Entry(amount, None)]
  }

  // EXPIRE: no effect on a key that is not there.
  function Expire<K, V>(store: Store<K, V>, key: K, ttl: int, now: int): Store<K, V> {
    if Live(store, key, now) then store[key := Entry(store[key].value, Some(now + ttl))] else store
  }

  // SET with a time to live; a time to live of zero means none.
  function Put<K, V>(store: Store<K, V>, key: K, value: V, ttl: nat, now: int): Store<K, V> {
    store[key := Entry(value, if ttl > 0 then Some(now + ttl) else None)]
  }

  // DEL
  function Remove<K, V>(store: Store<K, V>, key: K): Store<K, V> {
    store - {key}
  }
}
