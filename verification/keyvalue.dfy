/** The key-value backend, reduced to what the handlers use: a read that
    either finds a decoded record or misses, and a write that stores a
    record together with the expiry duration it was given. */
module KeyValue {
  import opened Wrappers
  import opened Model

  /** A stored record and the expiry duration (nanoseconds) of its last write. */
  datatype Entry = Entry(secret: Secret, ttl: int)

  type Store = map<string, Entry>

  /** Read a key; any failure of the backend read counts as a miss. */
  function Get(st: Store, key: string): (r: Option<Secret>)
    ensures r.Some? <==> key in st
    ensures r.Some? ==> r.value == st[key].secret
  {
    if key in st then Some(st[key].secret) else None
  }

  /** Write a record under a key with an expiry duration, replacing any
      record already stored there. */
  function Set(st: Store, key: string, s: Secret, ttl: int): (r: Store)
    ensures r.Keys == st.Keys + {key}
    ensures Get(r, key) == Some(s) && r[key].ttl == ttl
    ensures forall k :: k in st && k != key ==> r[k] == st[k]
  {
    st[key := Entry(s, ttl)]
  }
}
