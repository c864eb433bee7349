/**
 * The key space of the Redis and Memcached servers: each key holds a
 * string value and, optionally, an absolute expiry time in seconds. A key
 * whose expiry time has been reached reads as missing.
 */
module ExpiringStore {
  import opened Wrappers

  /** A stored value, with the time at which it expires, or `None` for a key that never expires. */
  datatype Entry = Entry(value: string, expiry: Option<int>)

  /** The entry is still visible at time `at`. */
  predicate LiveAt(e: Entry, at: int) {
    e.expiry.None? || at < e.expiry.value
  }

  /** A read of `key` at time `at`: the value of a live entry, nothing otherwise. */
  function Lookup(entries: map<string, Entry>, key: string, at: int): (r: Option<string>)
    ensures r.Some? <==> key in entries && LiveAt(entries[key], at)
    ensures r.Some? ==> r.value == entries[key].value
  {
    if key in entries && LiveAt(entries[key], at) then Some(entries[key].value) else None
  }
}
