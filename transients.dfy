/** WordPress's transient store as the widget uses it: `set_transient` keeps a
    value under a key for a number of seconds, and `get_transient` gives it back
    until that time has passed. */
module Transients {

  datatype Option<T> = None | Some(value: T)

  /** A stored value and the time (in seconds) from which it is expired. */
  datatype Entry<V> = Entry(value: V, expires: int)

  /** `get_transient($key)` at time `now`: the stored value while it is live; an
      expired or absent entry reads as nothing (PHP's `false`). The entry is taken
      to be expired from the second `expires` on; this boundary is assumed. */
  function Lookup<V>(entries: map<string, Entry<V>>, key: string, now: int): Option<V>
  {
    if key in entries && now < entries[key].expires then Some(entries[key].value) else None
  }

  /** `set_transient($key, $value, $ttl)` at time `now`: overwrites any entry for
      the key and restarts its clock. */
  function Store<V>(entries: map<string, Entry<V>>, key: string, value: V, ttl: int, now: int)
    : map<string, Entry<V>>
  {
    entries[key := Entry(value, now + ttl)]
  }

  /** A value stored with a time to live is read back exactly until that many
      seconds have passed, and storing under one key leaves every other key as it was. */
  lemma LookupAfterStore<V>(entries: map<string, Entry<V>>, key: string, other: string,
                            value: V, ttl: int, stored: int, now: int)
    ensures Lookup(Store(entries, key, value, ttl, stored), key, now)
            == if now < stored + ttl then Some(value) else None
    ensures other != key ==>
              Lookup(Store(entries, key, value, ttl, stored), other, now) == Lookup(entries, other, now)
  {
  }

  /** The process-wide store behind `get_transient` and `set_transient`. */
  class TransientStore<V> {
    var entries: map<string, Entry<V>>

    constructor ()
      ensures entries == map[]
    {
      entries := map[];
    }

    method Get(key: string, now: int) returns (r: Option<V>)
      ensures r == Lookup(entries, key, now)
    {
      if key in entries && now < entries[key].expires {
        r := Some(entries[key].value);
      } else {
        r := None;
      }
    }

    method Set(key: string, value: V, ttl: int, now: int)
      modifies this`entries
      ensures entries == Store(old(entries), key, value, ttl, now)
    {
      entries := entries[key := Entry(value, now + ttl)];
    }
  }
}
