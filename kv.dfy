/** The worker's key-value namespace (`env.KV`): string keys, values that
    stay readable until an optional expiry time, and whole-value writes.
    Time is an explicit `now`, in seconds. */
module Kv {
  import opened Wrappers
  import opened Records

  /** A stored value: the text `"1"` of a rate-limit marker, or the
      popular-posts list (stored by the worker as its JSON text). */
  datatype Value = Text(text: string) | PostList(posts: seq<Post>)

  /** A value and the time from which it is no longer returned, if any. */
  datatype Entry = Entry(value: Value, expiry: Option<int>)

  type Entries = map<string, Entry>

  /** JavaScript truthiness of what `get` returns: an empty string is falsy;
      a JSON list is never the empty string. */
  predicate Truthy(v: Value): (b: bool)
    ensures !b <==> v == Text("")
  {
    match v
    case Text(t) => t != ""
    case PostList(_) => true
  }

  /** An entry is readable until its expiry time, or forever without one. */
  predicate IsLive(e: Entry, now: int): (b: bool)
    ensures e.expiry.None? ==> b
    ensures e.expiry.Some? ==> (b <==> now < e.expiry.value)
  {
    e.expiry.None? || now < e.expiry.value
  }

  /** What `get(key)` returns at time `now`. */
  function Lookup(m: Entries, key: string, now: int): (r: Option<Value>)
    ensures r.Some? <==> key in m && IsLive(m[key], now)
    ensures r.Some? ==> r.value == m[key].value
  {
    if key in m && IsLive(m[key], now) then Some(m[key].value) else None
  }

  /** The entry `put(key, value, { expirationTtl })` writes at time `now`. */
  function Stamp(value: Value, ttl: Option<nat>, now: int): (e: Entry)
    ensures e.value == value
    ensures forall later :: IsLive(e, later) <==> ttl.None? || later < now + ttl.value
  {
    Entry(value, if ttl.Some? then Some(now + ttl.value) else None)
  }

  /** A read after a write: the key written returns its new value until the
      TTL runs out, then nothing; every other key reads as before. */
  lemma LookupAfterPut(m: Entries, key: string, value: Value, ttl: Option<nat>, now: int, key': string, later: int)
    ensures Lookup(m[key := Stamp(value, ttl, now)], key', later) ==
      if key' != key then Lookup(m, key', later)
      else if ttl.None? || later < now + ttl.value then Some(value)
      else None
  {
  }

  /** The namespace. Expired entries stay in `entries` but are never
      returned, as the store's own expiry makes them unreadable. */
  class Store {
    var entries: Entries

    constructor ()
      ensures entries == map[]
    {
      entries := map[];
    }

    /** `env.KV.get(key)`. */
    method Get(key: string, now: int) returns (v: Option<Value>)
      ensures v.Some? <==> key in entries && IsLive(entries[key], now)
      ensures v.Some? ==> v.value == entries[key].value
    {
      v := Lookup(entries, key, now);
    }

    /** `env.KV.put(key, value, { expirationTtl: ttl })`; no TTL means the
        entry never expires. */
    method Put(key: string, value: Value, ttl: Option<nat>, now: int)
      modifies this
      ensures entries == old(entries)[key := Stamp(value, ttl, now)]
    {
      entries := entries[key := Stamp(value, ttl, now)];
    }
  }
}
