/** The chat answer cache (src/server.js:93-109): a map from request keys to
    the time an answer was stored and the answer itself. An entry older than
    five minutes is removed the next time it is read. The clock is a
    parameter: `now` is the value `Date.now()` returns at the call. */
module ChatCaching {
  import opened Wrappers

  /** `CHAT_CACHE_TTL_MS`: five minutes in milliseconds. */
  const TTL: int := 5 * 60 * 1000

  datatype Entry<V> = Entry(ts: int, value: V)

  /** An entry read at `now` has expired when more than `TTL` has passed. */
  predicate Expired<V>(e: Entry<V>, now: int) {
    now - e.ts > TTL
  }

  /** What reading `key` at `now` returns. */
  function Lookup<V>(entries: map<string, Entry<V>>, key: string, now: int): (r: Option<V>)
    ensures r.Some? ==> key in entries && r.value == entries[key].value
  {
    if key !in entries then None
    else if Expired(entries[key], now) then None
    else Some(entries[key].value)
  }

  /** The map after reading `key` at `now`: an expired entry is gone. */
  function AfterLookup<V>(entries: map<string, Entry<V>>, key: string, now: int): (r: map<string, Entry<V>>)
    ensures r.Keys <= entries.Keys
    ensures forall k :: k in r ==> r[k] == entries[k]
  {
    if key in entries && Expired(entries[key], now) then entries - {key} else entries
  }

  /** The map after storing `value` under `key` at `now`. */
  function Store<V>(entries: map<string, Entry<V>>, key: string, value: V, now: int): map<string, Entry<V>> {
    entries[key := Entry(now, value)]
  }

  class ChatCache<V> {
    var entries: map<string, Entry<V>>

    /** `new Map()`. */
    constructor ()
      ensures entries == map[]
    {
      entries := map[];
    }

    /** `getChatCache(key)`. */
    method Get(key: string, now: int) returns (r: Option<V>)
      modifies this
      ensures r == Lookup(old(entries), key, now)
      ensures entries == AfterLookup(old(entries), key, now)
    {
      if key !in entries {
        return None;
      }
      var entry := entries[key];
      if now - entry.ts > TTL {
        entries := entries - {key};
        return None;
      }
      return Some(entry.value);
    }

    /** `setChatCache(key, value)`. */
    method Set(key: string, value: V, now: int)
      modifies this
      ensures entries == Store(old(entries), key, value, now)
    {
      entries := entries[key := Entry(now, value)];
    }
  }

  /** A key never stored reads as `null`. */
  lemma AbsentKeyMisses<V>(entries: map<string, Entry<V>>, key: string, now: int)
    requires key !in entries
    ensures Lookup(entries, key, now).None?
    ensures AfterLookup(entries, key, now) == entries
  {
  }

  /** Within five minutes of storing it, the stored answer is returned and the
      entry stays. */
  lemma FreshHit<V>(entries: map<string, Entry<V>>, key: string, value: V, t: int, now: int)
    requires now <= t + TTL
    ensures Lookup(Store(entries, key, value, t), key, now) == Some(value)
    ensures AfterLookup(Store(entries, key, value, t), key, now) == Store(entries, key, value, t)
  {
  }

  /** More than five minutes after storing it, the answer is gone: the read
      returns `null` and deletes the entry, so later reads miss too. */
  lemma StaleMiss<V>(entries: map<string, Entry<V>>, key: string, value: V, t: int, now: int, later: int)
    requires now > t + TTL
    ensures Lookup(Store(entries, key, value, t), key, now).None?
    ensures key !in AfterLookup(Store(entries, key, value, t), key, now)
    ensures Lookup(AfterLookup(Store(entries, key, value, t), key, now), key, later).None?
  {
  }

  /** Storing or reading one key leaves every other key as it was. */
  lemma OtherKeysUnaffected<V>(entries: map<string, Entry<V>>, key: string, other: string, value: V, t: int, now: int)
    requires other != key
    ensures Lookup(Store(entries, key, value, t), other, now) == Lookup(entries, other, now)
    ensures Lookup(AfterLookup(entries, key, t), other, now) == Lookup(entries, other, now)
  {
  }

  /** Reading twice at the same moment gives the same answer. */
  lemma LookupStable<V>(entries: map<string, Entry<V>>, key: string, now: int)
    ensures Lookup(AfterLookup(entries, key, now), key, now) == Lookup(entries, key, now)
  {
  }
}
