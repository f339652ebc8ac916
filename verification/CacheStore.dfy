/** The shared cache both throttles count in. */
module CacheStore {
  import opened Basics
  import opened FixedWindow

  function Lookup(entries: map<string, Entry>, key: string): Option<Entry> {
    if key in entries then Some(entries[key]) else None
  }

  class Cache {
    var entries: map<string, Entry>

    constructor ()
      ensures entries == map[]
    {
      entries := map[];
    }

    /** Stores 1 under `key` unless a live entry is there already. */
    method Add(key: string, timeout: int, now: int) returns (added: bool)
      modifies this
      ensures added == !Live(Lookup(old(entries), key), now)
      ensures entries == if added then old(entries)[key := Entry(1, now + timeout)] else old(entries)
    {
      added := !(key in entries && now < entries[key].expires);
      if added {
        entries := entries[key := Entry(1, now + timeout)];
      }
    }

    /** Adds one to a live entry, keeping its expiry; None is the `ValueError`. */
    method Incr(key: string, now: int) returns (count: Option<nat>)
      modifies this
      ensures Live(Lookup(old(entries), key), now) ==>
                && count == Some(old(entries)[key].count + 1)
                && entries == old(entries)[key := Entry(old(entries)[key].count + 1, old(entries)[key].expires)]
      ensures !Live(Lookup(old(entries), key), now) ==> count == None && entries == old(entries)
    {
      if key !in entries || entries[key].expires <= now {
        return None;
      }
      var bumped := Entry(entries[key].count + 1, entries[key].expires);
      entries := entries[key := bumped];
      count := Some(bumped.count);
    }

    method Get(key: string, now: int) returns (count: nat)
      ensures count == if Live(Lookup(entries, key), now) then entries[key].count else 0
    {
      count := if key in entries && now < entries[key].expires then entries[key].count else 0;
    }

    method Delete(key: string)
      modifies this
      ensures entries == old(entries) - {key}
    {
      entries := entries - {key};
    }
  }
}
