/** The in-memory cache of mart versions (data_marts/service/cache.go), one critical section at a time. Times are
    readings of one clock that never goes back. */
module VersionCache {
  import opened Basics

  type Run = int

  datatype Version = Version(run: Run, committedAt: int)

  datatype Entry = Entry(version: Version, expiresAt: int)

  class Cache {
    var entries: map<string, Entry>
    const ttl: int

    constructor (ttl: int)
      ensures this.ttl == ttl && entries == map[]
    {
      this.ttl := ttl;
      entries := map[];
    }

    /** The reading `now` decides; an expired entry is removed only if it is still expired at the reading `later`. */
    method Get(key: string, now: int, later: int) returns (v: Option<Version>)
      requires now <= later
      modifies this
      ensures v.Some? <==> key in old(entries) && now <= old(entries)[key].expiresAt
      ensures v.Some? ==> v.value == old(entries)[key].version && entries == old(entries)
      ensures v.None? ==> entries == old(entries) - {key}
    {
      if key !in entries {
        assert entries == entries - {key};
        return None;
      }
      var e := entries[key];
      if now > e.expiresAt {
        if key in entries && !(later < entries[key].expiresAt) {
          entries := entries - {key};
        }
        return None;
      }
      return Some(e.version);
    }

    method Put(key: string, v: Version, now: int)
      modifies this
      ensures entries == old(entries)[key := Entry(v, now + ttl)]
    {
      entries := entries[key := Entry(v, now + ttl)];
    }

    method Invalidate(key: string)
      modifies this
      ensures entries == old(entries) - {key}
    {
      entries := entries - {key};
    }
  }
}
