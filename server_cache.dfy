/** The server-side language-pack cache: a process-wide map from URL to the
    fetched data and the time it was last touched. Entries idle for the
    cleanup interval or longer are swept out. `Date.now()` is an explicit
    `now` argument; the periodic timer that runs the sweep is not modelled,
    the sweep is the `Cleanup` method. */
module ServerCache {
  import opened Wrappers

  /** Ten minutes, in milliseconds. */
  const CleanupInterval: int := 10 * 60 * 1000

  /** A language pack's payload: translation keys to strings. */
  type Payload = map<string, string>

  datatype CacheEntry = CacheEntry(data: Payload, lastAccess: int)

  type CacheMap = map<string, CacheEntry>

  /** What `set` leaves behind: nothing changes in development mode. */
  function Stored(m: CacheMap, url: string, data: Payload, now: int, development: bool): (r: CacheMap)
    ensures development ==> r == m
    ensures !development ==> url in r && r[url] == CacheEntry(data, now)
    ensures forall u :: u != url ==> (u in r <==> u in m)
    ensures forall u :: u != url && u in r ==> r[u] == m[u]
  {
    if development then m else m[url := CacheEntry(data, now)]
  }

  /** The value `get` returns: the stored data, or nothing. */
  function Lookup(m: CacheMap, url: string): (r: Option<Payload>)
    ensures r.Some? <==> url in m
    ensures r.Some? ==> r.value == m[url].data
  {
    if url in m then Some(m[url].data) else None
  }

  /** The map after `get`: only the entry's `lastAccess` moves to `now`. */
  function Touched(m: CacheMap, url: string, now: int): (r: CacheMap)
    ensures url !in m ==> r == m
    ensures r.Keys == m.Keys
    ensures url in m ==> r[url] == m[url].(lastAccess := now)
    ensures forall u :: u in m && u != url ==> r[u] == m[u]
  {
    if url in m then m[url := m[url].(lastAccess := now)] else m
  }

  /** The map after `cleanup(now)`: exactly the entries touched after
      `now - CleanupInterval` remain, each unchanged. */
  function Swept(m: CacheMap, now: int): (r: CacheMap)
    ensures forall u :: u in r <==> u in m && m[u].lastAccess > now - CleanupInterval
    ensures forall u :: u in r ==> r[u] == m[u]
  {
    map u | u in m && m[u].lastAccess > now - CleanupInterval :: m[u]
  }

  class LangPackCache {
    var entries: CacheMap
    const development: bool

    /** A fresh, empty cache; `development` is `NODE_ENV === 'development'`. */
    constructor (development: bool)
      ensures entries == map[] && this.development == development
    {
      entries := map[];
      this.development := development;
    }

    method Set(url: string, data: Payload, now: int)
      modifies this
      ensures entries == Stored(old(entries), url, data, now, development)
    {
      if !development {
        entries := entries[url := CacheEntry(data, now)];
      }
    }

    method Get(url: string, now: int) returns (r: Option<Payload>)
      modifies this
      ensures r == Lookup(old(entries), url)
      ensures entries == Touched(old(entries), url, now)
    {
      if url !in entries {
        return None;
      }
      var cached := entries[url];
      entries := entries[url := cached.(lastAccess := now)];
      r := Some(cached.data);
    }

    /** Collects the expired URLs, then deletes them one at a time. */
    method Cleanup(now: int)
      modifies this
      ensures entries == Swept(old(entries), now)
    {
      var expiredThen := now - CleanupInterval;
      var expired := set u | u in entries && entries[u].lastAccess <= expiredThen;
      ghost var before := entries;
      while expired != {}
        invariant expired <= entries.Keys
        invariant entries.Keys <= before.Keys
        invariant forall u :: u in entries ==> entries[u] == before[u]
        invariant forall u :: u in before ==>
          (u in entries <==> u in expired || before[u].lastAccess > expiredThen)
        decreases expired
      {
        var url :| url in expired;
        entries := map u | u in entries && u != url :: entries[u];
        expired := expired - {url};
      }
    }
  }

  /** A value just stored is what the next read returns, and that read
      restarts the entry's idle clock. */
  lemma ReadAfterWrite(m: CacheMap, url: string, data: Payload, setAt: int, readAt: int)
    ensures var m1 := Stored(m, url, data, setAt, false);
      Lookup(m1, url) == Some(data) && Touched(m1, url, readAt)[url] == CacheEntry(data, readAt)
  {
  }

  /** Reads never check age: a stored entry stays readable, whatever the
      clock says, until a sweep removes it. */
  lemma ReadIgnoresAge(m: CacheMap, url: string, now: int)
    requires url in m
    ensures Lookup(Touched(m, url, now), url) == Some(m[url].data)
  {
  }

  /** A sweep less than the interval after a read keeps the entry, and one
      the full interval after the last touch drops it. */
  lemma SweepAfterRead(m: CacheMap, url: string, readAt: int, sweepAt: int)
    requires url in m
    ensures var m1 := Touched(m, url, readAt);
      (sweepAt < readAt + CleanupInterval ==> Lookup(Swept(m1, sweepAt), url) == Some(m[url].data))
      && (sweepAt >= readAt + CleanupInterval ==> Lookup(Swept(m1, sweepAt), url).None?)
  {
  }
}
