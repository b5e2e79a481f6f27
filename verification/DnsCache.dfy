/** The cache object (dns.go: type dnsCache): the loops of store and purge over the map, each one mutex
    section, against the functions of modules Eviction and Cache. */
module DnsCache {
  import opened Basics
  import opened Eviction
  import opened Cache

  class DnsCache {
    var cache: Entries
    const onNXDomain: bool
    ghost var log: seq<Finished>

    ghost function View(): State
      reads this
    {
      State(cache, log)
    }

    /** The cache refines the log of finished lookups. */
    ghost predicate Valid()
      reads this
    {
      Refines(onNXDomain, View())
    }

    constructor (onNXDomain: bool)
      ensures Valid() && View() == State(map[], []) && this.onNXDomain == onNXDomain
    {
      this.onNXDomain := onNXDomain;
      cache, log := map[], [];
    }

    /** The first half of cachedLookup: a hit or a miss. */
    method Get(key: string, now: int) returns (hit: Option<Resolution>)
      ensures hit == Read(cache, key, now)
    {
      if key in cache && now < cache[key].expires {
        var entry := cache[key];
        if entry.neg {
          return Some(NoSuchName);
        }
        return Some(Addresses(entry.addrs, entry.localDirect));
      }
      return None;
    }

    /** The victim of a full map; the map is visited in an order nobody chooses. */
    method FindOldest() returns (oldestKey: string, ghost order: seq<string>)
      ensures Order(order, cache) && oldestKey == Scan(order, cache).key
    {
      var oldestTime := 0;
      oldestKey, order := "", [];
      var left := cache.Keys;
      while left != {}
        invariant left <= cache.Keys
        invariant forall k :: k in order <==> k in cache && k !in left
        invariant forall i, j | 0 <= i < j < |order| :: order[i] != order[j]
        invariant Scan(order, cache) == Oldest(oldestKey, oldestTime)
        decreases left
      {
        var k :| k in left;
        left := left - {k};
        assert (order + [k])[..|order|] == order;
        order := order + [k];
        if oldestKey == "" || cache[k].expires < oldestTime {
          oldestKey, oldestTime := k, cache[k].expires;
        }
      }
    }

    method Store(key: string, entry: Entry) returns (ghost order: seq<string>)
      modifies this`cache
      ensures Order(order, old(cache)) && cache == Stored(old(cache), order, key, entry)
    {
      if MAX_SIZE <= |cache| {
        var oldestKey;
        oldestKey, order := FindOldest();
        if oldestKey != "" {
          cache := cache - {oldestKey};
        }
      } else {
        order := OrderExists(cache, "");
      }
      cache := cache[key := entry];
    }

    method Purge(now: int)
      requires Valid()
      modifies this`cache
      ensures Valid() && cache == Purged(old(cache), now)
      ensures forall k | k in cache :: now <= cache[k].expires && k in old(cache) && cache[k] == old(cache)[k]
      ensures forall k | k in old(cache) && now <= old(cache)[k].expires :: k in cache
    {
      var left := cache.Keys;
      while left != {}
        invariant left <= old(cache).Keys
        invariant cache == map k | k in old(cache) && (k in left || now <= old(cache)[k].expires) :: old(cache)[k]
        decreases left
      {
        var k :| k in left;
        left := left - {k};
        if cache[k].expires < now {
          cache := cache - {k};
        }
      }
    }

    /** The second half of cachedLookup: a finished shared lookup stores what is worth caching and
        hands its result to every caller waiting on it. */
    method Complete(f: Finished) returns (res: Resolution, ghost order: seq<string>)
      requires Valid()
      modifies this
      ensures Valid() && res == Returned(Outcome(onNXDomain, f.cause))
      ensures Order(order, old(cache)) && View() == Next(onNXDomain, old(View()), Event.Complete(f, order))
    {
      var looked := Outcome(onNXDomain, f.cause);
      order := OrderExists(cache, "");
      if looked.err.Some? {
        if looked.authoritative && looked.err.value.NotFound? {
          order := Store(KeyOf(f), Entry([], f.at + NEGATIVE_TTL, true, false));
        }
        res := if looked.err.value.NotFound? then NoSuchName else Failed;
      } else if looked.addrs == [] {
        res := NoAddress;
      } else {
        if looked.authoritative {
          order := Store(KeyOf(f), Entry(looked.addrs, f.at + TTL, false, looked.localDirect));
        }
        res := Addresses(looked.addrs, looked.localDirect);
      }
      RefinesKept(onNXDomain, old(View()), Event.Complete(f, order));
      log := log + [f];
    }
  }
}
