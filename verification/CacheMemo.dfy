/** What the DNS cache promises over whole runs: as long as it forgets nothing it is the memory of all
    lookups, and no purge ever shows. The one enemy of both is an empty host name (see module Eviction). */
module CacheMemo {
  import opened Basics
  import opened Eviction
  import opened Cache

  // ---------------------------------------------------------------- the bound

  /** The event writes an entry. */
  ghost predicate Stores(cfg: Config, e: Event) {
    e.Complete? && EntryOf(cfg.onNXDomain, e.f).Some?
  }

  /** Whenever the run stores into a full cache, the empty key is not alone the oldest. */
  ghost predicate Harmless(cfg: Config, es: seq<Event>)
    requires Exec(cfg, es).Some?
  {
    es != [] ==>
      var c := Exec(cfg, es[..|es| - 1]).value.cache;
      Harmless(cfg, es[..|es| - 1]) && (Stores(cfg, es[|es| - 1]) && 1000 <= |c| ==> SentinelHarmless(c))
  }

  /** A run that looks up no empty name is one of these. */
  lemma {:induction false} RealNamesAreHarmless(cfg: Config, es: seq<Event>)
    requires Exec(cfg, es).Some? && forall f | f in Exec(cfg, es).value.log :: KeyOf(f) != ""
    ensures Harmless(cfg, es) && "" !in Exec(cfg, es).value.cache
  {
    if es != [] {
      var s, s', e := Exec(cfg, es[..|es| - 1]).value, Exec(cfg, es).value, es[|es| - 1];
      assert forall f | f in s.log :: f in s'.log;
      RealNamesAreHarmless(cfg, es[..|es| - 1]);
      if e.Complete? {
        assert e.f in s'.log;
      }
    }
  }

  /** Then the cache keeps its bound, over every run. */
  lemma {:induction false} BoundHolds(cfg: Config, es: seq<Event>)
    requires Exec(cfg, es).Some? && Harmless(cfg, es)
    ensures |Exec(cfg, es).value.cache| <= 1000
  {
    if es != [] {
      var s, s', e := Exec(cfg, es[..|es| - 1]).value, Exec(cfg, es).value, es[|es| - 1];
      BoundHolds(cfg, es[..|es| - 1]);
      if e.Purge? {
        assert s'.cache.Keys <= s.cache.Keys;
        SmallerMap(s'.cache, s.cache);
      } else if Stores(cfg, e) {
        StoreKeepsBound(s.cache, e.order, KeyOf(e.f), EntryOf(cfg.onNXDomain, e.f).value, 0);
      }
    }
  }

  lemma SmallerMap(a: Entries, b: Entries)
    requires a.Keys <= b.Keys
    ensures |a| <= |b|
    ensures |a| == |b| ==> a.Keys == b.Keys
  {
    SubsetSize(a.Keys, b.Keys);
    assert |a| == |a.Keys| && |b| == |b.Keys|;
  }

  lemma {:induction false} SubsetSize(a: set<string>, b: set<string>)
    requires a <= b
    ensures |a| <= |b|
    ensures |a| == |b| ==> a == b
  {
    if a != {} {
      var k :| k in a;
      SubsetSize(a - {k}, b - {k});
      assert a == (a - {k}) + {k} && b == (b - {k}) + {k};
    }
  }

  // ---------------------------------------------------------------- the cache as a memory

  /** When an event happened. */
  function Time(e: Event): int {
    if e.Purge? then e.now else e.f.at
  }

  /** The clock never goes back. */
  ghost predicate Monotone(es: seq<Event>) {
    forall i, j | 0 <= i < j < |es| :: Time(es[i]) <= Time(es[j])
  }

  ghost predicate DoneBy(es: seq<Event>, now: int) {
    forall e | e in es :: Time(e) <= now
  }

  ghost predicate PurgedBy(es: seq<Event>, now: int) {
    forall e | e in es && e.Purge? :: e.now <= now
  }

  /** The cache without a cache: the latest authoritative answer of the key, for its TTL. */
  ghost function Memo(onNXDomain: bool, log: seq<Finished>, key: string, now: int): Option<Resolution> {
    var f := Latest(onNXDomain, log, key);
    if f.Some? && EntryOf(onNXDomain, f.value).Some? && now < EntryOf(onNXDomain, f.value).value.expires
    then Some(Returned(Outcome(onNXDomain, f.value.cause))) else None
  }

  /** Every read at `now` is answered as the log of all lookups would answer it. */
  ghost predicate IsMemo(onNXDomain: bool, s: State, now: int) {
    forall k :: Read(s.cache, k, now) == Memo(onNXDomain, s.log, k, now)
  }

  /** The event evicts an answer that is still good at `now`. */
  ghost predicate Forgets(onNXDomain: bool, s: State, e: Event, now: int)
    requires Orderly(s, e)
  {
    && e.Complete? && EntryOf(onNXDomain, e.f).Some? && 1000 <= |s.cache|
    && var victim := Scan(e.order, s.cache).key;
       victim != "" && victim != KeyOf(e.f) && victim in s.cache && now < s.cache[victim].expires
  }

  /** What a store does to the entry of one key. */
  lemma StoredAt(c: Entries, order: seq<string>, key: string, entry: Entry, k: string)
    requires forall x | x in order :: x in c
    ensures var c' := Stored(c, order, key, entry);
            var victim := Scan(order, c).key;
            if k == key then k in c' && c'[k] == entry
            else if MAX_SIZE <= |c| && victim != "" && k == victim then k !in c'
            else (k in c' <==> k in c) && (k in c ==> c'[k] == c[k])
  {
  }

  lemma MemoOfKeyKeptIff(onNXDomain: bool, s: State, e: Event, now: int, k: string)
    requires Refines(onNXDomain, s) && Orderly(s, e) && (e.Purge? ==> e.now <= now)
    requires Read(s.cache, k, now) == Memo(onNXDomain, s.log, k, now)
    ensures var s' := Next(onNXDomain, s, e);
            Read(s'.cache, k, now) == Memo(onNXDomain, s'.log, k, now)
            <==> !(Forgets(onNXDomain, s, e, now) && k == Scan(e.order, s.cache).key)
  {
    if e.Complete? {
      assert Next(onNXDomain, s, e).log[..|s.log|] == s.log;
      if EntryOf(onNXDomain, e.f).Some? {
        StoredAt(s.cache, e.order, KeyOf(e.f), EntryOf(onNXDomain, e.f).value, k);
      }
    }
  }

  /** That, exactly, ends the likeness. */
  lemma MemoKeptIff(onNXDomain: bool, s: State, e: Event, now: int)
    requires Refines(onNXDomain, s) && Orderly(s, e) && IsMemo(onNXDomain, s, now) && (e.Purge? ==> e.now <= now)
    ensures IsMemo(onNXDomain, Next(onNXDomain, s, e), now) <==> !Forgets(onNXDomain, s, e, now)
  {
    var s' := Next(onNXDomain, s, e);
    forall k
      ensures Read(s'.cache, k, now) == Memo(onNXDomain, s'.log, k, now)
              <==> !(Forgets(onNXDomain, s, e, now) && k == Scan(e.order, s.cache).key)
    {
      MemoOfKeyKeptIff(onNXDomain, s, e, now, k);
    }
    if Forgets(onNXDomain, s, e, now) {
      var victim := Scan(e.order, s.cache).key;
      assert Read(s'.cache, victim, now) != Memo(onNXDomain, s'.log, victim, now);
    }
  }

  /** The run never stores while 1000 answers, all still good at `now`, are in the cache. */
  ghost predicate Roomy(cfg: Config, es: seq<Event>, now: int)
    requires Exec(cfg, es).Some?
  {
    es != [] ==>
      var c := Exec(cfg, es[..|es| - 1]).value.cache;
      && Roomy(cfg, es[..|es| - 1], now)
      && (Stores(cfg, es[|es| - 1]) && 1000 <= |c| ==> exists k :: k in c && c[k].expires <= now)
  }

  /** Over every run, evictions included: the cache answers every read as the log of all lookups would, unless
      1000 answers that are all good at the read were stored at once. */
  lemma {:induction false} CacheIsMemo(cfg: Config, es: seq<Event>, now: int)
    requires Exec(cfg, es).Some? && Harmless(cfg, es) && Roomy(cfg, es, now) && PurgedBy(es, now)
    ensures IsMemo(cfg.onNXDomain, Exec(cfg, es).value, now)
  {
    if es != [] {
      var before, e := es[..|es| - 1], es[|es| - 1];
      var s := Exec(cfg, before).value;
      assert e in es && PurgedBy(before, now);
      CacheIsMemo(cfg, before, now);
      CacheRefinesLog(cfg, before);
      if Stores(cfg, e) && MAX_SIZE <= |s.cache| {
        ScanFindsOldest(e.order, s.cache);
      }
      MemoKeptIff(cfg.onNXDomain, s, e, now);
    }
  }

  lemma {:induction false} LatestStays(onNXDomain: bool, log: seq<Finished>, f: Finished, later: seq<Finished>)
    requires EntryOf(onNXDomain, f).Some?
    requires forall g | g in later :: KeyOf(g) != KeyOf(f) || EntryOf(onNXDomain, g).None?
    ensures Latest(onNXDomain, log + [f] + later, KeyOf(f)) == Some(f)
  {
    var all := log + [f] + later;
    if later == [] {
      assert all == log + [f];
    } else {
      assert all[..|all| - 1] == log + [f] + later[..|later| - 1] && all[|all| - 1] == later[|later| - 1];
      assert later[|later| - 1] in later;
      LatestStays(onNXDomain, log, f, later[..|later| - 1]);
    }
  }

  /** What is kept of a lookup is its entry. */
  lemma KeptIsEntry(onNXDomain: bool, f: Finished)
    ensures Kept(onNXDomain, f.cause).Some? <==> EntryOf(onNXDomain, f).Some?
    ensures Kept(onNXDomain, f.cause).Some? ==>
              && Returned(Outcome(onNXDomain, f.cause)) == Kept(onNXDomain, f.cause).value.0
              && EntryOf(onNXDomain, f).value.expires == f.at + Kept(onNXDomain, f.cause).value.1 * SECOND
  {
  }

  /** Over every run: what a lookup left is served for its 30 or 10 seconds and not longer, to every read of its
      policy and name, until a later one of the key replaces it, unless it was evicted while still good. */
  lemma {:induction false} ServedForTTL(cfg: Config, es: seq<Event>, log: seq<Finished>, f: Finished, later: seq<Finished>, now: int)
    requires Exec(cfg, es).Some? && Harmless(cfg, es) && Roomy(cfg, es, now) && PurgedBy(es, now)
    requires Exec(cfg, es).value.log == log + [f] + later && Kept(cfg.onNXDomain, f.cause).Some?
    requires forall g | g in later :: KeyOf(g) != KeyOf(f) || Kept(cfg.onNXDomain, g.cause).None?
    ensures Read(Exec(cfg, es).value.cache, if f.cause.Local? then "local:" + f.host else f.host, now)
            == if now < f.at + Kept(cfg.onNXDomain, f.cause).value.1 * SECOND then Some(Kept(cfg.onNXDomain, f.cause).value.0) else None
  {
    CacheIsMemo(cfg, es, now);
    KeptIsEntry(cfg.onNXDomain, f);
    forall g | g in later
      ensures KeyOf(g) != KeyOf(f) || EntryOf(cfg.onNXDomain, g).None?
    {
      KeptIsEntry(cfg.onNXDomain, g);
    }
    LatestStays(cfg.onNXDomain, log, f, later);
    var key := KeyOf(f);
    assert Read(Exec(cfg, es).value.cache, key, now) == Memo(cfg.onNXDomain, Exec(cfg, es).value.log, key, now);
  }

  // ---------------------------------------------------------------- purges

  /** Two caches that differ only in entries that are expired at `now`. */
  ghost predicate Alike(a: Entries, b: Entries, now: int) {
    && (forall k | k in a && k in b :: a[k] == b[k])
    && (forall k | k in a && k !in b :: a[k].expires <= now)
    && (forall k | k in b && k !in a :: b[k].expires <= now)
  }

  /** A full cache that differs has something expired to evict. */
  lemma FullAndDifferent(a: Entries, b: Entries, now: int)
    requires Alike(a, b, now) && a != b && |b| <= MAX_SIZE <= |a|
    ensures exists k :: k in a && a[k].expires <= now
  {
    if forall k | k in a :: k in b {
      assert a.Keys <= b.Keys;
      SmallerMap(a, b);
      assert false;
    }
  }

  /** So its victim is no loss. */
  lemma VictimIsExpired(a: Entries, b: Entries, order: seq<string>, now: int)
    requires Alike(a, b, now) && a != b && |b| <= MAX_SIZE <= |a|
    requires Order(order, a) && SentinelHarmless(a)
    ensures Scan(order, a).key in a && a[Scan(order, a).key].expires <= now
  {
    FullAndDifferent(a, b, now);
    ScanFindsOldest(order, a);
  }

  lemma AlikeStored(a: Entries, b: Entries, oa: seq<string>, ob: seq<string>, key: string, entry: Entry, now: int)
    requires Alike(a, b, now) && |a| <= MAX_SIZE && |b| <= MAX_SIZE
    requires Order(oa, a) && Order(ob, b) && (a == b ==> oa == ob)
    requires (|a| == MAX_SIZE ==> SentinelHarmless(a)) && (|b| == MAX_SIZE ==> SentinelHarmless(b))
    ensures Alike(Stored(a, oa, key, entry), Stored(b, ob, key, entry), now)
  {
    if a != b {
      if |a| == MAX_SIZE {
        VictimIsExpired(a, b, oa, now);
      }
      if |b| == MAX_SIZE {
        VictimIsExpired(b, a, ob, now);
      }
    }
  }

  /** The same lookups finish in both runs, in the same order, with purges anywhere. Ranging over a map goes in
      no order one can rely on; equal maps are taken to be ranged over alike. */
  ghost predicate SameLookups(cfg: Config, es: seq<Event>, fs: seq<Event>)
    requires Exec(cfg, es).Some? && Exec(cfg, fs).Some?
    decreases |es| + |fs|
  {
    if es != [] && es[|es| - 1].Purge? then SameLookups(cfg, es[..|es| - 1], fs)
    else if fs != [] && fs[|fs| - 1].Purge? then SameLookups(cfg, es, fs[..|fs| - 1])
    else if es == [] || fs == [] then es == fs
    else
      && SameLookups(cfg, es[..|es| - 1], fs[..|fs| - 1])
      && es[|es| - 1].f == fs[|fs| - 1].f
      && (Exec(cfg, es[..|es| - 1]).value.cache == Exec(cfg, fs[..|fs| - 1]).value.cache ==> es[|es| - 1] == fs[|fs| - 1])
  }

  lemma {:induction false} SameLookupsAlike(cfg: Config, es: seq<Event>, fs: seq<Event>, now: int)
    requires Exec(cfg, es).Some? && Exec(cfg, fs).Some? && SameLookups(cfg, es, fs)
    requires Harmless(cfg, es) && Harmless(cfg, fs) && PurgedBy(es, now) && PurgedBy(fs, now)
    ensures Alike(Exec(cfg, es).value.cache, Exec(cfg, fs).value.cache, now)
    decreases |es| + |fs|
  {
    if es != [] && es[|es| - 1].Purge? {
      assert es[|es| - 1] in es;
      SameLookupsAlike(cfg, es[..|es| - 1], fs, now);
    } else if fs != [] && fs[|fs| - 1].Purge? {
      assert fs[|fs| - 1] in fs;
      SameLookupsAlike(cfg, es, fs[..|fs| - 1], now);
    } else if es != [] {
      var e, d := es[|es| - 1], fs[|fs| - 1];
      var a, b := Exec(cfg, es[..|es| - 1]).value.cache, Exec(cfg, fs[..|fs| - 1]).value.cache;
      SameLookupsAlike(cfg, es[..|es| - 1], fs[..|fs| - 1], now);
      BoundHolds(cfg, es[..|es| - 1]);
      BoundHolds(cfg, fs[..|fs| - 1]);
      if Stores(cfg, e) {
        AlikeStored(a, b, e.order, d.order, KeyOf(e.f), EntryOf(cfg.onNXDomain, e.f).value, now);
      }
    }
  }

  /** No read can tell when purges ran, or whether: two runs of the same lookups, with stores, evictions and any
      purges up to the read, answer it alike. */
  lemma {:induction false} PurgesInvisible(cfg: Config, es: seq<Event>, fs: seq<Event>, key: string, now: int)
    requires Exec(cfg, es).Some? && Exec(cfg, fs).Some? && SameLookups(cfg, es, fs)
    requires Harmless(cfg, es) && Harmless(cfg, fs) && PurgedBy(es, now) && PurgedBy(fs, now)
    ensures Read(Exec(cfg, es).value.cache, key, now) == Read(Exec(cfg, fs).value.cache, key, now)
  {
    SameLookupsAlike(cfg, es, fs, now);
  }

  /** Every run has a twin without any purge. */
  lemma {:induction false} TwinWithoutPurges(cfg: Config, es: seq<Event>) returns (fs: seq<Event>)
    requires Exec(cfg, es).Some?
    ensures (forall e | e in fs :: e.Complete?) && Exec(cfg, fs).Some? && SameLookups(cfg, es, fs)
    ensures Exec(cfg, fs).value.log == Exec(cfg, es).value.log
  {
    if es == [] {
      fs := [];
    } else {
      var e := es[|es| - 1];
      var fs0 := TwinWithoutPurges(cfg, es[..|es| - 1]);
      if e.Purge? {
        fs := fs0;
      } else {
        var order := e.order;
        if Exec(cfg, es[..|es| - 1]).value.cache != Exec(cfg, fs0).value.cache {
          order := OrderExists(Exec(cfg, fs0).value.cache, "");
        }
        fs := fs0 + [Complete(e.f, order)];
        assert fs[..|fs| - 1] == fs0;
      }
    }
  }

  /** So, while no empty name is looked up, purging might as well not happen at all. */
  lemma PurgesMayBeErased(cfg: Config, es: seq<Event>) returns (fs: seq<Event>)
    requires Exec(cfg, es).Some? && forall f | f in Exec(cfg, es).value.log :: KeyOf(f) != ""
    ensures (forall e | e in fs :: e.Complete?) && Exec(cfg, fs).Some?
    ensures Exec(cfg, fs).value.log == Exec(cfg, es).value.log
    ensures forall key, now | PurgedBy(es, now) ::
              Read(Exec(cfg, fs).value.cache, key, now) == Read(Exec(cfg, es).value.cache, key, now)
  {
    fs := TwinWithoutPurges(cfg, es);
    RealNamesAreHarmless(cfg, es);
    RealNamesAreHarmless(cfg, fs);
    forall key, now | PurgedBy(es, now)
      ensures Read(Exec(cfg, fs).value.cache, key, now) == Read(Exec(cfg, es).value.cache, key, now)
    {
      PurgesInvisible(cfg, es, fs, key, now);
    }
  }
}
