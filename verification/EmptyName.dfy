/** What looking up the empty host name does to the DNS cache: runs in which the bound of the cache is broken and
    in which a purge shows. First the empty name and then any 1000 real ones are looked up, a nanosecond apart. */
module EmptyName {
  import opened Basics
  import opened Addresses
  import opened Eviction
  import opened Cache
  import opened CacheMemo
  import TunnelLookup

  /** As many different real names, all of which can be looked up, as the cache has room for. */
  ghost predicate AreNames(cfg: Config, names: seq<string>) {
    && |names| == 1000
    && (forall i, j | 0 <= i < j < |names| :: names[i] != names[j])
    && (forall i | 0 <= i < |names| :: names[i] != "" && cfg.names(names[i]))
  }

  /** A lookup of `host` that a tunnel resolver answers at time `at`. */
  function Visit(host: string, at: int): Finished {
    Finished(host, Tunnel(TunnelLookup.Resolved([V4(0)]), true, LocalError), at)
  }

  function Visitor(at: int): Entry {
    Entry([V4(0)], at + TTL, false, false)
  }

  /** The names up to the n-th are there, each since its turn. */
  ghost predicate HoldsNames(c: Entries, names: seq<string>, n: nat) {
    && n <= |names| && |c| == n + 1
    && "" in c && c[""] == Visitor(0)
    && (forall i | 0 <= i < n :: names[i] in c && c[names[i]] == Visitor(i + 1))
    && (forall k | k in c && k != "" :: exists i :: 0 <= i < n && names[i] == k)
  }

  lemma EmptyNameIsOldest(c: Entries, names: seq<string>, n: nat)
    requires HoldsNames(c, names, n)
    ensures !SentinelHarmless(c) && forall k | k in c && k != "" :: c[""].expires < c[k].expires
  {
  }

  lemma OneLater(es: seq<Event>, e: Event)
    requires Monotone(es) && DoneBy(es, Time(e))
    ensures Monotone(es + [e]) && DoneBy(es + [e], Time(e))
  {
    var es' := es + [e];
    forall i, j | 0 <= i < j < |es'|
      ensures Time(es'[i]) <= Time(es'[j])
    {
      assert es'[i] == es[i];
      assert es[i] in es;
    }
  }

  lemma VisitIsKept(onNXDomain: bool, s: State, host: string, at: int, order: seq<string>)
    requires Order(order, s.cache)
    ensures Next(onNXDomain, s, Complete(Visit(host, at), order)).cache == Stored(s.cache, order, host, Visitor(at))
  {
  }

  /** A lookup of `host` after a run, whatever the order of the scan. */
  lemma Visited(cfg: Config, before: seq<Event>, host: string, at: int, order: seq<string>) returns (es: seq<Event>)
    requires Exec(cfg, before).Some? && Order(order, Exec(cfg, before).value.cache) && cfg.names(host)
    requires Monotone(before) && DoneBy(before, at)
    ensures es == before + [Complete(Visit(host, at), order)]
    ensures Exec(cfg, es).Some? && Monotone(es) && DoneBy(es, at)
    ensures Exec(cfg, es).value.cache == Stored(Exec(cfg, before).value.cache, order, host, Visitor(at))
  {
    es := before + [Complete(Visit(host, at), order)];
    OneLater(before, Complete(Visit(host, at), order));
    ExecMore(cfg, before, Complete(Visit(host, at), order));
    VisitIsKept(cfg.onNXDomain, Exec(cfg, before).value, host, at, order);
  }

  lemma OneMoreName(c: Entries, names: seq<string>, n: nat, order: seq<string>)
    requires HoldsNames(c, names, n) && n + 1 < MAX_SIZE && n < |names| && Order(order, c)
    requires names[n] != "" && forall i | 0 <= i < n :: names[i] != names[n]
    ensures HoldsNames(Stored(c, order, names[n], Visitor(n + 1)), names, n + 1)
  {
    var c' := Stored(c, order, names[n], Visitor(n + 1));
    assert names[n] !in c;
    assert c' == c[names[n] := Visitor(n + 1)] && c'.Keys == c.Keys + {names[n]};
    forall k | k in c' && k != ""
      ensures exists i :: 0 <= i < n + 1 && names[i] == k
    {
      if k != names[n] {
        var i :| 0 <= i < n && names[i] == k;
        assert 0 <= i < n + 1 && names[i] == k;
      }
    }
  }

  lemma {:induction false} FillRun(cfg: Config, names: seq<string>, n: nat) returns (es: seq<Event>)
    requires AreNames(cfg, names) && cfg.names("") && n < MAX_SIZE
    ensures Exec(cfg, es).Some? && HoldsNames(Exec(cfg, es).value.cache, names, n)
    ensures Monotone(es) && DoneBy(es, n) && forall e | e in es :: e.Complete?
  {
    if n == 0 {
      es := Visited(cfg, [], "", 0, []);
      assert Exec(cfg, es).value.cache == map["" := Visitor(0)];
    } else {
      var before := FillRun(cfg, names, n - 1);
      var c := Exec(cfg, before).value.cache;
      var order := OrderExists(c, "");
      OneMoreName(c, names, n - 1, order);
      es := Visited(cfg, before, names[n - 1], n, order);
    }
  }

  /** A run that began with the empty name overfills the cache. */
  lemma EmptyNameOverfills(cfg: Config, names: seq<string>) returns (es: seq<Event>)
    requires AreNames(cfg, names) && cfg.names("")
    ensures Exec(cfg, es).Some? && Monotone(es) && |Exec(cfg, es).value.cache| == 1001
  {
    var before := FillRun(cfg, names, MAX_SIZE - 1);
    var c, last := Exec(cfg, before).value.cache, names[MAX_SIZE - 1];
    EmptyNameIsOldest(c, names, MAX_SIZE - 1);
    assert last !in c;
    var order := SentinelBreaksBound(c, last, Visitor(MAX_SIZE));
    es := Visited(cfg, before, last, MAX_SIZE, order);
  }

  // ---------------------------------------------------------------- a purge that shows

  /** An order that visits the empty key and then `last` evicts `last`, be it ever so young. */
  lemma EvictsAfterEmpty(c: Entries, last: string) returns (order: seq<string>)
    requires "" in c && last in c && last != "" && forall k | k in c && k != "" :: c[""].expires < c[k].expires
    ensures Order(order, c) && Scan(order, c).key == last
  {
    var rest := c - {last};
    assert !SentinelHarmless(rest);
    var before := LoneSentinelEvictsNothing(rest);
    order := before + [last];
    assert order[..|before|] == before;
    SameScan(before, rest, c);
  }

  lemma {:induction false} SameScan(order: seq<string>, a: Entries, b: Entries)
    requires forall k | k in order :: k in a && k in b && a[k] == b[k]
    ensures Scan(order, a) == Scan(order, b)
  {
    if order != [] {
      SameScan(order[..|order| - 1], a, b);
    }
  }

  /** A purge at `now` takes the empty name alone, and makes room. */
  lemma PurgedEmptyName(c: Entries, names: seq<string>, now: int)
    requires HoldsNames(c, names, MAX_SIZE - 1) && now == TTL + 1
    ensures Purged(c, now) == c - {""} && |Purged(c, now)| == MAX_SIZE - 1
  {
    assert (c - {""}).Keys == c.Keys - {""};
  }

  /** The second name is good at `now`; storing yet another one loses it or not. */
  lemma OneSavedOneEvicted(c: Entries, names: seq<string>, last: string, now: int)
    returns (order: seq<string>, order': seq<string>)
    requires HoldsNames(c, names, MAX_SIZE - 1) && now == TTL + 1 && last !in c && names[1] != ""
    ensures Order(order, c) && Order(order', Purged(c, now)) && Purged(c, now) != c
    ensures Read(Stored(c, order, last, Visitor(now)), names[1], now).None?
    ensures Read(Stored(Purged(c, now), order', last, Visitor(now)), names[1], now).Some?
  {
    PurgedEmptyName(c, names, now);
    EmptyNameIsOldest(c, names, MAX_SIZE - 1);
    order := EvictsAfterEmpty(c, names[1]);
    order' := OrderExists(Purged(c, now), "");
  }

  lemma PurgeStep(cfg: Config, before: seq<Event>, now: int) returns (fs: seq<Event>)
    requires Exec(cfg, before).Some? && Monotone(before) && DoneBy(before, now)
    ensures fs == before + [Purge(now)] && fs[..|fs| - 1] == before && Monotone(fs) && DoneBy(fs, now)
    ensures Exec(cfg, fs) == Some(Exec(cfg, before).value.(cache := Purged(Exec(cfg, before).value.cache, now)))
  {
    fs := before + [Purge(now)];
    OneLater(before, Purge(now));
    ExecMore(cfg, before, Purge(now));
    assert fs[..|fs| - 1] == before;
  }

  lemma {:induction false} SameLookupsRefl(cfg: Config, es: seq<Event>)
    requires Exec(cfg, es).Some? && forall e | e in es :: e.Complete?
    ensures SameLookups(cfg, es, es)
  {
    if es != [] {
      assert es[|es| - 1] in es;
      SameLookupsRefl(cfg, es[..|es| - 1]);
    }
  }

  lemma SameLookupsButPurge(cfg: Config, before: seq<Event>, purged: seq<Event>, e: Event, d: Event, now: int)
    requires Exec(cfg, before).Some? && (forall e | e in before :: e.Complete?)
    requires purged == before + [Purge(now)] && Exec(cfg, purged).Some?
    requires Exec(cfg, before + [e]).Some? && Exec(cfg, purged + [d]).Some?
    requires e.Complete? && d.Complete? && e.f == d.f
    requires Exec(cfg, purged).value.cache != Exec(cfg, before).value.cache
    ensures SameLookups(cfg, before + [e], purged + [d])
  {
    assert (before + [e])[..|before|] == before && (purged + [d])[..|purged|] == purged && purged[..|before|] == before;
    SameLookupsRefl(cfg, before);
    assert SameLookups(cfg, before, purged);
  }

  /** A lookup of `host` at `now`, with a purge just before it or without. */
  lemma BothRuns(cfg: Config, before: seq<Event>, host: string, order: seq<string>, order': seq<string>, now: int)
    returns (es: seq<Event>, fs: seq<Event>)
    requires Exec(cfg, before).Some? && cfg.names(host) && (forall e | e in before :: e.Complete?)
    requires Monotone(before) && DoneBy(before, now)
    requires Order(order, Exec(cfg, before).value.cache) && Order(order', Purged(Exec(cfg, before).value.cache, now))
    requires Purged(Exec(cfg, before).value.cache, now) != Exec(cfg, before).value.cache
    ensures Exec(cfg, es).Some? && Exec(cfg, fs).Some? && SameLookups(cfg, es, fs)
    ensures Monotone(es) && Monotone(fs) && DoneBy(es, now) && DoneBy(fs, now)
    ensures Exec(cfg, es).value.cache == Stored(Exec(cfg, before).value.cache, order, host, Visitor(now))
    ensures Exec(cfg, fs).value.cache == Stored(Purged(Exec(cfg, before).value.cache, now), order', host, Visitor(now))
  {
    es := Visited(cfg, before, host, now, order);
    var purged := PurgeStep(cfg, before, now);
    fs := Visited(cfg, purged, host, now, order');
    SameLookupsButPurge(cfg, before, purged, Complete(Visit(host, now), order), Complete(Visit(host, now), order'), now);
  }

  /** Two runs of the same lookups up to `now`, one with a purge, with a clock that never goes back: the purge took
      the empty name and so made room for an answer that the other run evicts, although it is good at `now`. */
  lemma {:induction false} EmptyNameShowsPurge(cfg: Config, names: seq<string>)
    returns (es: seq<Event>, fs: seq<Event>, key: string, now: int)
    requires AreNames(cfg, names) && cfg.names("")
    ensures Exec(cfg, es).Some? && Exec(cfg, fs).Some? && SameLookups(cfg, es, fs)
    ensures Monotone(es) && Monotone(fs) && DoneBy(es, now) && DoneBy(fs, now)
    ensures Read(Exec(cfg, es).value.cache, key, now).None? && Read(Exec(cfg, fs).value.cache, key, now).Some?
  {
    var before := FillRun(cfg, names, MAX_SIZE - 1);
    var last := names[MAX_SIZE - 1];
    now, key := TTL + 1, names[1];
    assert last !in Exec(cfg, before).value.cache;
    var order, order' := OneSavedOneEvicted(Exec(cfg, before).value.cache, names, last, now);
    es, fs := BothRuns(cfg, before, last, order, order', now);
  }

  // ---------------------------------------------------------------- exactly then

  /** Nothing is stored under the empty key in a configuration in which the empty name is never asked for. */
  lemma NoEmptyKey(cfg: Config, es: seq<Event>)
    requires Exec(cfg, es).Some? && !cfg.names("")
    ensures Harmless(cfg, es)
  {
    forall f | f in Exec(cfg, es).value.log
      ensures KeyOf(f) != ""
    {
      LoggedAreNames(cfg, es, f);
    }
    RealNamesAreHarmless(cfg, es);
  }

  ghost predicate BoundKept(cfg: Config, es: seq<Event>) {
    Exec(cfg, es).Some? && Monotone(es) ==> |Exec(cfg, es).value.cache| <= 1000
  }

  /** The cache keeps its bound in all runs exactly when the empty name is never asked for. */
  lemma BoundHoldsIff(cfg: Config, names: seq<string>)
    requires AreNames(cfg, names)
    ensures (forall es :: BoundKept(cfg, es)) <==> !cfg.names("")
  {
    if cfg.names("") {
      var es := EmptyNameOverfills(cfg, names);
      assert !BoundKept(cfg, es);
    } else {
      forall es
        ensures BoundKept(cfg, es)
      {
        if Exec(cfg, es).Some? {
          NoEmptyKey(cfg, es);
          BoundHolds(cfg, es);
        }
      }
    }
  }

  /** Two runs of the same lookups, with a clock that never goes back, answer a read after them alike. */
  ghost predicate ReadAlike(cfg: Config, es: seq<Event>, fs: seq<Event>, key: string, now: int) {
    && Exec(cfg, es).Some? && Exec(cfg, fs).Some? && SameLookups(cfg, es, fs)
    && Monotone(es) && Monotone(fs) && DoneBy(es, now) && DoneBy(fs, now)
    ==> Read(Exec(cfg, es).value.cache, key, now) == Read(Exec(cfg, fs).value.cache, key, now)
  }

  /** Purges are invisible in all runs exactly when the empty name is never asked for. */
  lemma PurgesInvisibleIff(cfg: Config, names: seq<string>)
    requires AreNames(cfg, names)
    ensures (forall es, fs, key, now :: ReadAlike(cfg, es, fs, key, now)) <==> !cfg.names("")
  {
    if cfg.names("") {
      var es, fs, key, now := EmptyNameShowsPurge(cfg, names);
      assert !ReadAlike(cfg, es, fs, key, now);
    } else {
      forall es, fs, key, now
        ensures ReadAlike(cfg, es, fs, key, now)
      {
        if Exec(cfg, es).Some? && Exec(cfg, fs).Some? && SameLookups(cfg, es, fs) && DoneBy(es, now) && DoneBy(fs, now) {
          NoEmptyKey(cfg, es);
          NoEmptyKey(cfg, fs);
          PurgesInvisible(cfg, es, fs, key, now);
        }
      }
    }
  }
}
