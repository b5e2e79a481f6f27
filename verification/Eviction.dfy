/** The stored entries of the DNS cache and the scan that picks a victim when it is full (dns.go: store).
    The scan uses the empty string for "none found yet", while a host that normalises to the empty
    string is stored under that very key; what this costs is stated exactly. */
module Eviction {
  import opened Addresses

  const MAX_SIZE: nat := 1000

  /** `neg` marks a cached not-found. */
  datatype Entry = Entry(addrs: seq<Addr>, expires: int, neg: bool, localDirect: bool)

  type Entries = map<string, Entry>

  /** An order in which ranging over the map may visit its keys. */
  ghost predicate Order(order: seq<string>, c: Entries) {
    && (forall i, j | 0 <= i < j < |order| :: order[i] != order[j])
    && (forall k :: k in order <==> k in c)
  }

  datatype Oldest = Oldest(key: string, time: int)

  /** The scan of store over the keys in this order. */
  function Scan(order: seq<string>, c: Entries): (o: Oldest)
    requires forall k | k in order :: k in c
  {
    if order == [] then Oldest("", 0)
    else
      var k := order[|order| - 1];
      var o := Scan(order[..|order| - 1], c);
      if o.key == "" || c[k].expires < o.time then Oldest(k, c[k].expires) else o
  }

  /** The map after store: a full one loses the scan's victim, if there is one, to the new entry. */
  function Stored(c: Entries, order: seq<string>, key: string, entry: Entry): Entries
    requires forall k | k in order :: k in c
  {
    var victim := Scan(order, c).key;
    var room := if MAX_SIZE <= |c| && victim != "" then c - {victim} else c;
    room[key := entry]
  }

  function Purged(c: Entries, now: int): Entries {
    map k | k in c && now <= c[k].expires :: c[k]
  }

  /** k is a real key and no entry expires before it. */
  ghost predicate OldestKey(c: Entries, k: string) {
    k != "" && k in c && forall x | x in c :: c[k].expires <= c[x].expires
  }

  /** The empty key, if stored, is not alone the oldest. */
  ghost predicate SentinelHarmless(c: Entries) {
    "" in c ==> exists k :: k in c && k != "" && c[k].expires <= c[""].expires
  }

  /** What the scan knows about every key it has passed. */
  ghost predicate Passed(o: Oldest, order: seq<string>, c: Entries, x: string)
    requires x in c && (forall k | k in order :: k in c) && o.key in c
  {
    || (o.time <= c[x].expires && (o.key == "" ==> o.time < c[x].expires))
    || ("" in order && c[""].expires < c[x].expires)
  }

  lemma {:induction false} ScanPasses(order: seq<string>, c: Entries)
    requires forall k | k in order :: k in c
    requires forall i, j | 0 <= i < j < |order| :: order[i] != order[j]
    requires order != []
    ensures Scan(order, c).key in order && Scan(order, c).time == c[Scan(order, c).key].expires
    ensures forall x | x in order && x != "" :: Passed(Scan(order, c), order, c, x)
  {
    var before, k := order[..|order| - 1], order[|order| - 1];
    assert order == before + [k];
    if before != [] {
      ScanPasses(before, c);
      assert k !in before;
    }
  }

  lemma ScanFindsOldest(order: seq<string>, c: Entries)
    requires Order(order, c) && c != map[] && SentinelHarmless(c)
    ensures OldestKey(c, Scan(order, c).key)
  {
    var some :| some in c;
    assert some in order;
    ScanPasses(order, c);
    var o := Scan(order, c);
    if "" in c {
      var k :| k in c && k != "" && c[k].expires <= c[""].expires;
      assert Passed(o, order, c, k);
    }
  }

  /** Every finite map has an order, and any key can come last in it. */
  lemma {:induction false} OrderExists(c: Entries, last: string) returns (order: seq<string>)
    ensures Order(order, c)
    ensures last in c ==> order != [] && order[|order| - 1] == last
    decreases |c|
  {
    if c == map[] {
      order := [];
    } else {
      var k := last;
      if last !in c {
        k :| k in c;
      }
      var rest := c - {k};
      assert rest.Keys == c.Keys - {k};
      order := OrderExists(rest, k);
      order := order + [k];
    }
  }

  /** If the empty key is alone the oldest, an order that visits it last evicts nothing. */
  lemma LoneSentinelEvictsNothing(c: Entries) returns (order: seq<string>)
    requires !SentinelHarmless(c)
    ensures Order(order, c) && Scan(order, c).key == ""
  {
    order := OrderExists(c, "");
    var before := order[..|order| - 1];
    assert order == before + [""];
    if before != [] {
      ScanPasses(before, c);
      var o := Scan(before, c);
      assert o.key in order;
    }
  }

  /** A full cache loses its oldest entry whatever the order of the scan, exactly when the empty key is
      not alone the oldest. */
  lemma EvictsOldestIff(c: Entries)
    requires c != map[]
    ensures (forall order | Order(order, c) :: OldestKey(c, Scan(order, c).key)) <==> SentinelHarmless(c)
  {
    if SentinelHarmless(c) {
      forall order | Order(order, c)
        ensures OldestKey(c, Scan(order, c).key)
      {
        ScanFindsOldest(order, c);
      }
    } else {
      var order := LoneSentinelEvictsNothing(c);
    }
  }

  /** So unless the empty key is alone the oldest, a store keeps the bound, and a live entry goes only when
      all are live. */
  lemma StoreKeepsBound(c: Entries, order: seq<string>, key: string, entry: Entry, now: int)
    requires Order(order, c) && |c| <= MAX_SIZE && (|c| == MAX_SIZE ==> SentinelHarmless(c))
    ensures |Stored(c, order, key, entry)| <= MAX_SIZE
    ensures forall k | k in c && k !in Stored(c, order, key, entry) && now < c[k].expires ::
              forall x | x in c :: now < c[x].expires
  {
    var victim := Scan(order, c).key;
    if |c| == MAX_SIZE {
      ScanFindsOldest(order, c);
      assert |c - {victim}| == MAX_SIZE - 1 by {
        assert (c - {victim}).Keys == c.Keys - {victim};
      }
    }
    var room := if MAX_SIZE <= |c| && victim != "" then c - {victim} else c;
    assert |room| <= MAX_SIZE - 1;
    assert room[key := entry].Keys == room.Keys + {key};
  }

  /** ... and with the empty key it may not: a full cache grows. */
  lemma SentinelBreaksBound(c: Entries, key: string, entry: Entry) returns (order: seq<string>)
    requires !SentinelHarmless(c) && |c| == MAX_SIZE && key !in c
    ensures Order(order, c) && |Stored(c, order, key, entry)| == MAX_SIZE + 1
  {
    order := LoneSentinelEvictsNothing(c);
    assert c[key := entry].Keys == c.Keys + {key};
  }

  /** Exactly: a new key leaves a full cache within its bound in every order of the scan if and only if the
      empty key is not alone the oldest. */
  lemma BoundKeptIff(c: Entries, key: string, entry: Entry)
    requires |c| == MAX_SIZE && key !in c
    ensures (forall order | Order(order, c) :: |Stored(c, order, key, entry)| <= MAX_SIZE) <==> SentinelHarmless(c)
  {
    if SentinelHarmless(c) {
      forall order | Order(order, c)
        ensures |Stored(c, order, key, entry)| <= MAX_SIZE
      {
        StoreKeepsBound(c, order, key, entry, 0);
      }
    } else {
      var order := SentinelBreaksBound(c, key, entry);
    }
  }
}
