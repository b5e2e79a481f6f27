/** The DNS cache (dns.go: cachedLookup, store, purge, lookup's result, notFound, localResolveAll) and
    what it promises over a whole run: it refines the log of finished lookups. */
module Cache {
  import opened Basics
  import opened Addresses
  import opened Eviction
  import TunnelLookup

  const TTL: int := 30 * SECOND
  const NEGATIVE_TTL: int := 10 * SECOND

  // ---------------------------------------------------------------- what a lookup returns

  /** The local resolver: its error is never the errNotFound of the tunnel resolvers. */
  datatype LocalReply = LocalAddrs(addrs: seq<Addr>) | LocalError

  /** What happened in a shared lookup: the tunnel step with the tunnel state at its fallback and the
      local reply, had it been asked; or only the local resolver, for direct destinations. */
  datatype Cause = Tunnel(step: TunnelLookup.Result, up: bool, local: LocalReply) | Local(local: LocalReply)

  /** lookupResult with its error. */
  datatype Looked = Looked(addrs: seq<Addr>, authoritative: bool, localDirect: bool, err: Option<Error>)
  datatype Error = NotFound | Other

  function FromLocal(local: LocalReply, authoritative: bool, localDirect: bool): Looked {
    match local
    case LocalAddrs(addrs) => Looked(addrs, authoritative, localDirect, None)
    case LocalError => Looked([], authoritative, localDirect, Some(Other))
  }

  /** The result of a lookup; `onNXDomain` is the LOCAL_DNS_ON_NXDOMAIN setting. */
  function Outcome(onNXDomain: bool, cause: Cause): Looked {
    match cause
    case Local(local) => FromLocal(local, true, false)
    case Tunnel(step, up, local) =>
      match step
      case Resolved(addrs) => Looked(addrs, true, false, None)
      case Absent =>
        if onNXDomain && local.LocalAddrs? then Looked(local.addrs, true, true, None)
        else Looked([], true, false, Some(NotFound))
      case Nobody => FromLocal(local, false, onNXDomain && !up)
  }

  /** What cachedLookup gives its caller. */
  datatype Resolution = Addresses(addrs: seq<Addr>, localDirect: bool) | NoSuchName | NoAddress | Failed

  function Returned(l: Looked): Resolution {
    if l.err.Some? then (if l.err.value.NotFound? then NoSuchName else Failed)
    else if l.addrs == [] then NoAddress
    else Addresses(l.addrs, l.localDirect)
  }

  /** The entry that cachedLookup stores, if any. */
  function ToStore(l: Looked, now: int): Option<Entry> {
    if l.err.Some? then
      if l.authoritative && l.err.value.NotFound? then Some(Entry([], now + NEGATIVE_TTL, true, false)) else None
    else if l.addrs == [] || !l.authoritative then None
    else Some(Entry(l.addrs, now + TTL, false, l.localDirect))
  }

  /** A cache read: None is a miss. */
  function Read(c: Entries, key: string, now: int): Option<Resolution> {
    if key in c && now < c[key].expires then
      Some(if c[key].neg then NoSuchName else Addresses(c[key].addrs, c[key].localDirect))
    else None
  }

  // ---------------------------------------------------------------- keys

  datatype Policy = TunnelPolicy | LocalPolicy

  const LOCAL_PREFIX: string := "local:"

  function Key(p: Policy, host: string): string {
    if p.TunnelPolicy? then host else LOCAL_PREFIX + host
  }

  /** A host name that spells a key of the local space. */
  predicate SpellsLocal(host: string) {
    LOCAL_PREFIX <= host
  }

  /** The two key spaces meet exactly at such names. */
  lemma KeysMeetIff(tunnelHost: string)
    ensures Key(TunnelPolicy, tunnelHost) == tunnelHost
    ensures (exists localHost :: Key(TunnelPolicy, tunnelHost) == Key(LocalPolicy, localHost))
            <==> 6 <= |tunnelHost| && tunnelHost[..6] == "local:"
    ensures 6 <= |tunnelHost| && tunnelHost[..6] == "local:" ==> Key(LocalPolicy, tunnelHost[6..]) == tunnelHost
  {
    if 6 <= |tunnelHost| && tunnelHost[..6] == "local:" {
      assert tunnelHost == "local:" + tunnelHost[6..];
      assert Key(TunnelPolicy, tunnelHost) == Key(LocalPolicy, tunnelHost[6..]);
    }
    forall localHost
      ensures Key(LocalPolicy, localHost)[..6] == "local:"
    {
    }
  }

  // ---------------------------------------------------------------- runs

  /** The setting LOCAL_DNS_ON_NXDOMAIN, and the names that reach a lookup: what normalizeHost produces and is
      no IP literal, which cachedLookup answers without cache and resolver. */
  datatype Config = Config(onNXDomain: bool, names: string -> bool)

  /** One finished shared lookup. `order` is how ranging over the full map went, should it have stored. */
  datatype Finished = Finished(host: string, cause: Cause, at: int)

  datatype Event = Complete(f: Finished, order: seq<string>) | Purge(now: int)

  datatype State = State(cache: Entries, log: seq<Finished>)

  function PolicyOf(cause: Cause): Policy {
    if cause.Local? then LocalPolicy else TunnelPolicy
  }

  function KeyOf(f: Finished): string {
    Key(PolicyOf(f.cause), f.host)
  }

  function EntryOf(onNXDomain: bool, f: Finished): Option<Entry> {
    ToStore(Outcome(onNXDomain, f.cause), f.at)
  }

  ghost predicate Orderly(s: State, e: Event) {
    e.Complete? ==> Order(e.order, s.cache)
  }

  ghost function Next(onNXDomain: bool, s: State, e: Event): State
    requires Orderly(s, e)
  {
    match e
    case Purge(now) => s.(cache := Purged(s.cache, now))
    case Complete(f, order) =>
      var entry := EntryOf(onNXDomain, f);
      State(if entry.Some? then Stored(s.cache, order, KeyOf(f), entry.value) else s.cache, s.log + [f])
  }

  ghost predicate Enabled(cfg: Config, s: State, e: Event) {
    Orderly(s, e) && (e.Complete? ==> cfg.names(e.f.host))
  }

  ghost function Exec(cfg: Config, es: seq<Event>): Option<State> {
    if es == [] then Some(State(map[], []))
    else
      var before := Exec(cfg, es[..|es| - 1]);
      if before.Some? && Enabled(cfg, before.value, es[|es| - 1]) then Some(Next(cfg.onNXDomain, before.value, es[|es| - 1])) else None
  }

  lemma ExecMore(cfg: Config, es: seq<Event>, e: Event)
    requires Exec(cfg, es).Some? && Enabled(cfg, Exec(cfg, es).value, e)
    ensures Exec(cfg, es + [e]) == Some(Next(cfg.onNXDomain, Exec(cfg, es).value, e))
  {
    assert (es + [e])[..|es|] == es;
  }

  /** The latest finished lookup of a key whose answer is one to cache. */
  function Latest(onNXDomain: bool, log: seq<Finished>, key: string): Option<Finished> {
    if log == [] then None
    else
      var f := log[|log| - 1];
      if KeyOf(f) == key && EntryOf(onNXDomain, f).Some? then Some(f) else Latest(onNXDomain, log[..|log| - 1], key)
  }

  /** Every entry is what the latest such lookup of its key left. */
  ghost predicate Refines(onNXDomain: bool, s: State) {
    forall k | k in s.cache ::
      Latest(onNXDomain, s.log, k).Some? && EntryOf(onNXDomain, Latest(onNXDomain, s.log, k).value) == Some(s.cache[k])
  }

  lemma RefinesKept(onNXDomain: bool, s: State, e: Event)
    requires Refines(onNXDomain, s) && Orderly(s, e)
    ensures Refines(onNXDomain, Next(onNXDomain, s, e))
  {
    var s' := Next(onNXDomain, s, e);
    if e.Complete? {
      assert s'.log[..|s'.log| - 1] == s.log;
    }
  }

  lemma {:induction false} CacheRefinesLog(cfg: Config, es: seq<Event>)
    requires Exec(cfg, es).Some?
    ensures Refines(cfg.onNXDomain, Exec(cfg, es).value)
  {
    if es != [] {
      CacheRefinesLog(cfg, es[..|es| - 1]);
      RefinesKept(cfg.onNXDomain, Exec(cfg, es[..|es| - 1]).value, es[|es| - 1]);
    }
  }

  lemma {:induction false} LatestIsLogged(onNXDomain: bool, log: seq<Finished>, key: string)
    requires Latest(onNXDomain, log, key).Some?
    ensures Latest(onNXDomain, log, key).value in log && KeyOf(Latest(onNXDomain, log, key).value) == key
  {
    var f := log[|log| - 1];
    if !(KeyOf(f) == key && EntryOf(onNXDomain, f).Some?) {
      LatestIsLogged(onNXDomain, log[..|log| - 1], key);
    }
  }

  lemma {:induction false} LoggedAreNames(cfg: Config, es: seq<Event>, f: Finished)
    requires Exec(cfg, es).Some? && f in Exec(cfg, es).value.log
    ensures cfg.names(f.host)
  {
    var before, e := es[..|es| - 1], es[|es| - 1];
    if !(e.Complete? && e.f == f) {
      LoggedAreNames(cfg, before, f);
    }
  }

  /** A hit gives its reader exactly what the latest authoritative lookup of the key gave its own
      caller, and that lookup finished less than its TTL ago. */
  lemma {:induction false} HitIsLatestAnswer(cfg: Config, es: seq<Event>, key: string, now: int)
    requires Exec(cfg, es).Some?
    requires Read(Exec(cfg, es).value.cache, key, now).Some?
    ensures var s := Exec(cfg, es).value;
            var f := Latest(cfg.onNXDomain, s.log, key);
            && f.Some? && f.value in s.log && KeyOf(f.value) == key
            && Outcome(cfg.onNXDomain, f.value.cause).authoritative
            && Read(s.cache, key, now).value == Returned(Outcome(cfg.onNXDomain, f.value.cause))
            && now < f.value.at + (if Read(s.cache, key, now).value.NoSuchName? then 10 else 30) * SECOND
  {
    CacheRefinesLog(cfg, es);
    LatestIsLogged(cfg.onNXDomain, Exec(cfg, es).value.log, key);
  }

  /** What callers are told: a name does not exist exactly when a tunnel resolver said so and nobody could be asked
      instead; an empty answer is no address; and a failed local resolver is just a failure. */
  lemma CallersAreTold(onNXDomain: bool, cause: Cause)
    ensures var (told, asked) := (Returned(Outcome(onNXDomain, cause)),
                                  cause.Local? || cause.step.Nobody? || (cause.step.Absent? && onNXDomain));
            && (told.NoSuchName? <==> cause.Tunnel? && cause.step.Absent? && (!onNXDomain || cause.local.LocalError?))
            && (told.Failed? <==> (cause.Local? || cause.step.Nobody?) && cause.local.LocalError?)
            && (told.NoAddress? <==>
                  || (asked && cause.local == LocalAddrs([])) || (cause.Tunnel? && cause.step == TunnelLookup.Resolved([])))
            && (told.Addresses? ==> told.addrs == if asked then cause.local.addrs else cause.step.addrs)
  {
  }

  /** What is kept of a lookup and for how many seconds, by what happened in it: answers that are authoritative for
      their policy, and a not-found that stands. */
  function Kept(onNXDomain: bool, cause: Cause): Option<(Resolution, int)> {
    match cause
    case Local(LocalAddrs(addrs)) => if addrs == [] then None else Some((Addresses(addrs, false), 30))
    case Local(LocalError) => None
    case Tunnel(Resolved(addrs), _, _) => if addrs == [] then None else Some((Addresses(addrs, false), 30))
    case Tunnel(Absent, _, LocalAddrs(addrs)) =>
      if !onNXDomain then Some((NoSuchName, 10)) else if addrs == [] then None else Some((Addresses(addrs, true), 30))
    case Tunnel(Absent, _, LocalError) => Some((NoSuchName, 10))
    case Tunnel(Nobody, _, _) => None
  }

  /** The lookup that just finished, read back. */
  lemma ReadBack(onNXDomain: bool, s: State, f: Finished, order: seq<string>, now: int)
    requires Order(order, s.cache)
    ensures var c := Next(onNXDomain, s, Complete(f, order)).cache;
            match Kept(onNXDomain, f.cause)
            case None => c == s.cache
            case Some((res, seconds)) =>
              Read(c, if f.cause.Local? then "local:" + f.host else f.host, now)
              == if now < f.at + seconds * SECOND then Some(res) else None
  {
  }

  /** A returned local answer may go direct only with the setting on, and only if a tunnel resolver
      reported the name as not found or the tunnel was down at the fallback. */
  lemma LocalDirectCause(onNXDomain: bool, cause: Cause)
    ensures var r := Returned(Outcome(onNXDomain, cause));
            r.Addresses? && r.localDirect <==>
              && onNXDomain && cause.Tunnel? && cause.local.LocalAddrs? && cause.local.addrs != []
              && (cause.step.Absent? || (cause.step.Nobody? && !cause.up))
  {
  }
}
