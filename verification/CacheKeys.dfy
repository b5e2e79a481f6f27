/** The two key spaces of the DNS cache (dns.go: resolveTunnel, localResolveAll): which answers of one policy
    can be served to the other, over all runs. */
module CacheKeys {
  import opened Basics
  import opened Addresses
  import opened Eviction
  import opened Cache
  import TunnelLookup

  /** The entry of `key` was left by a lookup of `host` that a tunnel resolver answered, with an address or
      with a not-found; never by the local fallback. */
  ghost predicate FromTunnel(onNXDomain: bool, s: State, key: string, host: string) {
    var f := Latest(onNXDomain, s.log, key);
    f.Some? && f.value.host == host && f.value.cause.Tunnel? && !f.value.cause.step.Nobody?
  }

  /** ... by a lookup of `host` through the local resolver alone; it is never negative. */
  ghost predicate FromLocalOnly(onNXDomain: bool, s: State, key: string, host: string) {
    var f := Latest(onNXDomain, s.log, key);
    f.Some? && f.value.host == host && f.value.cause.Local? && key in s.cache && !s.cache[key].neg && !s.cache[key].localDirect
  }

  /** The host spells the local key of a name that lookups can have. */
  predicate SpellsLocalName(cfg: Config, host: string) {
    SpellsLocal(host) && cfg.names(host[|LOCAL_PREFIX|..])
  }

  lemma {:induction false} TunnelEntryKeptApart(cfg: Config, es: seq<Event>, host: string)
    requires Exec(cfg, es).Some? && Key(TunnelPolicy, host) in Exec(cfg, es).value.cache
    requires !SpellsLocalName(cfg, host)
    ensures FromTunnel(cfg.onNXDomain, Exec(cfg, es).value, Key(TunnelPolicy, host), host)
  {
    var s := Exec(cfg, es).value;
    CacheRefinesLog(cfg, es);
    LatestIsLogged(cfg.onNXDomain, s.log, host);
    var f := Latest(cfg.onNXDomain, s.log, host).value;
    LoggedAreNames(cfg, es, f);
    assert (LOCAL_PREFIX + f.host)[|LOCAL_PREFIX|..] == f.host;
  }

  /** The local entry of a host comes from the local resolver, as long as nobody looks up the name that
      spells its key through the tunnel. */
  lemma {:induction false} LocalEntryKeptApart(cfg: Config, es: seq<Event>, host: string)
    requires Exec(cfg, es).Some? && Key(LocalPolicy, host) in Exec(cfg, es).value.cache
    requires forall f | f in Exec(cfg, es).value.log && f.cause.Tunnel? :: f.host != LOCAL_PREFIX + host
    ensures FromLocalOnly(cfg.onNXDomain, Exec(cfg, es).value, Key(LocalPolicy, host), host)
  {
    var s := Exec(cfg, es).value;
    CacheRefinesLog(cfg, es);
    LatestIsLogged(cfg.onNXDomain, s.log, Key(LocalPolicy, host));
    var f := Latest(cfg.onNXDomain, s.log, Key(LocalPolicy, host)).value;
    assert Key(LocalPolicy, f.host)[|LOCAL_PREFIX|..] == f.host;
    assert Key(LocalPolicy, host)[|LOCAL_PREFIX|..] == host;
  }

  /** A run of one lookup. */
  lemma OneLookup(cfg: Config, f: Finished) returns (es: seq<Event>)
    requires cfg.names(f.host) && EntryOf(cfg.onNXDomain, f).Some?
    ensures Exec(cfg, es) == Some(State(map[KeyOf(f) := EntryOf(cfg.onNXDomain, f).value], [f]))
    ensures Latest(cfg.onNXDomain, [f], KeyOf(f)) == Some(f)
  {
    es := [Complete(f, [])];
    assert es[..0] == [] && [] + [f] == [f] && Exec(cfg, []) == Some(State(map[], []));
    assert Next(cfg.onNXDomain, State(map[], []), es[0]).log == [f];
    assert Stored(map[], [], KeyOf(f), EntryOf(cfg.onNXDomain, f).value) == map[KeyOf(f) := EntryOf(cfg.onNXDomain, f).value];
  }

  /** The local answer for a name becomes the tunnel answer for the host that spells its key. */
  lemma LocalAnswerShadowsTunnel(cfg: Config, host: string, addrs: seq<Addr>, at: int) returns (es: seq<Event>)
    requires cfg.names(host) && addrs != []
    ensures Exec(cfg, es).Some?
    ensures var s := Exec(cfg, es).value;
            && Read(s.cache, Key(TunnelPolicy, LOCAL_PREFIX + host), at) == Some(Addresses(addrs, false))
            && !FromTunnel(cfg.onNXDomain, s, LOCAL_PREFIX + host, LOCAL_PREFIX + host)
  {
    es := OneLookup(cfg, Finished(host, Local(LocalAddrs(addrs)), at));
  }

  /** And the other way round: a tunnel answer for the spelling host becomes the local one of the name, be it an
      address or a not-found, which a local lookup alone never leaves. */
  lemma TunnelAnswerShadowsLocal(cfg: Config, host: string, addrs: seq<Addr>, at: int) returns (es: seq<Event>)
    requires cfg.names(LOCAL_PREFIX + host)
    ensures Exec(cfg, es).Some?
    ensures var s := Exec(cfg, es).value;
            && Read(s.cache, Key(LocalPolicy, host), at) == Some(if addrs == [] then NoSuchName else Addresses(addrs, false))
            && !FromLocalOnly(cfg.onNXDomain, s, Key(LocalPolicy, host), host)
  {
    var step := if addrs == [] then TunnelLookup.Absent else TunnelLookup.Resolved(addrs);
    es := OneLookup(cfg, Finished(LOCAL_PREFIX + host, Tunnel(step, true, LocalError), at));
  }

  /** So the tunnel key of a host is the tunnel's in every run exactly when the host does not spell the local key
      of a name; an IP literal is none. */
  lemma TunnelKeyKeptApartIff(cfg: Config, host: string)
    ensures (forall es | Exec(cfg, es).Some? && host in Exec(cfg, es).value.cache ::
               FromTunnel(cfg.onNXDomain, Exec(cfg, es).value, host, host))
            <==> !SpellsLocalName(cfg, host)
  {
    if SpellsLocalName(cfg, host) {
      assert host == LOCAL_PREFIX + host[|LOCAL_PREFIX|..];
      var es := LocalAnswerShadowsTunnel(cfg, host[|LOCAL_PREFIX|..], [V4(0)], 0);
      assert !FromTunnel(cfg.onNXDomain, Exec(cfg, es).value, host, host);
    } else {
      forall es | Exec(cfg, es).Some? && host in Exec(cfg, es).value.cache
        ensures FromTunnel(cfg.onNXDomain, Exec(cfg, es).value, host, host)
      {
        TunnelEntryKeptApart(cfg, es, host);
      }
    }
  }

  /** And the local key of a host is the local resolver's in every run exactly when the spelling of that key is
      no name that lookups can have. */
  lemma LocalKeyKeptApartIff(cfg: Config, host: string)
    ensures (forall es | Exec(cfg, es).Some? && Key(LocalPolicy, host) in Exec(cfg, es).value.cache ::
               FromLocalOnly(cfg.onNXDomain, Exec(cfg, es).value, Key(LocalPolicy, host), host))
            <==> !cfg.names(LOCAL_PREFIX + host)
  {
    if cfg.names(LOCAL_PREFIX + host) {
      var es := TunnelAnswerShadowsLocal(cfg, host, [], 0);
      assert Key(LocalPolicy, host) in Exec(cfg, es).value.cache;
    } else {
      forall es | Exec(cfg, es).Some? && Key(LocalPolicy, host) in Exec(cfg, es).value.cache
        ensures FromLocalOnly(cfg.onNXDomain, Exec(cfg, es).value, Key(LocalPolicy, host), host)
      {
        forall f | f in Exec(cfg, es).value.log
          ensures cfg.names(f.host)
        {
          LoggedAreNames(cfg, es, f);
        }
        LocalEntryKeptApart(cfg, es, host);
      }
    }
  }
}
