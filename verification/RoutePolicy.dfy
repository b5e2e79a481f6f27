/** The route policy over whole runs: rules, resolution through the cache or a fresh lookup, and the
    choice of candidates together, against the table in the DNS section of the README. */
module RoutePolicy {
  import opened Basics
  import opened Addresses
  import opened Opener
  import Rules
  import Cache
  import CacheKeys
  import TunnelLookup

  /** Where the resolution of a destination came from. */
  datatype Source = Literal | Hit | Fresh(cause: Cache.Cause)

  /** cachedLookup of `host` at time `now` in cache state s: an IP literal, a hit, or a lookup that just
      finished, perhaps begun by a caller of the other policy that shares the key. */
  ghost predicate ResolvedBy(onNXDomain: bool, s: Cache.State, lib: Rules.Library, p: Cache.Policy, host: string, now: int,
                             src: Source, res: Cache.Resolution)
  {
    var name := Rules.Normalize(host);
    var literal := lib.parseAddr(name);
    match src
    case Literal => literal.Some? && res == Cache.Addresses([Unmap(literal.value)], false)
    case Hit => literal.None? && Cache.Read(s.cache, Cache.Key(p, name), now) == Some(res)
    case Fresh(cause) => literal.None? && res == Cache.Returned(Cache.Outcome(onNXDomain, cause))
  }

  function PolicyFor(route: Rules.Route): Cache.Policy {
    if route.Direct? then Cache.LocalPolicy else Cache.TunnelPolicy
  }

  /** The lookup behind a resolution. */
  ghost predicate Behind(onNXDomain: bool, s: Cache.State, key: string, now: int, src: Source, cause: Cache.Cause) {
    match src
    case Literal => false
    case Hit => exists f :: f in s.log && Cache.KeyOf(f) == key && f.cause == cause && now < f.at + Cache.TTL
    case Fresh(c) => c == cause
  }

  /** For every history of lookups, stores, evictions and purges, every rule list and every resolver
      outcome: no private address is dialed through the tunnel; a destination goes direct as
      local-private only with the setting on, to site addresses, and only after a tunnel resolver
      reported the name as not found, in this lookup or in an unexpired one, or in a lookup whose
      fallback found the tunnel down. A resolution is never an empty list, whose first address a refusal
      could not name. */
  lemma {:induction false} RouteIsSafe(cfg: Cache.Config, es: seq<Cache.Event>, lib: Rules.Library, rules: seq<Rules.Rule>, host: string, now: int,
                    answer: Option<seq<Addr>>, src: Source, res: Cache.Resolution, f: Family)
    requires Cache.Exec(cfg, es).Some?
    requires var d := Rules.Decide(lib, rules, host, answer);
             ResolvedBy(cfg.onNXDomain, Cache.Exec(cfg, es).value, lib, PolicyFor(d.route), host, now, src, res)
    ensures res.Addresses? ==> res.addrs != []
    ensures var plan := Candidates(Rules.Decide(lib, rules, host, answer), res, f);
            && (plan.Dial? && plan.route.Tunnel? ==> forall a | a in plan.addrs :: !IsPrivate(a))
            && (plan.Dial? && plan.reason == LOCAL_PRIVATE ==>
                  && cfg.onNXDomain && plan.route.Direct?
                  && (forall a | a in plan.addrs :: InSiteRange(a))
                  && exists cause ::
                       && Behind(cfg.onNXDomain, Cache.Exec(cfg, es).value,
                                 Cache.Key(Cache.TunnelPolicy, Rules.Normalize(host)), now, src, cause)
                       && cause.Tunnel?
                       && (cause.step.Absent? || (cause.step.Nobody? && !cause.up && src.Fresh?)))
  {
    var d := Rules.Decide(lib, rules, host, answer);
    var plan := Candidates(d, res, f);
    TunnelDialsPublicOnly(d, res, f);
    ReasonsDiffer(lib, rules, host, answer);
    LocalPrivateIff(d, res, f);
    if src.Hit? {
      Cache.HitIsLatestAnswer(cfg, es, Cache.Key(PolicyFor(d.route), Rules.Normalize(host)), now);
    }
    if plan.Dial? && plan.reason == LOCAL_PRIVATE {
      var key := Cache.Key(Cache.TunnelPolicy, Rules.Normalize(host));
      var s := Cache.Exec(cfg, es).value;
      match src
      case Literal =>
      case Fresh(cause) =>
        Cache.LocalDirectCause(cfg.onNXDomain, cause);
        assert Behind(cfg.onNXDomain, s, key, now, src, cause);
      case Hit =>
        Cache.HitIsLatestAnswer(cfg, es, key, now);
        var latest := Cache.Latest(cfg.onNXDomain, s.log, key).value;
        Cache.LocalDirectCause(cfg.onNXDomain, latest.cause);
        assert Behind(cfg.onNXDomain, s, key, now, src, latest.cause);
    }
  }

  // ---------------------------------------------------------------- the table

  /** The rows of the table for a name that no rule matches. */
  datatype Row = ThroughTunnel | LocalPrivate | Refused | NameError

  /** The table, read from the README: which resolver's answer counts and which route it takes. A site
      address of a family that direct connections may not use leaves nothing to dial. */
  ghost function Table(onNXDomain: bool, cause: Cache.Cause, f: Family): Row
    requires cause.Tunnel?
  {
    var fromLocal := !cause.step.Resolved?;
    var asked := cause.step.Nobody? || (cause.step.Absent? && onNXDomain);
    var addrs := if cause.step.Resolved? then cause.step.addrs
                 else if asked && cause.local.LocalAddrs? then cause.local.addrs
                 else [];
    if addrs == [] then NameError
    else if exists a :: a in addrs && !IsPrivate(a) then ThroughTunnel
    else if fromLocal && onNXDomain && (cause.step.Absent? || !cause.up) && SiteAnswer(f, addrs) then LocalPrivate
    else Refused
  }

  function RowOf(plan: Plan): Row {
    match plan
    case Dial(_, route, _) => if route.Tunnel? then ThroughTunnel else LocalPrivate
    case Refuse(why, _) => if why.ResolveError? then NameError else Refused
  }

  lemma PlanFollowsTable(onNXDomain: bool, d: Rules.Decision, cause: Cache.Cause, f: Family)
    requires cause.Tunnel? && d.route.Tunnel? && d.reason != LOCAL_PRIVATE
    ensures RowOf(Candidates(d, Cache.Returned(Cache.Outcome(onNXDomain, cause)), f)) == Table(onNXDomain, cause, f)
  {
    var res := Cache.Returned(Cache.Outcome(onNXDomain, cause));
    LocalPrivateIff(d, res, f);
    Cache.LocalDirectCause(onNXDomain, cause);
    if res.Addresses? {
      KeepEmpty(res.addrs, IsPublic);
    }
  }

  /** The code follows the table, for every rule list, resolver outcome, tunnel state and family; and an
      answer of the local fallback is the one that is not cached. */
  lemma RouteFollowsTable(onNXDomain: bool, lib: Rules.Library, rules: seq<Rules.Rule>, host: string,
                          answer: Option<seq<Addr>>, cause: Cache.Cause, f: Family, now: int)
    requires cause.Tunnel?
    ensures var d := Rules.Decide(lib, rules, host, answer);
            d.route.Tunnel? ==>
              RowOf(Candidates(d, Cache.Returned(Cache.Outcome(onNXDomain, cause)), f)) == Table(onNXDomain, cause, f)
    ensures cause.step.Nobody? ==> Cache.ToStore(Cache.Outcome(onNXDomain, cause), now).None?
  {
    ReasonsDiffer(lib, rules, host, answer);
    var d := Rules.Decide(lib, rules, host, answer);
    if d.route.Tunnel? {
      PlanFollowsTable(onNXDomain, d, cause, f);
    }
  }

  /** A hit takes the row of the lookup behind it, over every history of the cache: that lookup asked the tunnel
      resolvers for this very name and finished within its TTL. */
  lemma {:induction false} HitFollowsTable(cfg: Cache.Config, es: seq<Cache.Event>, lib: Rules.Library, rules: seq<Rules.Rule>, host: string,
                        now: int, answer: Option<seq<Addr>>, res: Cache.Resolution, f: Family)
    requires Cache.Exec(cfg, es).Some? && !CacheKeys.SpellsLocalName(cfg, Rules.Normalize(host))
    requires Cache.Read(Cache.Exec(cfg, es).value.cache, Rules.Normalize(host), now) == Some(res)
    requires Rules.Decide(lib, rules, host, answer).route.Tunnel?
    ensures var s := Cache.Exec(cfg, es).value;
            var latest := Cache.Latest(cfg.onNXDomain, s.log, Rules.Normalize(host));
            && latest.Some? && latest.value in s.log && latest.value.host == Rules.Normalize(host)
            && latest.value.cause.Tunnel? && !latest.value.cause.step.Nobody?
            && now < latest.value.at + (if res.NoSuchName? then Cache.NEGATIVE_TTL else Cache.TTL)
            && RowOf(Candidates(Rules.Decide(lib, rules, host, answer), res, f)) == Table(cfg.onNXDomain, latest.value.cause, f)
  {
    Cache.HitIsLatestAnswer(cfg, es, Rules.Normalize(host), now);
    CacheKeys.TunnelEntryKeptApart(cfg, es, Rules.Normalize(host));
    ReasonsDiffer(lib, rules, host, answer);
    var cause := Cache.Latest(cfg.onNXDomain, Cache.Exec(cfg, es).value.log, Rules.Normalize(host)).value.cause;
    PlanFollowsTable(cfg.onNXDomain, Rules.Decide(lib, rules, host, answer), cause, f);
  }

  /** The two keys read alike at the end of the run. */
  ghost predicate SameRead(cfg: Cache.Config, es: seq<Cache.Event>, a: string, b: string, now: int) {
    Cache.Exec(cfg, es).Some? ==>
      Cache.Read(Cache.Exec(cfg, es).value.cache, a, now) == Cache.Read(Cache.Exec(cfg, es).value.cache, b, now)
  }

  /** An ip: rule looks its name up after a second normalisation. It sees the cache entry of the dial in every
      run exactly when the name does not end in two dots. */
  lemma RuleSharesEntryIff(cfg: Cache.Config, host: string)
    requires cfg.names(Rules.Normalize(host))
    ensures (forall es, now ::
               SameRead(cfg, es, Cache.Key(Cache.TunnelPolicy, Rules.Normalize(Rules.Normalize(host))),
                        Cache.Key(Cache.TunnelPolicy, Rules.Normalize(host)), now))
            <==> !(Rules.TrailingDot(host) && Rules.TrailingDot(host[..|host| - 1]))
  {
    Rules.NormalizeTwiceIff(host);
    var once, twice := Rules.Normalize(host), Rules.Normalize(Rules.Normalize(host));
    if once != twice {
      var f := Cache.Finished(once, Cache.Tunnel(TunnelLookup.Absent, true, Cache.LocalError), 0);
      var es := CacheKeys.OneLookup(cfg, f);
      assert !SameRead(cfg, es, Cache.Key(Cache.TunnelPolicy, twice), Cache.Key(Cache.TunnelPolicy, once), 0);
    }
  }

  /** The first two rows: a matching rule sends the name direct, and one that needs no lookup is found
      before any tunnel resolver hears of the name. */
  lemma RulesComeFirst(lib: Rules.Library, rules: seq<Rules.Rule>, host: string, answer: Option<seq<Addr>>)
    requires lib.parseAddr(Rules.Normalize(host)).None?
    ensures var d := Rules.Decide(lib, Rules.Arranged(rules), host, answer);
            && (d.route.Direct? <==> exists r :: r in rules && Rules.Matches(lib, r, Rules.Normalize(host), answer))
            && ((exists r :: r in rules && !Rules.IsIp(r) && Rules.Matches(lib, r, Rules.Normalize(host), answer)) ==>
                  d.route.Direct? && !d.lookedUp)
  {
    Rules.ArrangedKeepsRoute(lib, rules, host, answer);
    Rules.RouteIsAnyMatch(lib, rules, Rules.Normalize(host), answer);
  }
}
