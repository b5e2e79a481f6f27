/** The route policy end to end (opener.go: candidates, Open): decision, resolution, choice of
    addresses, dial order. */
module Opener {
  import opened Basics
  import opened Addresses
  import Rules
  import Cache

  datatype Family = Both | OnlyV4 | OnlyV6

  predicate FamilyMatches(f: Family, a: Addr) {
    match f
    case Both => true
    case OnlyV4 => a.V4? || IsMapped(a)
    case OnlyV6 => !(a.V4? || IsMapped(a))
  }

  datatype Refusal = ResolveError | OnlyPrivate | NoFamily

  /** What candidates returns: addresses in dial order, or an error. */
  datatype Plan = Dial(addrs: seq<Addr>, route: Rules.Route, reason: string) | Refuse(why: Refusal, route: Rules.Route)

  function Keep(addrs: seq<Addr>, p: Addr -> bool): seq<Addr> {
    if addrs == [] then []
    else if p(addrs[|addrs| - 1]) then Keep(addrs[..|addrs| - 1], p) + [addrs[|addrs| - 1]]
    else Keep(addrs[..|addrs| - 1], p)
  }

  predicate IsPublic(a: Addr) {
    !IsPrivate(a)
  }

  function Differs(head: Addr): Addr -> bool {
    a => a != head
  }

  function InFamily(f: Family): Addr -> bool {
    a => FamilyMatches(f, a)
  }

  function Public(addrs: seq<Addr>): seq<Addr> {
    Keep(addrs, IsPublic)
  }

  /** pickTunnelAddr: the first IPv4 address, else the first. */
  function PickTunnel(addrs: seq<Addr>): (a: Addr)
    requires addrs != []
    ensures a in addrs
  {
    var v4 := FirstV4(addrs);
    if v4.Some? then v4.value else addrs[0]
  }

  function FirstV4(addrs: seq<Addr>): (r: Option<Addr>)
    ensures r.Some? ==> r.value.V4? && exists i | 0 <= i < |addrs| :: addrs[i] == r.value && forall j | 0 <= j < i :: !addrs[j].V4?
    ensures r.None? ==> forall a | a in addrs :: !a.V4?
  {
    if addrs == [] then None
    else
      var before := FirstV4(addrs[..|addrs| - 1]);
      var last := addrs[|addrs| - 1];
      assert addrs == addrs[..|addrs| - 1] + [last];
      if before.Some? then before else if last.V4? then Some(last) else None
  }

  function HeadFirst(addrs: seq<Addr>): seq<Addr>
    requires addrs != []
  {
    [PickTunnel(addrs)] + Keep(addrs, Differs(PickTunnel(addrs)))
  }

  function OfFamily(f: Family, addrs: seq<Addr>, reason: string): Plan {
    var out := Keep(addrs, InFamily(f));
    if out == [] then Refuse(NoFamily, Rules.Direct) else Dial(out, Rules.Direct, reason)
  }

  const LOCAL_PRIVATE: string := "local-private"

  /** candidates, given the decision and the resolution under the decision's policy. */
  function Candidates(d: Rules.Decision, res: Cache.Resolution, f: Family): Plan {
    if !res.Addresses? then Refuse(ResolveError, d.route)
    else if d.route.Direct? then OfFamily(f, res.addrs, d.reason)
    else if Public(res.addrs) != [] then Dial(HeadFirst(Public(res.addrs)), Rules.Tunnel, d.reason)
    else if !res.localDirect || DropHostLocal(res.addrs) == [] then Refuse(OnlyPrivate, Rules.Tunnel)
    else OfFamily(f, DropHostLocal(res.addrs), LOCAL_PRIVATE)
  }

  // ---------------------------------------------------------------- the loops

  method PickTunnelLoop(addrs: seq<Addr>) returns (a: Addr)
    requires addrs != []
    ensures a == PickTunnel(addrs)
  {
    for i := 0 to |addrs|
      invariant FirstV4(addrs[..i]).None?
    {
      assert addrs[..i + 1][..i] == addrs[..i];
      if addrs[i].V4? {
        FirstV4Prefix(addrs, i + 1);
        return addrs[i];
      }
    }
    assert addrs[..|addrs|] == addrs;
    return addrs[0];
  }

  lemma {:induction false} FirstV4Prefix(addrs: seq<Addr>, k: nat)
    requires k <= |addrs| && FirstV4(addrs[..k]).Some?
    ensures FirstV4(addrs) == FirstV4(addrs[..k])
  {
    if k < |addrs| {
      FirstV4Prefix(addrs[..|addrs| - 1], k);
      assert addrs[..|addrs| - 1][..k] == addrs[..k];
    } else {
      assert addrs[..k] == addrs;
    }
  }

  method PublicLoop(addrs: seq<Addr>) returns (public: seq<Addr>)
    ensures public == Public(addrs)
  {
    public := [];
    for i := 0 to |addrs|
      invariant public == Public(addrs[..i])
    {
      assert addrs[..i + 1][..i] == addrs[..i];
      var private := CheckPrivate(addrs[i]);
      if !private {
        public := public + [addrs[i]];
      }
    }
    assert addrs[..|addrs|] == addrs;
  }

  method FamilyLoop(f: Family, addrs: seq<Addr>) returns (out: seq<Addr>)
    ensures out == Keep(addrs, InFamily(f))
  {
    out := [];
    for i := 0 to |addrs|
      invariant out == Keep(addrs[..i], InFamily(f))
    {
      assert addrs[..i + 1][..i] == addrs[..i];
      if FamilyMatches(f, addrs[i]) {
        out := out + [addrs[i]];
      }
    }
    assert addrs[..|addrs|] == addrs;
  }

  method CandidatesLoop(d: Rules.Decision, res: Cache.Resolution, f: Family) returns (plan: Plan)
    ensures plan == Candidates(d, res, f)
  {
    if !res.Addresses? {
      return Refuse(ResolveError, d.route);
    }
    var addrs, reason := res.addrs, d.reason;
    if d.route.Tunnel? {
      var public := PublicLoop(addrs);
      if |public| > 0 {
        var ordered := HeadFirstLoop(public);
        return Dial(ordered, Rules.Tunnel, reason);
      }
      var reachable := DropHostLocalLoop(addrs);
      if !res.localDirect || |reachable| == 0 {
        return Refuse(OnlyPrivate, Rules.Tunnel);
      }
      addrs, reason := reachable, LOCAL_PRIVATE;
    }
    var out := FamilyLoop(f, addrs);
    if |out| == 0 {
      return Refuse(NoFamily, Rules.Direct);
    }
    return Dial(out, Rules.Direct, reason);
  }

  method HeadFirstLoop(public: seq<Addr>) returns (out: seq<Addr>)
    requires public != []
    ensures out == HeadFirst(public)
  {
    var head := PickTunnelLoop(public);
    var rest := [];
    for i := 0 to |public|
      invariant rest == Keep(public[..i], Differs(PickTunnel(public)))
    {
      assert public[..i + 1][..i] == public[..i];
      if public[i] != head {
        rest := rest + [public[i]];
      }
    }
    assert public[..|public|] == public;
    out := [head] + rest;
  }

  /** How a dial down the list ended. */
  datatype Opened = Connected(addr: Addr) | AllFailed(firstErr: string, attempts: nat)

  /** Open's dial loop; outcomes[i] is the error of the dial to addrs[i], None a connection. The first
      address that connects is the one used, and a total failure reports the first dial's error. */
  method DialInOrder(addrs: seq<Addr>, outcomes: seq<Option<string>>) returns (o: Opened)
    requires addrs != [] && |outcomes| == |addrs|
    ensures o.Connected? <==> exists i | 0 <= i < |outcomes| :: outcomes[i].None?
    ensures o.Connected? ==> exists i :: 0 <= i < |addrs| && o.addr == addrs[i] && outcomes[i].None?
                                         && forall j | 0 <= j < i :: outcomes[j].Some?
    ensures o.AllFailed? ==> outcomes[0] == Some(o.firstErr) && o.attempts == |addrs|
  {
    var firstErr: Option<string> := None;
    for i := 0 to |addrs|
      invariant forall j | 0 <= j < i :: outcomes[j].Some?
      invariant firstErr == if i == 0 then None else outcomes[0]
    {
      if outcomes[i].None? {
        return Connected(addrs[i]);
      }
      if firstErr.None? {
        firstErr := outcomes[i];
      }
    }
    return AllFailed(firstErr.value, |addrs|);
  }

  // ---------------------------------------------------------------- what the plan means

  lemma {:induction false} KeepMembers(addrs: seq<Addr>, p: Addr -> bool, a: Addr)
    ensures a in Keep(addrs, p) <==> a in addrs && p(a)
    ensures p(a) ==> multiset(Keep(addrs, p))[a] == multiset(addrs)[a]
  {
    if addrs != [] {
      var before, last := addrs[..|addrs| - 1], addrs[|addrs| - 1];
      assert addrs == before + [last];
      KeepMembers(before, p, a);
    }
  }

  /** Keeping some addresses never reorders them: they stand at increasing places of the list. */
  lemma {:induction false} KeepInOrder(addrs: seq<Addr>, p: Addr -> bool) returns (places: seq<nat>)
    ensures |places| == |Keep(addrs, p)|
    ensures forall i | 0 <= i < |places| :: places[i] < |addrs| && Keep(addrs, p)[i] == addrs[places[i]]
    ensures forall i, j | 0 <= i < j < |places| :: places[i] < places[j]
  {
    if addrs == [] {
      places := [];
    } else {
      places := KeepInOrder(addrs[..|addrs| - 1], p);
      if p(addrs[|addrs| - 1]) {
        places := places + [|addrs| - 1];
      }
    }
  }

  /** The order of a tunnel dial: the same addresses, the first IPv4 one in front if there is one, once,
      and the others as often as they were named. */
  lemma HeadFirstOrder(addrs: seq<Addr>)
    requires addrs != []
    ensures var out := HeadFirst(addrs);
            && (forall a :: a in out <==> a in addrs)
            && (out[0].V4? ==> exists i | 0 <= i < |addrs| :: addrs[i] == out[0] && forall j | 0 <= j < i :: !addrs[j].V4?)
            && (!out[0].V4? ==> out[0] == addrs[0] && forall a | a in addrs :: !a.V4?)
            && (forall a | a != out[0] :: multiset(out)[a] == multiset(addrs)[a])
            && multiset(out)[out[0]] == 1
  {
    var head := PickTunnel(addrs);
    var rest := Keep(addrs, Differs(head));
    assert HeadFirst(addrs) == [head] + rest;
    forall a: Addr
      ensures a in [head] + rest <==> a in addrs
      ensures a != head ==> multiset([head] + rest)[a] == multiset(addrs)[a]
    {
      KeepMembers(addrs, Differs(head), a);
    }
    KeepMembers(addrs, Differs(head), head);
  }

  lemma {:induction false} KeepEmpty(addrs: seq<Addr>, p: Addr -> bool)
    ensures Keep(addrs, p) == [] <==> forall a | a in addrs :: !p(a)
  {
    if addrs != [] {
      var before, last := addrs[..|addrs| - 1], addrs[|addrs| - 1];
      assert addrs == before + [last];
      KeepEmpty(before, p);
    }
  }

  /** A connection goes through the tunnel exactly when the decision says so and some answer is public; then
      exactly the public answers are dialed, in the order of HeadFirstOrder. */
  lemma TunnelDialsPublicOnly(d: Rules.Decision, res: Cache.Resolution, f: Family)
    ensures var p := Candidates(d, res, f);
            && (p.Dial? && p.route.Tunnel? <==>
                  d.route.Tunnel? && res.Addresses? && exists a :: a in res.addrs && !IsPrivate(a))
            && (p.Dial? && p.route.Tunnel? ==>
                  && Public(res.addrs) != [] && p.addrs == HeadFirst(Public(res.addrs)) && p.reason == d.reason
                  && (forall a :: a in p.addrs <==> a in res.addrs && !IsPrivate(a))
                  && (forall a | a in p.addrs :: !InSiteRange(Plain(a)) && !InHostRange(Plain(a))))
  {
    if res.Addresses? {
      KeepEmpty(res.addrs, IsPublic);
    }
    var p := Candidates(d, res, f);
    if p.Dial? && p.route.Tunnel? {
      HeadFirstOrder(Public(res.addrs));
      forall a: Addr
        ensures a in Public(res.addrs) <==> a in res.addrs && !IsPrivate(a)
        ensures IsPrivate(a) <==> InSiteRange(Plain(a)) || InHostRange(Plain(a))
      {
        KeepMembers(res.addrs, IsPublic, a);
        PrivateIsSiteOrHost(a);
      }
    }
  }

  /** A destination decided direct is dialed at every answer of the family, private or not, in the resolver's
      order, and refused only without one. */
  lemma DirectDialsFamily(d: Rules.Decision, res: Cache.Resolution, f: Family) returns (places: seq<nat>)
    requires d.route.Direct? && res.Addresses?
    ensures var p := Candidates(d, res, f);
            && (p.Dial? <==> exists a :: a in res.addrs && FamilyMatches(f, a))
            && (p.Dial? ==>
                  && p.route.Direct? && p.reason == d.reason && |places| == |p.addrs|
                  && (forall a :: a in p.addrs <==> a in res.addrs && FamilyMatches(f, a))
                  && (forall i | 0 <= i < |places| :: places[i] < |res.addrs| && p.addrs[i] == res.addrs[places[i]])
                  && (forall i, j | 0 <= i < j < |places| :: places[i] < places[j]))
  {
    KeepEmpty(res.addrs, InFamily(f));
    places := KeepInOrder(res.addrs, InFamily(f));
    forall a: Addr
      ensures a in Keep(res.addrs, InFamily(f)) <==> a in res.addrs && FamilyMatches(f, a)
    {
      KeepMembers(res.addrs, InFamily(f), a);
    }
  }

  /** A site address of this family among the answers. */
  ghost predicate SiteAnswer(f: Family, addrs: seq<Addr>) {
    exists i | 0 <= i < |addrs| :: InSiteRange(Plain(addrs[i])) && FamilyMatches(f, Plain(addrs[i]))
  }

  /** The local-private exception, exactly: a tunnel destination whose answers are all private, from a
      local answer that may go direct, with a site address of the family among them; and every address
      dialed for it is a site address. */
  lemma LocalPrivateIff(d: Rules.Decision, res: Cache.Resolution, f: Family)
    requires d.reason != LOCAL_PRIVATE
    ensures var p := Candidates(d, res, f);
            && (p.Dial? && p.reason == LOCAL_PRIVATE <==>
                  && d.route.Tunnel? && res.Addresses? && res.localDirect
                  && (forall a | a in res.addrs :: IsPrivate(a)) && SiteAnswer(f, res.addrs))
            && (p.Dial? && p.reason == LOCAL_PRIVATE ==>
                  p.route.Direct? && forall a | a in p.addrs :: InSiteRange(a) && FamilyMatches(f, a))
  {
    if d.route.Tunnel? && res.Addresses? {
      KeepEmpty(res.addrs, IsPublic);
      if Public(res.addrs) == [] {
        var site := DropHostLocal(res.addrs);
        KeepEmpty(site, InFamily(f));
        forall x: Addr
          ensures x in site <==> InSiteRange(x) && exists i | 0 <= i < |res.addrs| :: Plain(res.addrs[i]) == x
          ensures x in Keep(site, InFamily(f)) <==> x in site && FamilyMatches(f, x)
        {
          SiteCandidates(res.addrs, x);
          KeepMembers(site, InFamily(f), x);
        }
      }
    }
  }

  /** What the exception dials: all site addresses of the family among the answers, in the resolver's order. */
  lemma LocalPrivateDials(d: Rules.Decision, res: Cache.Resolution, f: Family) returns (places: seq<nat>)
    requires d.reason != LOCAL_PRIVATE
    requires Candidates(d, res, f).Dial? && Candidates(d, res, f).reason == LOCAL_PRIVATE
    ensures var p := Candidates(d, res, f);
            && res.Addresses? && |places| == |p.addrs|
            && (forall x :: x in p.addrs <==>
                  InSiteRange(x) && FamilyMatches(f, x) && exists i | 0 <= i < |res.addrs| :: Plain(res.addrs[i]) == x)
            && (forall i | 0 <= i < |places| :: places[i] < |res.addrs| && p.addrs[i] == Plain(res.addrs[places[i]]))
            && (forall i, j | 0 <= i < j < |places| :: places[i] < places[j])
  {
    LocalPrivateIff(d, res, f);
    KeepEmpty(res.addrs, IsPublic);
    var site := DropHostLocal(res.addrs);
    forall x: Addr
      ensures x in Keep(site, InFamily(f)) <==>
                InSiteRange(x) && FamilyMatches(f, x) && exists i | 0 <= i < |res.addrs| :: Plain(res.addrs[i]) == x
    {
      SiteCandidates(res.addrs, x);
      KeepMembers(site, InFamily(f), x);
    }
    var inSite := KeepInOrder(site, InFamily(f));
    var inAnswer := DropHostLocalInOrder(res.addrs);
    places := Through(inAnswer, inSite);
  }

  /** Places of places. */
  lemma {:induction false} Through(outer: seq<nat>, inner: seq<nat>) returns (places: seq<nat>)
    requires forall i | 0 <= i < |inner| :: inner[i] < |outer|
    requires forall i, j | 0 <= i < j < |inner| :: inner[i] < inner[j]
    requires forall i, j | 0 <= i < j < |outer| :: outer[i] < outer[j]
    ensures |places| == |inner| && forall i | 0 <= i < |inner| :: places[i] == outer[inner[i]]
    ensures forall i, j | 0 <= i < j < |places| :: places[i] < places[j]
  {
    if inner == [] {
      places := [];
    } else {
      var before := Through(outer, inner[..|inner| - 1]);
      places := before + [outer[inner[|inner| - 1]]];
    }
  }

  /** Families by the plain address: an IPv4-mapped address is an IPv4 one. */
  lemma FamilyMeans(a: Addr)
    ensures FamilyMatches(Both, a)
    ensures FamilyMatches(OnlyV4, a) <==> Plain(a).V4?
    ensures FamilyMatches(OnlyV6, a) <==> Plain(a).V6?
    ensures a.V4? ==> Plain(a) == a
  {
  }

  /** Every refusal and its reason: no resolution; only private answers that may not go direct, or none of them a
      site address; no address of the family. */
  lemma RefusedBecause(d: Rules.Decision, res: Cache.Resolution, f: Family)
    ensures var p := Candidates(d, res, f);
            && (p.Refuse? && p.why.ResolveError? <==> !res.Addresses?)
            && (p.Refuse? ==> p.route == if p.why.NoFamily? then Rules.Direct else d.route)
            && (p.Refuse? && p.why.OnlyPrivate? <==>
                  && d.route.Tunnel? && res.Addresses? && (forall a | a in res.addrs :: IsPrivate(a))
                  && !(res.localDirect && SiteAnswer(Both, res.addrs)))
            && (p.Refuse? && p.why.NoFamily? <==>
                  && res.Addresses?
                  && (d.route.Direct? ==> forall a | a in res.addrs :: !FamilyMatches(f, a))
                  && (d.route.Tunnel? ==>
                        && res.localDirect && (forall a | a in res.addrs :: IsPrivate(a))
                        && SiteAnswer(Both, res.addrs) && !SiteAnswer(f, res.addrs)))
  {
    if res.Addresses? {
      KeepEmpty(res.addrs, IsPublic);
      KeepEmpty(res.addrs, InFamily(f));
      var site := DropHostLocal(res.addrs);
      KeepEmpty(site, InFamily(f));
      if Public(res.addrs) == [] {
        forall x: Addr
          ensures x in site <==> InSiteRange(x) && exists i | 0 <= i < |res.addrs| :: Plain(res.addrs[i]) == x
        {
          SiteCandidates(res.addrs, x);
        }
        assert site != [] ==> site[0] in site && FamilyMatches(Both, site[0]);
        SiteAnswerIff(Both, res.addrs, site);
        SiteAnswerIff(f, res.addrs, site);
      }
    }
  }

  lemma SiteAnswerIff(f: Family, addrs: seq<Addr>, site: seq<Addr>)
    requires forall x: Addr :: x in site <==> InSiteRange(x) && exists i | 0 <= i < |addrs| :: Plain(addrs[i]) == x
    ensures SiteAnswer(f, addrs) <==> exists x :: x in site && FamilyMatches(f, x)
  {
    if SiteAnswer(f, addrs) {
      var i :| 0 <= i < |addrs| && InSiteRange(Plain(addrs[i])) && FamilyMatches(f, Plain(addrs[i]));
      assert Plain(addrs[i]) in site;
    }
  }

  lemma {:induction false} DecideReasons(lib: Rules.Library, rules: seq<Rules.Rule>, host: string, answer: Option<seq<Addr>>)
    ensures var d := Rules.FirstMatch(lib, rules, host, answer);
            d.reason == "fallback" || (|d.reason| >= 7 && d.reason[..7] == "direct:")
  {
    if rules != [] {
      DecideReasons(lib, rules[1..], host, answer);
      assert ("direct:" + rules[0].raw)[..7] == "direct:";
    }
  }

  /** No decision uses the reason of the exception. */
  lemma ReasonsDiffer(lib: Rules.Library, rules: seq<Rules.Rule>, host: string, answer: Option<seq<Addr>>)
    ensures Rules.Decide(lib, rules, host, answer).reason != LOCAL_PRIVATE
  {
    DecideReasons(lib, rules, Rules.Normalize(host), answer);
    assert LOCAL_PRIVATE[..7] != "direct:" by {
      assert LOCAL_PRIVATE[..7][0] == 'l';
    }
  }
}
