/** The rule engine (rules.go: NewRuleEngine, Decide, matches, normalizeHost). Regular expressions and
    the parsing of IP literals are parameters: nothing depends on what they accept. */
module Rules {
  import opened Basics
  import opened Addresses

  datatype Route = Direct | Tunnel

  datatype Rule =
    | IpRule(raw: string, prefix: Prefix)
    | RegexRule(raw: string)
    | DomainRule(raw: string, domain: string)

  /** The two library calls that rules rest on. */
  datatype Library = Library(parseAddr: string -> Option<Addr>, regexMatches: (string, string) -> bool)

  // ---------------------------------------------------------------- host names

  function LowerChar(c: char): char {
    if 'A' <= c <= 'Z' then c - 'A' + 'a' else c
  }

  function Lower(s: string): (r: string)
    ensures |r| == |s|
    ensures forall i | 0 <= i < |s| :: r[i] == LowerChar(s[i])
  {
    if s == [] then [] else Lower(s[..|s| - 1]) + [LowerChar(s[|s| - 1])]
  }

  predicate EndsWith(s: string, suffix: string) {
    |suffix| <= |s| && s[|s| - |suffix|..] == suffix
  }

  predicate TrailingDot(s: string) {
    s != [] && s[|s| - 1] == '.'
  }

  /** normalizeHost: lower case, one trailing dot removed. */
  function Normalize(host: string): string {
    var l := Lower(host);
    if TrailingDot(l) then l[..|l| - 1] else l
  }

  lemma {:induction false} LowerTwice(s: string)
    ensures Lower(Lower(s)) == Lower(s)
  {
    forall i | 0 <= i < |s|
      ensures Lower(Lower(s))[i] == Lower(s)[i]
    {
      assert LowerChar(LowerChar(s[i])) == LowerChar(s[i]);
    }
  }

  /** Decide normalises the host, and the lookup of an ip: rule normalises it again. The second time
      changes nothing exactly when the name does not end in two dots; only then do the rule and the dial
      share one cache entry. */
  lemma NormalizeTwiceIff(host: string)
    ensures Normalize(Normalize(host)) == Normalize(host)
            <==> !(TrailingDot(host) && TrailingDot(host[..|host| - 1]))
  {
    var once := Normalize(host);
    if TrailingDot(host) {
      assert once == Lower(host[..|host| - 1]);
      LowerTwice(host[..|host| - 1]);
    } else {
      assert once == Lower(host);
      LowerTwice(host);
    }
  }

  /** What normalising does, letter by letter: capital ASCII letters become small, one dot at the end goes. */
  lemma NormalizeSpells(host: string)
    ensures |Normalize(host)| == |host| - (if host != "" && host[|host| - 1] == '.' then 1 else 0)
    ensures forall i | 0 <= i < |Normalize(host)| ::
              Normalize(host)[i] as int == host[i] as int + if 65 <= host[i] as int <= 90 then 32 else 0
  {
    if host != "" {
      assert Lower(host)[|host| - 1] == '.' <==> host[|host| - 1] == '.';
    }
  }

  // ---------------------------------------------------------------- matching

  predicate IsIp(r: Rule) {
    r.IpRule?
  }

  /** A rule against a normalised host; `answer` is what the tunnel policy resolves the host to. */
  predicate Matches(lib: Library, r: Rule, host: string, answer: Option<seq<Addr>>) {
    match r
    case IpRule(_, prefix) => answer.Some? && exists i | 0 <= i < |answer.value| :: Contains(prefix, answer.value[i])
    case RegexRule(raw) => lib.regexMatches(raw, host)
    case DomainRule(_, domain) => domain != "" && (host == domain || EndsWith(host, "." + domain))
  }

  /** A domain rule matches the domain and everything below it, label by label; an ip: rule an address of the
      answer in its range; and a name that did not resolve matches no ip: rule. */
  lemma MatchesMeans(lib: Library, r: Rule, host: string, answer: Option<seq<Addr>>)
    ensures r.DomainRule? ==>
              (Matches(lib, r, host, answer) <==> r.domain != "" && (host == r.domain || exists sub :: host == sub + "." + r.domain))
    ensures r.IpRule? ==>
              (Matches(lib, r, host, answer) <==> answer.Some? && exists a :: a in answer.value && Contains(r.prefix, a))
    ensures r.RegexRule? ==> (Matches(lib, r, host, answer) <==> lib.regexMatches(r.raw, host))
  {
    match r
    case DomainRule(_, domain) =>
      if EndsWith(host, "." + domain) {
        assert host == host[..|host| - |domain| - 1] + "." + domain;
      }
      forall sub | host == sub + "." + domain
        ensures EndsWith(host, "." + domain)
      {
        assert host == sub + ("." + domain);
      }
    case IpRule(_, prefix) =>
    case RegexRule(_) =>
  }

  /** The reason of a decision and whether it took a lookup. */
  datatype Decision = Decision(route: Route, reason: string, lookedUp: bool)

  /** The rules in order: the first match sends the host direct; an ip: rule on the way costs a lookup. */
  function FirstMatch(lib: Library, rules: seq<Rule>, host: string, answer: Option<seq<Addr>>): Decision {
    if rules == [] then Decision(Tunnel, "fallback", false)
    else if Matches(lib, rules[0], host, answer) then Decision(Direct, "direct:" + rules[0].raw, IsIp(rules[0]))
    else
      var rest := FirstMatch(lib, rules[1..], host, answer);
      rest.(lookedUp := IsIp(rules[0]) || rest.lookedUp)
  }

  function Decide(lib: Library, rules: seq<Rule>, host: string, answer: Option<seq<Addr>>): Decision {
    var name := Normalize(host);
    var literal := lib.parseAddr(name);
    if literal.Some? && IsPrivate(literal.value) then Decision(Direct, "private", false)
    else FirstMatch(lib, rules, name, answer)
  }

  method DecideLoop(lib: Library, rules: seq<Rule>, host: string, answer: Option<seq<Addr>>) returns (d: Decision)
    ensures d == Decide(lib, rules, host, answer)
  {
    var name := Normalize(host);
    var literal := lib.parseAddr(name);
    if literal.Some? {
      var private := CheckPrivate(literal.value);
      if private {
        return Decision(Direct, "private", false);
      }
    }
    var lookedUp := false;
    for i := 0 to |rules|
      invariant var rest := FirstMatch(lib, rules[i..], name, answer);
                FirstMatch(lib, rules, name, answer) == rest.(lookedUp := lookedUp || rest.lookedUp)
    {
      assert rules[i..][1..] == rules[i + 1..];
      if IsIp(rules[i]) {
        lookedUp := true;
      }
      var matched := MatchesLoop(lib, rules[i], name, answer);
      if matched {
        return Decision(Direct, "direct:" + rules[i].raw, lookedUp);
      }
    }
    return Decision(Tunnel, "fallback", lookedUp);
  }

  method MatchesLoop(lib: Library, r: Rule, host: string, answer: Option<seq<Addr>>) returns (m: bool)
    ensures m == Matches(lib, r, host, answer)
  {
    match r
    case IpRule(_, prefix) =>
      if answer.None? {
        return false;
      }
      for i := 0 to |answer.value|
        invariant forall j | 0 <= j < i :: !Contains(prefix, answer.value[j])
      {
        if Contains(prefix, answer.value[i]) {
          return true;
        }
      }
      return false;
    case RegexRule(raw) =>
      return lib.regexMatches(raw, host);
    case DomainRule(_, domain) =>
      return domain != "" && (host == domain || EndsWith(host, "." + domain));
  }

  // ---------------------------------------------------------------- the ip: rules go last

  function Filter(rules: seq<Rule>, ip: bool): seq<Rule> {
    if rules == [] then []
    else if IsIp(rules[0]) == ip then [rules[0]] + Filter(rules[1..], ip)
    else Filter(rules[1..], ip)
  }

  /** The order NewRuleEngine gives the rules of the configuration. */
  function Arranged(rules: seq<Rule>): seq<Rule> {
    Filter(rules, false) + Filter(rules, true)
  }

  lemma {:induction false} FilterSnoc(rules: seq<Rule>, r: Rule, ip: bool)
    ensures Filter(rules + [r], ip) == if IsIp(r) == ip then Filter(rules, ip) + [r] else Filter(rules, ip)
  {
    if rules != [] {
      assert (rules + [r])[1..] == rules[1..] + [r];
      FilterSnoc(rules[1..], r, ip);
    }
  }

  method Arrange(rules: seq<Rule>) returns (arranged: seq<Rule>)
    ensures arranged == Arranged(rules)
  {
    var ipRules: seq<Rule> := [];
    arranged := [];
    for i := 0 to |rules|
      invariant arranged == Filter(rules[..i], false) && ipRules == Filter(rules[..i], true)
    {
      assert rules[..i + 1] == rules[..i] + [rules[i]];
      FilterSnoc(rules[..i], rules[i], false);
      FilterSnoc(rules[..i], rules[i], true);
      if IsIp(rules[i]) {
        ipRules := ipRules + [rules[i]];
      } else {
        arranged := arranged + [rules[i]];
      }
    }
    assert rules[..|rules|] == rules;
    arranged := arranged + ipRules;
  }

  /** Nothing is lost or added, no ip: rule comes before another kind, and two rules of one kind keep
      the order in which their lists have them. */
  lemma {:induction false} ArrangedIsStablePartition(rules: seq<Rule>)
    ensures multiset(Arranged(rules)) == multiset(rules)
    ensures forall i, j | 0 <= i < j < |Arranged(rules)| && IsIp(Arranged(rules)[i]) :: IsIp(Arranged(rules)[j])
    ensures forall ip :: Filter(Arranged(rules), ip) == Filter(rules, ip)
  {
    FilterMultiset(rules);
    FilterKind(rules, false);
    FilterKind(rules, true);
    forall ip
      ensures Filter(Arranged(rules), ip) == Filter(rules, ip)
    {
      FilterConcat(Filter(rules, false), Filter(rules, true), ip);
      FilterFixed(Filter(rules, ip), ip);
      FilterNone(Filter(rules, !ip), ip);
    }
  }

  lemma {:induction false} FilterMultiset(rules: seq<Rule>)
    ensures multiset(Filter(rules, false)) + multiset(Filter(rules, true)) == multiset(rules)
  {
    if rules != [] {
      FilterMultiset(rules[1..]);
      assert rules == [rules[0]] + rules[1..];
    }
  }

  lemma {:induction false} FilterKind(rules: seq<Rule>, ip: bool)
    ensures forall r | r in Filter(rules, ip) :: IsIp(r) == ip
  {
    if rules != [] {
      FilterKind(rules[1..], ip);
    }
  }

  lemma {:induction false} FilterConcat(a: seq<Rule>, b: seq<Rule>, ip: bool)
    ensures Filter(a + b, ip) == Filter(a, ip) + Filter(b, ip)
  {
    if a == [] {
      assert a + b == b;
    } else {
      assert (a + b)[1..] == a[1..] + b;
      FilterConcat(a[1..], b, ip);
    }
  }

  lemma {:induction false} FilterFixed(rules: seq<Rule>, ip: bool)
    requires forall r | r in rules :: IsIp(r) == ip
    ensures Filter(rules, ip) == rules
  {
    if rules != [] {
      FilterFixed(rules[1..], ip);
      assert rules == [rules[0]] + rules[1..];
    }
  }

  lemma {:induction false} FilterNone(rules: seq<Rule>, ip: bool)
    requires forall r | r in rules :: IsIp(r) != ip
    ensures Filter(rules, ip) == []
  {
    if rules != [] {
      FilterNone(rules[1..], ip);
    }
  }

  /** The route is direct exactly when some rule matches, in any order of the rules. */
  lemma {:induction false} RouteIsAnyMatch(lib: Library, rules: seq<Rule>, host: string, answer: Option<seq<Addr>>)
    ensures FirstMatch(lib, rules, host, answer).route == Direct
            <==> exists r :: r in rules && Matches(lib, r, host, answer)
  {
    if rules != [] {
      RouteIsAnyMatch(lib, rules[1..], host, answer);
      assert rules == [rules[0]] + rules[1..];
    }
  }

  /** A match among the rules that need no lookup decides without one, whatever comes after them. */
  lemma {:induction false} NoLookupBeforeIpRules(lib: Library, plain: seq<Rule>, rest: seq<Rule>, host: string, answer: Option<seq<Addr>>)
    requires forall r | r in plain :: !IsIp(r)
    requires exists r :: r in plain && Matches(lib, r, host, answer)
    ensures !FirstMatch(lib, plain + rest, host, answer).lookedUp
    ensures FirstMatch(lib, plain + rest, host, answer).route == Direct
  {
    assert plain == [plain[0]] + plain[1..];
    assert (plain + rest)[1..] == plain[1..] + rest;
    if !Matches(lib, plain[0], host, answer) {
      NoLookupBeforeIpRules(lib, plain[1..], rest, host, answer);
    }
  }

  lemma {:induction false} FilterMember(rules: seq<Rule>, r: Rule)
    ensures r in rules <==> r in Filter(rules, IsIp(r))
  {
    if rules != [] {
      FilterMember(rules[1..], r);
      assert rules == [rules[0]] + rules[1..];
    }
  }

  /** Arranging the rules never changes the route, for any fixed resolver answer; and if some domain or
      regex rule matches, the decision takes no lookup whatever the configured order was. */
  lemma ArrangedKeepsRoute(lib: Library, rules: seq<Rule>, host: string, answer: Option<seq<Addr>>)
    ensures Decide(lib, Arranged(rules), host, answer).route == Decide(lib, rules, host, answer).route
    ensures (exists r :: r in rules && !IsIp(r) && Matches(lib, r, Normalize(host), answer))
            ==> !Decide(lib, Arranged(rules), host, answer).lookedUp
  {
    var name := Normalize(host);
    RouteIsAnyMatch(lib, rules, name, answer);
    RouteIsAnyMatch(lib, Arranged(rules), name, answer);
    SameMembers(rules);
    if exists r :: r in rules && !IsIp(r) && Matches(lib, r, name, answer) {
      var r :| r in rules && !IsIp(r) && Matches(lib, r, name, answer);
      FilterMember(rules, r);
      FilterKind(rules, false);
      NoLookupBeforeIpRules(lib, Filter(rules, false), Filter(rules, true), name, answer);
    }
  }

  lemma SameMembers(rules: seq<Rule>)
    ensures forall r :: r in rules <==> r in Arranged(rules)
  {
    forall r: Rule
      ensures r in rules <==> r in Arranged(rules)
    {
      FilterMember(rules, r);
      FilterKind(rules, !IsIp(r));
    }
  }

  // ---------------------------------------------------------------- the decision as a whole

  /** Rule i is the first that matches. */
  ghost predicate FirstAt(lib: Library, rules: seq<Rule>, i: nat, host: string, answer: Option<seq<Addr>>) {
    && i < |rules| && Matches(lib, rules[i], host, answer)
    && forall j | 0 <= j < i :: !Matches(lib, rules[j], host, answer)
  }

  lemma {:induction false} FirstMatchIsFirst(lib: Library, rules: seq<Rule>, host: string, answer: Option<seq<Addr>>) returns (i: nat)
    ensures var d := FirstMatch(lib, rules, host, answer);
            && (d.route.Direct? ==>
                  && FirstAt(lib, rules, i, host, answer) && d.reason == "direct:" + rules[i].raw
                  && (d.lookedUp <==> exists j :: 0 <= j <= i && IsIp(rules[j])))
            && (d.route.Tunnel? ==>
                  && (forall j | 0 <= j < |rules| :: !Matches(lib, rules[j], host, answer)) && d.reason == "fallback"
                  && (d.lookedUp <==> exists j :: 0 <= j < |rules| && IsIp(rules[j])))
  {
    i := 0;
    if rules != [] && !Matches(lib, rules[0], host, answer) {
      var rest := rules[1..];
      assert forall j | 0 <= j < |rest| :: rest[j] == rules[j + 1];
      assert forall j | 1 <= j < |rules| :: rules[j] == rest[j - 1];
      var k := FirstMatchIsFirst(lib, rest, host, answer);
      i := k + 1;
    }
  }

  /** The address that the host spells is in a local range. */
  ghost predicate IsPrivateLiteral(lib: Library, host: string) {
    var literal := lib.parseAddr(Normalize(host));
    literal.Some? && (InSiteRange(Plain(literal.value)) || InHostRange(Plain(literal.value)))
  }

  /** Every decision: an IP literal in a local range is direct without rules and lookups; anything else is direct
      by the first rule that matches and goes to the tunnel without one, after a lookup exactly if an ip: rule
      was come to. */
  lemma DecidedBy(lib: Library, rules: seq<Rule>, host: string, answer: Option<seq<Addr>>) returns (i: nat)
    ensures IsPrivateLiteral(lib, host) ==> Decide(lib, rules, host, answer) == Decision(Direct, "private", false)
    ensures !IsPrivateLiteral(lib, host) ==>
              var d := Decide(lib, rules, host, answer);
              && (d.route.Direct? <==> exists r :: r in rules && Matches(lib, r, Normalize(host), answer))
              && (d.route.Direct? ==>
                    && FirstAt(lib, rules, i, Normalize(host), answer) && d.reason == "direct:" + rules[i].raw
                    && (d.lookedUp <==> exists j :: 0 <= j <= i && IsIp(rules[j])))
              && (d.route.Tunnel? ==> d.reason == "fallback" && (d.lookedUp <==> exists j :: 0 <= j < |rules| && IsIp(rules[j])))
  {
    var literal := lib.parseAddr(Normalize(host));
    if literal.Some? {
      PrivateIsSiteOrHost(literal.value);
    }
    i := FirstMatchIsFirst(lib, rules, Normalize(host), answer);
    RouteIsAnyMatch(lib, rules, Normalize(host), answer);
  }
}
