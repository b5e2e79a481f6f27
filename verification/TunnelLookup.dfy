/** One tunnel lookup from start to end (dns.go: lookup and releaseProbes): the loops over the
    resolver objects, the split of the tunnel step's time among them, and the proof that what the
    loops do is a run of the state machine of module LookupRuns. */
module TunnelLookup {
  import opened Basics
  import opened Addresses
  import opened Resolvers
  import opened LookupRuns

  const TUNNEL_LOOKUP_TIMEOUT: int := 3 * SECOND
  const LOOKUP_TIMEOUT: int := 5 * SECOND

  /** What a resolver would do with unlimited time: after `delay` it ends with `outcome`. A call that is
      cut off is a failure; it is about the server when no channel was `connected` by then. */
  datatype Reply = Reply(delay: nat, outcome: Outcome, connected: bool)
  datatype Outcome = Addrs(addrs: seq<Addr>) | Missing | Broken

  datatype Verdict = Got(addrs: seq<Addr>) | NotThere | Failure(unreachable: bool)

  /** How the tunnel step ended. */
  datatype Result = Resolved(addrs: seq<Addr>) | Absent | Nobody

  // ---------------------------------------------------------------- the time split

  /** The share of the next resolver when `left` of them have not been asked yet. */
  function Slice(elapsed: nat, left: nat): (r: nat)
    requires elapsed <= TUNNEL_LOOKUP_TIMEOUT && 0 < left
  {
    (TUNNEL_LOOKUP_TIMEOUT - elapsed) / left
  }

  function Min(a: nat, b: nat): nat {
    if a < b then a else b
  }

  /** The time that the first k resolvers of a walk take. */
  function Elapsed(rs: seq<Reply>, k: nat): (t: nat)
    requires k <= |rs|
    ensures t <= TUNNEL_LOOKUP_TIMEOUT
  {
    if k == 0 then 0
    else
      var before := Elapsed(rs, k - 1);
      ShareFits(TUNNEL_LOOKUP_TIMEOUT - before, |rs| - (k - 1));
      before + Min(rs[k - 1].delay, Slice(before, |rs| - (k - 1)))
  }

  function SliceAt(rs: seq<Reply>, k: nat): nat
    requires k < |rs|
  {
    Slice(Elapsed(rs, k), |rs| - k)
  }

  lemma ShareFits(remaining: nat, left: nat)
    requires 0 < left
    ensures remaining / left <= remaining
    ensures left * (remaining / left) <= remaining
  {
    var q := remaining / left;
    assert remaining == left * q + remaining % left;
    MulMonotone(1, left, q);
  }

  /** a <= x / b follows from a * b <= x. */
  lemma AtMostQuotient(a: nat, b: nat, x: nat)
    requires 0 < b && a * b <= x
    ensures a <= x / b
  {
    var q := x / b;
    assert x == b * q + x % b;
    assert x < b * (q + 1);
    if q + 1 <= a {
      MulMonotone(q + 1, a, b);
      assert false;
    }
  }

  /** A resolver that keeps to its share leaves each of the others at least as much. */
  lemma ShareNeverShrinks(remaining: nat, left: nat, used: nat)
    requires 1 < left && used <= remaining / left
    ensures used <= remaining && remaining / left <= (remaining - used) / (left - 1)
  {
    var q := remaining / left;
    ShareFits(remaining, left);
    assert q * (left - 1) == left * q - q;
    AtMostQuotient(q, left - 1, remaining - used);
  }

  /** Slices never shrink along a walk, so each is at least the equal share of the whole step. */
  lemma {:induction false} FairSplit(rs: seq<Reply>, j: nat, k: nat)
    requires j <= k < |rs|
    ensures SliceAt(rs, j) <= SliceAt(rs, k)
    ensures 3 * SECOND / |rs| <= SliceAt(rs, j)
    decreases k
  {
    if k > 0 {
      ShareNeverShrinks(TUNNEL_LOOKUP_TIMEOUT - Elapsed(rs, k - 1), |rs| - (k - 1), Elapsed(rs, k) - Elapsed(rs, k - 1));
      if j < k {
        FairSplit(rs, j, k - 1);
      } else {
        FairSplit(rs, 0, k - 1);
      }
    }
  }

  // ---------------------------------------------------------------- the walk

  /** What a resolver's reply comes to within its slice. */
  function Judge(reply: Reply, slice: nat): Verdict {
    if slice < reply.delay then Failure(!reply.connected)
    else
      match reply.outcome
      case Addrs(addrs) => Got(addrs)
      case Missing => NotThere
      case Broken => Failure(!reply.connected)
  }

  function VerdictAt(rs: seq<Reply>, k: nat): Verdict
    requires k < |rs|
  {
    Judge(rs[k], SliceAt(rs, k))
  }

  /** Resolver k is the first of the walk with a definitive answer. */
  ghost predicate Decides(rs: seq<Reply>, k: nat) {
    k < |rs| && !VerdictAt(rs, k).Failure? && forall j | 0 <= j < k :: VerdictAt(rs, j).Failure?
  }

  /** The first definitive answer is the result, and a walk has none exactly when every resolver failed. */
  ghost predicate Ends(rs: seq<Reply>, res: Result) {
    match res
    case Resolved(addrs) => exists k :: Decides(rs, k) && VerdictAt(rs, k) == Got(addrs)
    case Absent => exists k :: Decides(rs, k) && VerdictAt(rs, k).NotThere?
    case Nobody => forall k | 0 <= k < |rs| :: VerdictAt(rs, k).Failure?
  }

  lemma EndsUniquely(rs: seq<Reply>, res: Result, res': Result)
    requires Ends(rs, res) && Ends(rs, res')
    ensures res == res'
  {
    forall k, k' | Decides(rs, k) && Decides(rs, k')
      ensures k == k'
    {
    }
  }

  /** Resolver k fails: it breaks, or its slice ends before its reply. */
  predicate Fails(rs: seq<Reply>, k: nat)
    requires k < |rs|
  {
    rs[k].outcome.Broken? || SliceAt(rs, k) < rs[k].delay
  }

  /** The end of a walk by the replies alone: the first resolver that does not fail gives the result, and its
      not-found is one; nobody answered exactly when all fail. */
  lemma WalkResult(rs: seq<Reply>, res: Result)
    requires Ends(rs, res)
    ensures res.Nobody? <==> forall k | 0 <= k < |rs| :: Fails(rs, k)
    ensures forall k | 0 <= k < |rs| && !Fails(rs, k) && forall j | 0 <= j < k :: Fails(rs, j) ::
              res == if rs[k].outcome.Missing? then Absent else Resolved(rs[k].outcome.addrs)
  {
    assert forall k | 0 <= k < |rs| :: VerdictAt(rs, k).Failure? <==> Fails(rs, k);
    forall k | 0 <= k < |rs| && !Fails(rs, k) && forall j | 0 <= j < k :: Fails(rs, j)
      ensures res == if rs[k].outcome.Missing? then Absent else Resolved(rs[k].outcome.addrs)
    {
      assert Decides(rs, k);
      EndsUniquely(rs, res, if rs[k].outcome.Missing? then Absent else Resolved(rs[k].outcome.addrs));
    }
  }

  function Pick(replies: seq<Reply>, active: seq<nat>): seq<Reply>
    requires forall r | r in active :: r < |replies|
  {
    seq(|active|, i requires 0 <= i < |active| => assert active[i] in active; replies[active[i]])
  }

  // ---------------------------------------------------------------- the loops, event by event

  ghost predicate Distinct(tunnel: seq<Upstream>) {
    forall i, j | 0 <= i < j < |tunnel| :: tunnel[i] != tunnel[j]
  }

  /** The resolver objects hold what the state machine says. */
  ghost predicate Mirrors(tunnel: seq<Upstream>, s: State)
    reads tunnel
  {
    |tunnel| == |s.resolvers| && forall i | 0 <= i < |tunnel| :: tunnel[i].View() == s.resolvers[i]
  }

  /** A proof that names Met(0, s) sees inside Follows; elsewhere the verifier passes it on whole. */
  predicate Met(x: int, s: State) {
    true
  }

  /** Everything a lookup meets: the resolver objects hold what the state machine says after some run. */
  ghost predicate Follows(tunnel: seq<Upstream>, es: seq<Event>, s: State)
    reads tunnel
  {
    forall x {:trigger Met(x, s)} :: Met(x, s) ==> Distinct(tunnel) && Mirrors(tunnel, s) && Exec(|tunnel|, es) == Some(s)
  }

  lemma FollowsIs(tunnel: seq<Upstream>, es: seq<Event>, s: State)
    ensures Follows(tunnel, es, s) <==> Distinct(tunnel) && Mirrors(tunnel, s) && Exec(|tunnel|, es) == Some(s)
  {
    assert Met(0, s);
  }

  /** Lookup id is at l. */
  predicate IsAt(s: State, id: nat, l: Lookup) {
    id in s.lookups && s.lookups[id] == l
  }

  lemma Took(n: nat, es: seq<Event>, s: State, e: Event)
    requires Exec(n, es) == Some(s) && Enabled(s, e)
    ensures Exec(n, es + [e]) == Some(Next(s, e)) && es <= es + [e]
  {
    assert (es + [e])[..|es|] == es;
  }

  /** One mutex section of any lookup, on the objects. */
  method Perform(tunnel: seq<Upstream>, s: State, e: Event)
    requires Distinct(tunnel) && Mirrors(tunnel, s) && Enabled(s, e)
    modifies tunnel
    ensures Mirrors(tunnel, Next(s, e))
  {
    match e
    case Claim(id) =>
      var granted := tunnel[s.lookups[id].phase.next].Claim(s.lookups[id].start);
    case Answer(id, _) =>
      tunnel[s.lookups[id].claimed[s.lookups[id].phase.pos]].Answer();
    case Fail(id, unreachable, tunnelUp) =>
      tunnel[s.lookups[id].claimed[s.lookups[id].phase.pos]].Fail(unreachable, tunnelUp, s.clock);
    case Release(id) =>
      tunnel[s.lookups[id].claimed[s.lookups[id].phase.pos]].ReleaseProbe();
    case _ =>
  }

  /** The other goroutines run: of `wishes` they do what they can do, and no more than `budget` time passes. A
      lookup takes them as a function of where everybody stands, which covers every interleaving. */
  method OthersRun(tunnel: seq<Upstream>, wishes: seq<Event>, id: nat, budget: nat, s0: State, ghost es0: seq<Event>)
    returns (s: State, used: nat, ghost es: seq<Event>)
    requires Follows(tunnel, es0, s0)
    modifies tunnel
    ensures Follows(tunnel, es, s) && es0 <= es
    ensures used <= budget && s.clock == s0.clock + used
    ensures id in s.lookups <==> id in s0.lookups
    ensures id in s.lookups ==> s.lookups[id] == s0.lookups[id]
  {
    s, es, used := s0, es0, 0;
    for i := 0 to |wishes|
      invariant Follows(tunnel, es, s) && es0 <= es
      invariant used <= budget && s.clock == s0.clock + used
      invariant id in s.lookups <==> id in s0.lookups
      invariant id in s.lookups ==> s.lookups[id] == s0.lookups[id]
    {
      var e := if wishes[i].Tick? then Tick(Min(wishes[i].d, budget - used)) else wishes[i];
      FollowsIs(tunnel, es, s);
      if Enabled(s, e) && (e.Tick? || e.id != id) {
        Perform(tunnel, s, e);
        Took(|tunnel|, es, s, e);
        s, es, used := Next(s, e), es + [e], if e.Tick? then used + e.d else used;
        FollowsIs(tunnel, es, s);
      }
    }
  }

  method ClaimOne(tunnel: seq<Upstream>, i: nat, start: int, active0: seq<nat>, id: nat, s0: State, ghost es0: seq<Event>)
    returns (active: seq<nat>, s: State, ghost es: seq<Event>)
    requires Follows(tunnel, es0, s0) && i < |tunnel|
    requires IsAt(s0, id, Lookup(start, active0, Claiming(i), None, {}))
    modifies tunnel[i]
    ensures Follows(tunnel, es, s) && es == es0 + [Claim(id)] && s.clock == s0.clock
    ensures IsAt(s, id, Lookup(start, active, Claiming(i + 1), None, {}))
    ensures i < |s0.resolvers| && active == if MayClaim(s0.resolvers[i], start) then active0 + [i] else active0
  {
    FollowsIs(tunnel, es0, s0);
    active := active0;
    var granted := tunnel[i].Claim(start);
    if granted {
      active := active + [i];
    }
    Took(|tunnel|, es0, s0, Claim(id));
    s, es := Next(s0, Claim(id)), es0 + [Claim(id)];
    FollowsIs(tunnel, es, s);
  }

  /** A step of a lookup that takes no mutex. */
  lemma StepAside(tunnel: seq<Upstream>, es: seq<Event>, s: State, e: Event)
    requires Follows(tunnel, es, s) && Enabled(s, e) && (e.Begin? || e.StartWalk? || e.FallBack? || e.Finish?)
    ensures Follows(tunnel, es + [e], Next(s, e)) && Next(s, e).clock == s.clock
    ensures IsAt(Next(s, e), e.id, LookupAfter(s, e))
  {
    FollowsIs(tunnel, es, s);
    Took(|tunnel|, es, s, e);
    FollowsIs(tunnel, es + [e], Next(s, e));
  }

  /** The claims of a lookup, others running before each. */
  method ClaimEach(tunnel: seq<Upstream>, start: int, env: State -> seq<Event>, id: nat, s0: State, ghost es0: seq<Event>)
    returns (active: seq<nat>, s: State, ghost es: seq<Event>)
    requires Follows(tunnel, es0, s0) && IsAt(s0, id, Lookup(start, [], Claiming(0), None, {}))
    modifies tunnel
    ensures Follows(tunnel, es, s) && es0 <= es && s.clock == s0.clock
    ensures IsAt(s, id, Lookup(start, active, Claiming(|tunnel|), None, {}))
    ensures forall r | r in active :: r < |tunnel|
  {
    active, s, es := [], s0, es0;
    for i := 0 to |tunnel|
      invariant Follows(tunnel, es, s) && es0 <= es && s.clock == s0.clock
      invariant IsAt(s, id, Lookup(start, active, Claiming(i), None, {}))
      invariant forall r | r in active :: r < |tunnel|
    {
      var used;
      s, used, es := OthersRun(tunnel, env(s), id, 0, s, es);
      active, s, es := ClaimOne(tunnel, i, start, active, id, s, es);
    }
  }

  /** The start of a lookup: the captured time, the claims, the first resolver. */
  method ClaimAll(tunnel: seq<Upstream>, env: State -> seq<Event>, id: nat, s0: State, ghost es0: seq<Event>)
    returns (active: seq<nat>, s: State, ghost es: seq<Event>)
    requires Follows(tunnel, es0, s0) && id !in s0.lookups
    modifies tunnel
    ensures Follows(tunnel, es, s) && es0 <= es && s.clock == s0.clock
    ensures IsAt(s, id, Lookup(s0.clock, active, Walking(0), None, {}))
    ensures forall r | r in active :: r < |tunnel|
  {
    StepAside(tunnel, es0, s0, Begin(id));
    active, s, es := ClaimEach(tunnel, s0.clock, env, id, Next(s0, Begin(id)), es0 + [Begin(id)]);
    FollowsIs(tunnel, es, s);
    StepAside(tunnel, es, s, StartWalk(id));
    s, es := Next(s, StartWalk(id)), es + [StartWalk(id)];
  }

  method ReleaseOne(tunnel: seq<Upstream>, r: nat, id: nat, ghost l: Lookup, s0: State, ghost es0: seq<Event>)
    returns (s: State, ghost es: seq<Event>)
    requires Follows(tunnel, es0, s0) && r < |tunnel| && IsAt(s0, id, l)
    requires l.phase.Releasing? && l.phase.pos < |l.claimed| && l.claimed[l.phase.pos] == r
    modifies tunnel[r]
    ensures Follows(tunnel, es, s) && es == es0 + [Release(id)] && s.clock == s0.clock
    ensures IsAt(s, id, l.(phase := Releasing(l.phase.pos + 1)))
  {
    FollowsIs(tunnel, es0, s0);
    tunnel[r].ReleaseProbe();
    Took(|tunnel|, es0, s0, Release(id));
    s, es := Next(s0, Release(id)), es0 + [Release(id)];
    FollowsIs(tunnel, es, s);
  }

  /** The releases of a lookup and its end, others running before each. */
  method ReleaseAll(tunnel: seq<Upstream>, active: seq<nat>, env: State -> seq<Event>, id: nat, ghost l: Lookup, s0: State,
                    ghost es0: seq<Event>)
    returns (s: State, ghost es: seq<Event>)
    requires Follows(tunnel, es0, s0) && IsAt(s0, id, l) && l.phase == Releasing(0) && l.claimed == active
    requires forall r | r in active :: r < |tunnel|
    modifies tunnel
    ensures Follows(tunnel, es, s) && es0 <= es && s.clock == s0.clock
    ensures IsAt(s, id, l.(phase := Finished))
  {
    s, es := s0, es0;
    for i := 0 to |active|
      invariant Follows(tunnel, es, s) && es0 <= es && s.clock == s0.clock
      invariant IsAt(s, id, l.(phase := Releasing(i)))
    {
      var used;
      s, used, es := OthersRun(tunnel, env(s), id, 0, s, es);
      assert active[i] in active;
      s, es := ReleaseOne(tunnel, active[i], id, l.(phase := Releasing(i)), s, es);
    }
    StepAside(tunnel, es, s, Finish(id));
    s, es := Next(s, Finish(id)), es + [Finish(id)];
  }

  /** Lookup `l` after resolver r gave verdict v. */
  function Judged(l: Lookup, r: nat, v: Verdict, up: bool): Lookup
    requires l.phase.Walking?
  {
    match v
    case Got(_) => l.(phase := Releasing(0), end := Some(Found(r)))
    case NotThere => l.(phase := Releasing(0), end := Some(NotFound(r)))
    case Failure(_) => l.(phase := Walking(l.phase.pos + 1), failed := if up then l.failed + {r} else l.failed)
  }

  /** Time passes, with the other goroutines at work in it. */
  method Await(tunnel: seq<Upstream>, span: nat, env: State -> seq<Event>, id: nat, s0: State, ghost es0: seq<Event>)
    returns (s: State, ghost es: seq<Event>)
    requires Follows(tunnel, es0, s0) && id in s0.lookups
    modifies tunnel
    ensures Follows(tunnel, es, s) && es0 <= es && s.clock == s0.clock + span
    ensures IsAt(s, id, s0.lookups[id])
  {
    var used;
    s, used, es := OthersRun(tunnel, env(s0), id, span, s0, es0);
    FollowsIs(tunnel, es, s);
    Took(|tunnel|, es, s, Tick(span - used));
    s, es := Next(s, Tick(span - used)), es + [Tick(span - used)];
    FollowsIs(tunnel, es, s);
  }

  /** The verdict and the event it is recorded by, from the reply alone. */
  ghost predicate Concludes(e: Event, v: Verdict, id: nat, reply: Reply, slice: nat, up: bool) {
    if reply.outcome.Broken? || slice < reply.delay then
      v == Failure(!reply.connected) && e == Event.Fail(id, !reply.connected, up)
    else
      && v == (if reply.outcome.Missing? then NotThere else Got(reply.outcome.addrs))
      && e == Event.Answer(id, reply.outcome.Addrs?)
  }

  method Conclude(tunnel: seq<Upstream>, r: nat, reply: Reply, slice: nat, up: bool, id: nat, ghost l: Lookup, s0: State,
                  ghost es0: seq<Event>)
    returns (v: Verdict, s: State, ghost e: Event)
    requires Follows(tunnel, es0, s0) && r < |tunnel| && IsAt(s0, id, l)
    requires l.phase.Walking? && l.phase.pos < |l.claimed| && l.claimed[l.phase.pos] == r
    modifies tunnel[r]
    ensures v == Judge(reply, slice) && Concludes(e, v, id, reply, slice, up)
    ensures Follows(tunnel, es0 + [e], s) && s.clock == s0.clock && IsAt(s, id, Judged(l, r, v, up))
  {
    FollowsIs(tunnel, es0, s0);
    var done;
    if reply.delay <= slice && !reply.outcome.Broken? {
      tunnel[r].Answer();
      done := Event.Answer(id, reply.outcome.Addrs?);
      v := if reply.outcome.Addrs? then Got(reply.outcome.addrs) else NotThere;
    } else {
      tunnel[r].Fail(!reply.connected, up, s0.clock);
      done := Event.Fail(id, !reply.connected, up);
      v := Failure(!reply.connected);
    }
    Took(|tunnel|, es0, s0, done);
    s, e := Next(s0, done), done;
    FollowsIs(tunnel, es0 + [e], s);
  }

  /** One resolver is asked: time passes and its answer or failure is recorded. */
  method Ask(tunnel: seq<Upstream>, r: nat, reply: Reply, slice: nat, up: bool, env: State -> seq<Event>, id: nat,
             ghost l: Lookup, s0: State, ghost es0: seq<Event>)
    returns (v: Verdict, used: nat, s: State, ghost es: seq<Event>)
    requires Follows(tunnel, es0, s0) && r < |tunnel| && IsAt(s0, id, l)
    requires l.phase.Walking? && l.phase.pos < |l.claimed| && l.claimed[l.phase.pos] == r
    modifies tunnel
    ensures v == Judge(reply, slice) && used == Min(reply.delay, slice)
    ensures es != [] && Concludes(es[|es| - 1], v, id, reply, slice, up)
    ensures Follows(tunnel, es, s) && es0 <= es && s.clock == s0.clock + used
    ensures IsAt(s, id, Judged(l, r, v, up))
  {
    used := Min(reply.delay, slice);
    s, es := Await(tunnel, used, env, id, s0, es0);
    ghost var e;
    v, s, e := Conclude(tunnel, r, reply, slice, up, id, l, s, es);
    es := es + [e];
  }

  /** Whether an end of the state machine is this result of the walk over `active`. */
  ghost predicate SameEnd(end: Option<WalkEnd>, res: Result, rs: seq<Reply>, active: seq<nat>) {
    match res
    case Nobody => end == Some(NoAnswer)
    case Resolved(_) => exists k: nat :: Decides(rs, k) && k < |active| && end == Some(Found(active[k]))
    case Absent => exists k: nat :: Decides(rs, k) && k < |active| && end == Some(NotFound(active[k]))
  }

  /** One more resolver of the walk, by the time that is left for it. */
  lemma WalkedOne(replies: seq<Reply>, active: seq<nat>, i: nat, spent: nat)
    requires (forall r | r in active :: r < |replies|) && i < |active|
    requires spent == Elapsed(Pick(replies, active), i)
    ensures active[i] in active
    ensures var (rs, slice) := (Pick(replies, active), Slice(spent, |active| - i));
            && VerdictAt(rs, i) == Judge(replies[active[i]], slice)
            && Elapsed(rs, i + 1) == spent + Min(replies[active[i]].delay, slice)
  {
    assert active[i] in active;
  }

  /** Resolver i of the walk answered, all before it failed. */
  lemma EndsHere(rs: seq<Reply>, active: seq<nat>, i: nat, res: Result, end: WalkEnd)
    requires Decides(rs, i) && |rs| == |active|
    requires VerdictAt(rs, i).Got? ==> res == Resolved(VerdictAt(rs, i).addrs) && end == Found(active[i])
    requires VerdictAt(rs, i).NotThere? ==> res == Absent && end == NotFound(active[i])
    ensures Ends(rs, res) && SameEnd(Some(end), res, rs, active)
  {
  }

  /** The loop of the walk: each resolver gets an equal share of what is left, until one does not fail. */
  method WalkEach(tunnel: seq<Upstream>, active: seq<nat>, replies: seq<Reply>, ups: seq<bool>, env: State -> seq<Event>, id: nat,
                  s0: State, ghost es0: seq<Event>)
    returns (at: nat, v: Verdict, spent: nat, s: State, ghost es: seq<Event>, ghost l: Lookup)
    requires Follows(tunnel, es0, s0) && |replies| == |ups| == |tunnel|
    requires forall r | r in active :: r < |tunnel|
    requires IsAt(s0, id, Lookup(s0.clock, active, Walking(0), None, {}))
    modifies tunnel
    ensures Follows(tunnel, es, s) && es0 <= es && IsAt(s, id, l)
    ensures at <= |active| && spent <= TUNNEL_LOOKUP_TIMEOUT && s.clock == s0.clock + spent
    ensures forall j | 0 <= j < at :: VerdictAt(Pick(replies, active), j).Failure?
    ensures at == |active| ==> l == Lookup(s0.clock, active, Walking(at), None, l.failed)
    ensures at < |active| ==>
              && v == VerdictAt(Pick(replies, active), at) && !v.Failure?
              && l == Lookup(s0.clock, active, Releasing(0), Some(if v.Got? then Found(active[at]) else NotFound(active[at])), l.failed)
  {
    ghost var rs := Pick(replies, active);
    s, es, l := s0, es0, Lookup(s0.clock, active, Walking(0), None, {});
    at, spent, v := 0, 0, NotThere;
    while at < |active|
      invariant at <= |active| && Follows(tunnel, es, s) && es0 <= es
      invariant spent == Elapsed(rs, at) && s.clock == s0.clock + spent
      invariant forall j | 0 <= j < at :: VerdictAt(rs, j).Failure?
      invariant IsAt(s, id, l) && l == Lookup(s0.clock, active, Walking(at), None, l.failed)
    {
      WalkedOne(replies, active, at, spent);
      var r := active[at];
      var used;
      v, used, s, es := Ask(tunnel, r, replies[r], Slice(spent, |active| - at), ups[r], env, id, l, s, es);
      l := Judged(l, r, v, ups[r]);
      spent := spent + used;
      if !v.Failure? {
        return;
      }
      at := at + 1;
    }
  }

  /** The walk: the first definitive answer ends it, and a fallback if there is none. */
  method Walk(tunnel: seq<Upstream>, active: seq<nat>, replies: seq<Reply>, ups: seq<bool>, env: State -> seq<Event>, id: nat,
              s0: State, ghost es0: seq<Event>)
    returns (res: Result, spent: nat, s: State, ghost es: seq<Event>, ghost l: Lookup)
    requires Follows(tunnel, es0, s0) && |replies| == |ups| == |tunnel|
    requires forall r | r in active :: r < |tunnel|
    requires IsAt(s0, id, Lookup(s0.clock, active, Walking(0), None, {}))
    modifies tunnel
    ensures Follows(tunnel, es, s) && es0 <= es
    ensures spent <= 3 * SECOND && 2 * SECOND <= LOOKUP_TIMEOUT - spent && s.clock == s0.clock + spent
    ensures Ends(Pick(replies, active), res)
    ensures IsAt(s, id, l) && l.start == s0.clock && l.claimed == active && l.phase == Releasing(0)
    ensures SameEnd(l.end, res, Pick(replies, active), active)
  {
    var at, v;
    at, v, spent, s, es, l := WalkEach(tunnel, active, replies, ups, env, id, s0, es0);
    if at < |active| {
      res := if v.Got? then Resolved(v.addrs) else Absent;
      EndsHere(Pick(replies, active), active, at, res, l.end.value);
    } else {
      StepAside(tunnel, es, s, FallBack(id));
      s, es := Next(s, FallBack(id)), es + [FallBack(id)];
      l := l.(phase := Releasing(0), end := Some(NoAnswer));
      res := Nobody;
    }
  }

  /** A whole lookup among any number of others, which run between its mutex sections and while it waits, with
      `localDelay` for a local resolver call inside it: its result is the first definitive answer of the
      resolvers it was granted, it is never older than its bound, and all of it is a run of the state machine, so
      everything proved about runs, and about runs of lookups shorter than the pause, is true of it. */
  method Resolve(tunnel: seq<Upstream>, replies: seq<Reply>, ups: seq<bool>, localDelay: nat, env: State -> seq<Event>, id: nat,
                 s0: State, ghost es0: seq<Event>)
    returns (res: Result, active: seq<nat>, spent: nat, s: State, ghost es: seq<Event>)
    requires Follows(tunnel, es0, s0) && |replies| == |ups| == |tunnel| && id !in s0.lookups
    modifies tunnel
    ensures Follows(tunnel, es, s) && es0 <= es
    ensures forall r | r in active :: r < |replies|
    ensures Ends(Pick(replies, active), res)
    ensures spent <= 5 * SECOND < UPSTREAM_PAUSE && s.clock == s0.clock + spent
    ensures id in s.lookups && s.lookups[id].start == s0.clock
    ensures s.lookups[id].phase.Finished? && s.lookups[id].claimed == active
    ensures SameEnd(s.lookups[id].end, res, Pick(replies, active), active)
    ensures NeverOlder(|tunnel|, es, id, 5 * SECOND)
  {
    ghost var l;
    active, s, es := ClaimAll(tunnel, env, id, s0, es0);
    res, spent, s, es, l := Walk(tunnel, active, replies, ups, env, id, s, es);
    var local := Min(localDelay, LOOKUP_TIMEOUT - spent);
    s, es := Await(tunnel, local, env, id, s, es);
    spent := spent + local;
    s, es := ReleaseAll(tunnel, active, env, id, l, s, es);
    FollowsIs(tunnel, es, s);
    OldestAtEnd(|tunnel|, es, id, LOOKUP_TIMEOUT);
  }
}
