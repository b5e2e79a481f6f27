/** Concurrent tunnel lookups (dns.go: lookup, claim, releaseProbes, upstreamAnswered,
    upstreamFailed) as a state machine. Every mutex section is one event, so a run is any
    interleaving of any number of lookups, clock ticks and tunnel states. */
module LookupRuns {
  import opened Basics
  import opened Resolvers

  /** How the walk over the claimed resolvers ended. */
  datatype WalkEnd = Found(who: nat) | NotFound(who: nat) | NoAnswer

  /** Where a lookup is: claiming resolver `next`, asking claimed[pos], releasing claimed[pos]. */
  datatype Phase = Claiming(next: nat) | Walking(pos: nat) | Releasing(pos: nat) | Finished

  /** `start` is the clock value that the lookup captured once for all its claims; `failed` holds the
      resolvers that this lookup put a failure on. A finished lookup stays in the state as history. */
  datatype Lookup = Lookup(start: int, claimed: seq<nat>, phase: Phase, end: Option<WalkEnd>, failed: set<nat>)

  datatype State = State(clock: int, resolvers: seq<Resolver>, lookups: map<nat, Lookup>, fallbacks: nat)

  datatype Event =
    | Tick(d: nat)
    | Begin(id: nat)
    | Claim(id: nat)
    | StartWalk(id: nat)
    | Answer(id: nat, found: bool)
    | Fail(id: nat, unreachable: bool, tunnelUp: bool)
    | FallBack(id: nat)
    | Release(id: nat)
    | Finish(id: nat)

  function Init(n: nat): State {
    State(0, seq(n, i => FRESH), map[], 0)
  }

  /** The resolvers a lookup has claimed and not released yet. */
  function Held(l: Lookup): seq<nat> {
    match l.phase
    case Claiming(_) => l.claimed
    case Walking(_) => l.claimed
    case Releasing(pos) => if pos <= |l.claimed| then l.claimed[pos..] else []
    case Finished => []
  }

  predicate Enabled(s: State, e: Event) {
    match e
    case Tick(_) => true
    case Begin(id) => id !in s.lookups
    case Claim(id) => id in s.lookups && s.lookups[id].phase.Claiming? && s.lookups[id].phase.next < |s.resolvers|
    case StartWalk(id) => id in s.lookups && s.lookups[id].phase == Claiming(|s.resolvers|)
    case Answer(id, _) => Asking(s, id)
    case Fail(id, _, _) => Asking(s, id)
    case FallBack(id) => id in s.lookups && s.lookups[id].phase == Walking(|s.lookups[id].claimed|)
    case Release(id) =>
      && id in s.lookups
      && s.lookups[id].phase.Releasing?
      && s.lookups[id].phase.pos < |s.lookups[id].claimed|
      && s.lookups[id].claimed[s.lookups[id].phase.pos] < |s.resolvers|
    case Finish(id) => id in s.lookups && s.lookups[id].phase == Releasing(|s.lookups[id].claimed|)
  }

  predicate Asking(s: State, id: nat) {
    && id in s.lookups
    && s.lookups[id].phase.Walking?
    && s.lookups[id].phase.pos < |s.lookups[id].claimed|
    && s.lookups[id].claimed[s.lookups[id].phase.pos] < |s.resolvers|
  }

  /** The resolver whose mutex an event takes. */
  function Touched(s: State, e: Event): Option<nat>
    requires Enabled(s, e)
  {
    match e
    case Claim(id) => Some(s.lookups[id].phase.next)
    case Answer(id, _) => Some(s.lookups[id].claimed[s.lookups[id].phase.pos])
    case Fail(id, _, _) => Some(s.lookups[id].claimed[s.lookups[id].phase.pos])
    case Release(id) => Some(s.lookups[id].claimed[s.lookups[id].phase.pos])
    case _ => None
  }

  function ResolverAfter(s: State, e: Event): (r': Resolver)
    requires Enabled(s, e) && Touched(s, e).Some?
  {
    var r := s.resolvers[Touched(s, e).value];
    match e
    case Claim(id) => Claimed(r, s.lookups[id].start)
    case Answer(_, _) => Answered(r)
    case Fail(_, unreachable, tunnelUp) => Failed(r, unreachable, tunnelUp, s.clock)
    case Release(_) => Released(r)
  }

  function LookupAfter(s: State, e: Event): (l': Lookup)
    requires Enabled(s, e) && !e.Tick?
  {
    if e.Begin? then Lookup(s.clock, [], Claiming(0), None, {})
    else
      var l := s.lookups[e.id];
      match e
      case Claim(_) =>
        var r := l.phase.next;
        l.(phase := Claiming(r + 1),
           claimed := if MayClaim(s.resolvers[r], l.start) then l.claimed + [r] else l.claimed)
      case StartWalk(_) => l.(phase := Walking(0))
      case Answer(_, found) =>
        var r := l.claimed[l.phase.pos];
        l.(phase := Releasing(0), end := Some(if found then Found(r) else NotFound(r)))
      case Fail(_, _, tunnelUp) =>
        l.(phase := Walking(l.phase.pos + 1),
           failed := if tunnelUp then l.failed + {l.claimed[l.phase.pos]} else l.failed)
      case FallBack(_) => l.(phase := Releasing(0), end := Some(NoAnswer))
      case Release(_) => l.(phase := Releasing(l.phase.pos + 1))
      case Finish(_) => l.(phase := Finished)
  }

  /** An event changes its own lookup and at most one resolver. */
  function Next(s: State, e: Event): State
    requires Enabled(s, e)
  {
    if e.Tick? then s.(clock := s.clock + e.d)
    else
      State(s.clock,
            if Touched(s, e).Some? then s.resolvers[Touched(s, e).value := ResolverAfter(s, e)] else s.resolvers,
            s.lookups[e.id := LookupAfter(s, e)],
            if e.FallBack? then s.fallbacks + 1 else s.fallbacks)
  }

  /** The state after a run of n resolvers, None where some event of it was not possible. */
  function Exec(n: nat, es: seq<Event>): Option<State> {
    if es == [] then Some(Init(n))
    else
      var before := Exec(n, es[..|es| - 1]);
      if before.Some? && Enabled(before.value, es[|es| - 1]) then Some(Next(before.value, es[|es| - 1])) else None
  }

  /** No lookup in flight is older than `bound`. */
  ghost predicate Timely(s: State, bound: int) {
    forall id | id in s.lookups && !s.lookups[id].phase.Finished? :: s.clock - s.lookups[id].start <= bound
  }

  /** No lookup of the run lasts longer than `bound`. */
  ghost predicate Within(n: nat, es: seq<Event>, bound: int) {
    && (es == [] || Within(n, es[..|es| - 1], bound))
    && (Exec(n, es).Some? ==> Timely(Exec(n, es).value, bound))
  }

  /** At no point of the run is lookup id older than `bound`. */
  ghost predicate NeverOlder(n: nat, es: seq<Event>, id: nat, bound: int) {
    forall k | 0 <= k <= |es| ::
      Exec(n, es[..k]).Some? && id in Exec(n, es[..k]).value.lookups ==>
        Exec(n, es[..k]).value.clock - Exec(n, es[..k]).value.lookups[id].start <= bound
  }

  /** Along a run time passes, and a lookup that is there stays, with the time it captured. */
  lemma {:induction false} EarlierInRun(n: nat, es: seq<Event>, k: nat)
    requires Exec(n, es).Some? && k <= |es|
    ensures Exec(n, es[..k]).Some? && Exec(n, es[..k]).value.clock <= Exec(n, es).value.clock
    ensures forall id | id in Exec(n, es[..k]).value.lookups ::
              && id in Exec(n, es).value.lookups
              && Exec(n, es[..k]).value.lookups[id].start == Exec(n, es).value.lookups[id].start
  {
    if k == |es| {
      assert es[..k] == es;
    } else {
      EarlierInRun(n, es[..|es| - 1], k);
      assert es[..|es| - 1][..k] == es[..k];
    }
  }

  /** So a lookup is never older than at the end. */
  lemma OldestAtEnd(n: nat, es: seq<Event>, id: nat, bound: int)
    requires Exec(n, es).Some? && id in Exec(n, es).value.lookups
    requires Exec(n, es).value.clock - Exec(n, es).value.lookups[id].start <= bound
    ensures NeverOlder(n, es, id, bound)
  {
    forall k | 0 <= k <= |es| && Exec(n, es[..k]).Some? && id in Exec(n, es[..k]).value.lookups
      ensures Exec(n, es[..k]).value.clock - Exec(n, es[..k]).value.lookups[id].start <= bound
    {
      EarlierInRun(n, es, k);
    }
  }

  /** A run of such lookups is one that the bounded results are about. */
  lemma {:induction false} NeverOlderIsWithin(n: nat, es: seq<Event>, k: nat, bound: int)
    requires Exec(n, es).Some? && k <= |es| && forall id | id in Exec(n, es).value.lookups :: NeverOlder(n, es, id, bound)
    ensures Within(n, es[..k], bound)
  {
    EarlierInRun(n, es, k);
    if k > 0 {
      NeverOlderIsWithin(n, es, k - 1, bound);
      assert es[..k][..k - 1] == es[..k - 1];
    }
  }

  // ---------------------------------------------------------------- shape of a reachable state

  ghost predicate Increasing(xs: seq<nat>) {
    forall i, j | 0 <= i < j < |xs| :: xs[i] < xs[j]
  }

  ghost predicate ShapeOf(l: Lookup, n: nat, clock: int) {
    && l.start <= clock
    && Increasing(l.claimed)
    && (forall r | r in l.claimed :: r < n)
    && (l.end.Some? <==> l.phase.Releasing? || l.phase.Finished?)
    && (l.phase.Claiming? ==> l.phase.next <= n && l.failed == {} && forall r | r in l.claimed :: r < l.phase.next)
    && (l.phase.Walking? ==> l.phase.pos <= |l.claimed| && forall r | r in l.failed :: r in l.claimed[..l.phase.pos])
    && (l.phase.Releasing? ==> l.phase.pos <= |l.claimed|)
    && (l.end.Some? && !l.end.value.NoAnswer? ==> l.end.value.who !in l.failed && l.end.value.who in l.claimed)
  }

  ghost predicate Shape(s: State) {
    forall id | id in s.lookups :: ShapeOf(s.lookups[id], |s.resolvers|, s.clock)
  }

  lemma IncreasingAppend(xs: seq<nat>, x: nat)
    requires Increasing(xs) && forall y | y in xs :: y < x
    ensures Increasing(xs + [x])
    ensures forall y | y in xs + [x] :: y <= x
  {
    assert forall i | 0 <= i < |xs| :: xs[i] in xs;
  }

  /** An event leaves every lookup but its own as it was. */
  lemma ShapeKept(s: State, e: Event)
    requires Shape(s) && Enabled(s, e)
    ensures Shape(Next(s, e))
    ensures |Next(s, e).resolvers| == |s.resolvers|
  {
    var s' := Next(s, e);
    forall id | id in s'.lookups
      ensures ShapeOf(s'.lookups[id], |s.resolvers|, s'.clock)
    {
      if id in s.lookups {
        assert ShapeOf(s.lookups[id], |s.resolvers|, s.clock);
        if s'.lookups[id] != s.lookups[id] {
          OwnShapeKept(s, e, id);
        }
      }
    }
  }

  lemma OwnShapeKept(s: State, e: Event, id: nat)
    requires Enabled(s, e) && id in s.lookups && ShapeOf(s.lookups[id], |s.resolvers|, s.clock)
    requires !e.Tick? && e.id == id
    ensures ShapeOf(Next(s, e).lookups[id], |s.resolvers|, s.clock)
  {
    var l := s.lookups[id];
    match e
    case Claim(_) =>
      IncreasingAppend(l.claimed, l.phase.next);
    case Fail(_, _, _) =>
      assert l.claimed[..l.phase.pos + 1] == l.claimed[..l.phase.pos] + [l.claimed[l.phase.pos]];
    case Answer(_, _) =>
      assert l.claimed[l.phase.pos] !in l.claimed[..l.phase.pos];
    case _ =>
  }

  lemma {:induction false} ShapeReached(n: nat, es: seq<Event>)
    requires Exec(n, es).Some?
    ensures Shape(Exec(n, es).value)
    ensures |Exec(n, es).value.resolvers| == n
  {
    if es != [] {
      ShapeReached(n, es[..|es| - 1]);
      ShapeKept(Exec(n, es[..|es| - 1]).value, es[|es| - 1]);
    }
  }

  // ---------------------------------------------------------------- one probe per pause

  /** Lookup id holds resolver r as a probe of r's current pause: it claimed r after the pause ran out. */
  ghost predicate Probes(s: State, id: nat, r: nat) {
    && id in s.lookups
    && r < |s.resolvers|
    && r in Held(s.lookups[id])
    && s.resolvers[r].pausedUntil.Some?
    && s.resolvers[r].pausedUntil.value <= s.lookups[id].start
  }

  /** At most one lookup probes each paused resolver. */
  ghost predicate OneProbe(s: State) {
    forall r, id, id' | Probes(s, id, r) && Probes(s, id', r) :: id == id'
  }

  /** A holder of a paused resolver either captured its time before the pause began, or is a probe
      that the probing flag accounts for. */
  ghost predicate Epochs(s: State) {
    forall id, r | id in s.lookups && r in Held(s.lookups[id]) && r < |s.resolvers| && s.resolvers[r].pausedUntil.Some? ::
      || s.lookups[id].start <= s.resolvers[r].pausedUntil.value - UPSTREAM_PAUSE
      || (Probes(s, id, r) && s.resolvers[r].probing)
  }

  /** Holding only ever shrinks, except for the resolver that a claim was just granted on. */
  lemma HeldFrom(s: State, e: Event, id: nat, r: nat)
    requires Shape(s) && Enabled(s, e)
    requires id in Next(s, e).lookups && r in Held(Next(s, e).lookups[id])
    ensures id in s.lookups && s.lookups[id].start == Next(s, e).lookups[id].start
    ensures r in Held(s.lookups[id])
            || (e == Claim(id) && r == s.lookups[id].phase.next < |s.resolvers| && MayClaim(s.resolvers[r], s.lookups[id].start))
    ensures e == Release(id) ==> Touched(s, e) != Some(r)
  {
    var l' := Next(s, e).lookups[id];
    if e == Release(id) {
      var l := s.lookups[id];
      assert ShapeOf(l, |s.resolvers|, s.clock);
      assert l.claimed[l.phase.pos..] == [l.claimed[l.phase.pos]] + l'.claimed[l'.phase.pos..];
    }
  }

  /** A pause is either the one of before or begins now; only a release of r takes r's probing flag away. */
  lemma PauseFrom(s: State, e: Event, r: nat)
    requires Enabled(s, e) && r < |s.resolvers| && Next(s, e).resolvers[r].pausedUntil.Some?
    ensures || Next(s, e).resolvers[r].pausedUntil == s.resolvers[r].pausedUntil
            || (e.Fail? && e.unreachable && e.tunnelUp && Next(s, e).resolvers[r].pausedUntil.value == s.clock + UPSTREAM_PAUSE)
    ensures || Next(s, e).resolvers[r].probing == s.resolvers[r].probing
            || (e.Release? && Touched(s, e) == Some(r))
            || (e.Claim? && Touched(s, e) == Some(r) && Next(s, e).resolvers[r].probing)
  {
  }

  /** The argument for one holder, from what its step may do to the pause and the flag. */
  lemma EpochFrom(s: State, s': State, id: nat, r: nat)
    requires Epochs(s) && id in s.lookups && id in s'.lookups && r < |s.resolvers| && r < |s'.resolvers|
    requires s'.lookups[id].start == s.lookups[id].start <= s.clock
    requires s'.resolvers[r].pausedUntil.Some? && r in Held(s'.lookups[id])
    requires || s'.resolvers[r].pausedUntil == s.resolvers[r].pausedUntil
             || s'.resolvers[r].pausedUntil.value == s.clock + UPSTREAM_PAUSE
    requires || r in Held(s.lookups[id])
             || (MayClaim(s.resolvers[r], s.lookups[id].start) && s'.resolvers[r] == Claimed(s.resolvers[r], s.lookups[id].start))
    requires Probes(s, id, r) && s.resolvers[r].probing ==> s'.resolvers[r].probing
    ensures || s'.lookups[id].start <= s'.resolvers[r].pausedUntil.value - UPSTREAM_PAUSE
            || (Probes(s', id, r) && s'.resolvers[r].probing)
  {
  }

  lemma EpochKept(s: State, e: Event, bound: int, id: nat, r: nat)
    requires Shape(s) && Enabled(s, e) && Epochs(s) && OneProbe(s)
    requires Timely(s, bound) && bound < UPSTREAM_PAUSE
    requires id in Next(s, e).lookups && r in Held(Next(s, e).lookups[id]) && r < |s.resolvers|
    requires Next(s, e).resolvers[r].pausedUntil.Some?
    ensures || Next(s, e).lookups[id].start <= Next(s, e).resolvers[r].pausedUntil.value - UPSTREAM_PAUSE
            || (Probes(Next(s, e), id, r) && Next(s, e).resolvers[r].probing)
  {
    HeldFrom(s, e, id, r);
    PauseFrom(s, e, r);
    assert ShapeOf(s.lookups[id], |s.resolvers|, s.clock);
    if e.Release? && Touched(s, e) == Some(r) && Probes(s, id, r) {
      ReleaseSparesProbe(s, e.id, id, r, bound);
    }
    EpochFrom(s, Next(s, e), id, r);
  }

  lemma EpochsKept(s: State, e: Event, bound: int)
    requires Shape(s) && Enabled(s, e) && Epochs(s) && OneProbe(s)
    requires Timely(s, bound) && bound < UPSTREAM_PAUSE
    ensures Epochs(Next(s, e))
  {
    var s' := Next(s, e);
    ShapeKept(s, e);
    forall id, r | id in s'.lookups && r in Held(s'.lookups[id]) && r < |s'.resolvers| && s'.resolvers[r].pausedUntil.Some?
      ensures s'.lookups[id].start <= s'.resolvers[r].pausedUntil.value - UPSTREAM_PAUSE
              || (Probes(s', id, r) && s'.resolvers[r].probing)
    {
      EpochKept(s, e, bound, id, r);
    }
  }

  /** A probe was one before, or its claim is this event and found the flag down. */
  lemma ProbeFrom(s: State, e: Event, id: nat, r: nat)
    requires Shape(s) && Enabled(s, e) && Probes(Next(s, e), id, r)
    ensures || Probes(s, id, r)
            || (e == Claim(id) && r < |s.resolvers| && s.resolvers[r].pausedUntil.Some? && !s.resolvers[r].probing)
    ensures Next(s, e).resolvers[r].pausedUntil == s.resolvers[r].pausedUntil
  {
    HeldFrom(s, e, id, r);
    PauseFrom(s, e, r);
    assert ShapeOf(s.lookups[id], |s.resolvers|, s.clock);
  }

  lemma OneProbeKept(s: State, e: Event)
    requires Shape(s) && Enabled(s, e) && Epochs(s) && OneProbe(s)
    ensures OneProbe(Next(s, e))
  {
    var s' := Next(s, e);
    forall r, id, id' | Probes(s', id, r) && Probes(s', id', r)
      ensures id == id'
    {
      ProbeFrom(s, e, id, r);
      ProbeFrom(s, e, id', r);
    }
  }

  /** The step that is not local: a release clears the flag of every resolver the lookup claimed, but a
      lookup that held r before its pause has ended by the time anybody can probe r. */
  lemma ReleaseSparesProbe(s: State, releasing: nat, id: nat, r: nat, bound: int)
    requires Shape(s) && Epochs(s) && OneProbe(s) && Timely(s, bound) && bound < UPSTREAM_PAUSE
    requires Enabled(s, Release(releasing))
    requires Probes(s, id, r) && id != releasing
    ensures Touched(s, Release(releasing)) != Some(r)
  {
    var l := s.lookups[releasing];
    assert l.claimed[l.phase.pos] in Held(l);
    assert ShapeOf(s.lookups[id], |s.resolvers|, s.clock);
  }

  lemma {:induction false} OneProbeReached(n: nat, es: seq<Event>, bound: int)
    requires Exec(n, es).Some? && Within(n, es, bound) && bound < UPSTREAM_PAUSE
    ensures Epochs(Exec(n, es).value) && OneProbe(Exec(n, es).value)
  {
    if es != [] {
      var before := es[..|es| - 1];
      OneProbeReached(n, before, bound);
      ShapeReached(n, before);
      EpochsKept(Exec(n, before).value, es[|es| - 1], bound);
      OneProbeKept(Exec(n, before).value, es[|es| - 1]);
    }
  }

  // ---------------------------------------------------------------- the bound is needed

  lemma Step(n: nat, es: seq<Event>, s: State, e: Event, bound: int) returns (es': seq<Event>)
    requires Exec(n, es) == Some(s) && Within(n, es, bound)
    requires Enabled(s, e) && Timely(Next(s, e), bound)
    ensures Exec(n, es') == Some(Next(s, e)) && Within(n, es', bound)
  {
    es' := es + [e];
    assert es'[..|es|] == es;
  }

  /** A new lookup claims the only resolver. */
  lemma JoinClaim(es: seq<Event>, s: State, id: nat, bound: int) returns (es': seq<Event>)
    requires Exec(1, es) == Some(s) && Within(1, es, bound) && Timely(s, bound) && 0 <= bound
    requires |s.resolvers| == 1 && id !in s.lookups && MayClaim(s.resolvers[0], s.clock)
    ensures Within(1, es', bound)
    ensures Exec(1, es') == Some(s.(resolvers := [Claimed(s.resolvers[0], s.clock)],
                                    lookups := s.lookups[id := Lookup(s.clock, [0], Claiming(1), None, {})]))
  {
    es' := Step(1, es, s, Begin(id), bound);
    var s1 := s.(lookups := s.lookups[id := Lookup(s.clock, [], Claiming(0), None, {})]);
    es' := Step(1, es', s1, Claim(id), bound);
    assert [] + [0] == [0];
    var l2 := Lookup(s.clock, [0], Claiming(1), None, {});
    assert LookupAfter(s1, Claim(id)) == l2;
    assert s1.lookups[id := l2] == s.lookups[id := l2];
    assert s1.resolvers[0 := ResolverAfter(s1, Claim(id))] == [Claimed(s.resolvers[0], s.clock)];
  }

  lemma Join(es: seq<Event>, s: State, id: nat, bound: int) returns (es': seq<Event>)
    requires Exec(1, es) == Some(s) && Within(1, es, bound) && Timely(s, bound) && 0 <= bound
    requires |s.resolvers| == 1 && id !in s.lookups && MayClaim(s.resolvers[0], s.clock)
    ensures Within(1, es', bound)
    ensures Exec(1, es') == Some(s.(resolvers := [Claimed(s.resolvers[0], s.clock)],
                                    lookups := s.lookups[id := Lookup(s.clock, [0], Walking(0), None, {})]))
  {
    es' := JoinClaim(es, s, id, bound);
    var s2 := Exec(1, es').value;
    es' := Step(1, es', s2, StartWalk(id), bound);
    var l3 := Lookup(s.clock, [0], Walking(0), None, {});
    assert s2.lookups[id := l3] == s.lookups[id := l3];
  }

  const WAITS: Lookup := Lookup(0, [0], Walking(0), None, {})
  const FOUND_DOWN: Lookup := Lookup(0, [0], Walking(1), None, {0})

  /** Lookups 1 and 2 claim the only resolver. */
  lemma SlowRunJoins(bound: int) returns (es: seq<Event>)
    requires UPSTREAM_PAUSE <= bound
    ensures Within(1, es, bound) && Exec(1, es) == Some(State(0, [FRESH], map[1 := WAITS, 2 := WAITS], 0))
  {
    var s0 := State(0, [FRESH], map[], 0);
    assert Init(1) == s0;
    es := Join([], s0, 1, bound);
    es := Join(es, s0.(lookups := map[1 := WAITS]), 2, bound);
  }

  /** Lookup 2 finds it unreachable, and the pause runs out. */
  lemma SlowRunPauses(bound: int) returns (es: seq<Event>)
    requires UPSTREAM_PAUSE <= bound
    ensures Within(1, es, bound)
    ensures Exec(1, es) == Some(State(UPSTREAM_PAUSE, [Resolver(Some(UPSTREAM_PAUSE), false, 0, 1, true)],
                                      map[1 := WAITS, 2 := FOUND_DOWN], 0))
  {
    es := SlowRunJoins(bound);
    var s2 := State(0, [FRESH], map[1 := WAITS, 2 := WAITS], 0);
    es := Step(1, es, s2, Fail(2, true, true), bound);
    var s3 := Next(s2, Fail(2, true, true));
    assert s3.resolvers == [Resolver(Some(UPSTREAM_PAUSE), false, 0, 1, true)];
    assert s3.lookups[2].failed == {0};
    assert s3.lookups == map[1 := WAITS, 2 := FOUND_DOWN];
    es := Step(1, es, s3, Tick(UPSTREAM_PAUSE), bound);
  }

  /** A lookup that holds the only resolver fails with the tunnel down and falls back. */
  lemma GiveUp(es: seq<Event>, s: State, id: nat, start: int, bound: int) returns (es': seq<Event>, s': State)
    requires Exec(1, es) == Some(s) && Within(1, es, bound) && Timely(s, bound)
    requires |s.resolvers| == 1 && id in s.lookups && s.lookups[id] == Lookup(start, [0], Walking(0), None, {})
    ensures Within(1, es', bound) && Exec(1, es') == Some(s')
    ensures s'.clock == s.clock && s'.resolvers == s.resolvers
    ensures s'.lookups == s.lookups[id := Lookup(start, [0], Releasing(0), Some(NoAnswer), {})]
  {
    es' := Step(1, es, s, Fail(id, true, false), bound);
    var s1 := s.(lookups := s.lookups[id := Lookup(start, [0], Walking(1), None, {})]);
    assert Next(s, Fail(id, true, false)) == s1 by {
      assert s.resolvers[0 := s.resolvers[0]] == s.resolvers;
    }
    es' := Step(1, es', s1, FallBack(id), bound);
    s' := Next(s1, FallBack(id));
    var l2 := Lookup(start, [0], Releasing(0), Some(NoAnswer), {});
    assert s1.lookups[id := l2] == s.lookups[id := l2];
  }

  /** Lookup 1, as old as the pause, ends and clears the flag that lookup 3 set. */
  lemma SlowRunClears(bound: int) returns (es: seq<Event>, s: State)
    requires UPSTREAM_PAUSE <= bound
    ensures Within(1, es, bound) && Exec(1, es) == Some(s)
    ensures s.clock == UPSTREAM_PAUSE && s.resolvers == [Resolver(Some(UPSTREAM_PAUSE), false, 0, 1, true)]
    ensures 4 !in s.lookups && 3 in s.lookups && s.lookups[3] == Lookup(UPSTREAM_PAUSE, [0], Walking(0), None, {})
    ensures Timely(s, bound)
  {
    es := SlowRunPauses(bound);
    es := Join(es, Exec(1, es).value, 3, bound);
    es, s := GiveUp(es, Exec(1, es).value, 1, 0, bound);
    es := Step(1, es, s, Release(1), bound);
    s := Next(s, Release(1));
  }

  lemma SlowRunProbesTwice(bound: int) returns (es: seq<Event>)
    requires UPSTREAM_PAUSE <= bound
    ensures Exec(1, es).Some? && Within(1, es, bound)
    ensures Probes(Exec(1, es).value, 3, 0) && Probes(Exec(1, es).value, 4, 0)
    ensures var s := Exec(1, es).value;
            && s.clock == UPSTREAM_PAUSE && |s.resolvers| == 1 && s.resolvers[0].pausedUntil == Some(UPSTREAM_PAUSE)
            && s.lookups[3] == s.lookups[4] == Lookup(UPSTREAM_PAUSE, [0], Walking(0), None, {}) && Timely(s, bound)
  {
    var s: State;
    es, s := SlowRunClears(bound);
    es := Join(es, s, 4, bound);
  }

  /** Whether a paused resolver is probed by one lookup at a time depends on how long lookups last: it
      holds in every run of lookups bounded by `bound` exactly when that is below the pause. */
  lemma OneProbeIffShorterThanPause(bound: int)
    ensures (forall n: nat, es: seq<Event> | Exec(n, es).Some? && Within(n, es, bound) :: OneProbe(Exec(n, es).value))
            <==> bound < UPSTREAM_PAUSE
  {
    if bound < UPSTREAM_PAUSE {
      forall n: nat, es: seq<Event> | Exec(n, es).Some? && Within(n, es, bound)
        ensures OneProbe(Exec(n, es).value)
      {
        OneProbeReached(n, es, bound);
      }
    } else {
      var es := SlowRunProbesTwice(bound);
      assert !OneProbe(Exec(1, es).value);
    }
  }

  // ---------------------------------------------------------------- no resolver is lost

  ghost predicate Holds(s: State, id: nat, r: nat) {
    id in s.lookups && r in Held(s.lookups[id])
  }

  /** probing is set only while some lookup that claimed the resolver is in flight. */
  ghost predicate ProbingIsHeld(s: State) {
    forall r | 0 <= r < |s.resolvers| && s.resolvers[r].probing :: exists id :: Holds(s, id, r)
  }

  lemma ProbingIsHeldKept(s: State, e: Event)
    requires Shape(s) && Enabled(s, e) && ProbingIsHeld(s)
    ensures ProbingIsHeld(Next(s, e))
  {
    var s' := Next(s, e);
    forall r | 0 <= r < |s'.resolvers| && s'.resolvers[r].probing
      ensures exists id :: Holds(s', id, r)
    {
      ShapeKept(s, e);
      if s.resolvers[r].probing {
        var id :| Holds(s, id, r);
        HoldKept(s, e, id, r);
      } else {
        assert Holds(s', e.id, r);
      }
    }
  }

  /** A lookup's own step lets go of nothing but what it releases. */
  lemma OwnHoldKept(s: State, e: Event, r: nat)
    requires Enabled(s, e) && !e.Tick? && e.id in s.lookups && ShapeOf(s.lookups[e.id], |s.resolvers|, s.clock)
    requires r in Held(s.lookups[e.id]) && !(e.Release? && Touched(s, e) == Some(r))
    ensures r in Held(LookupAfter(s, e))
  {
    var l, l' := s.lookups[e.id], LookupAfter(s, e);
    match e
    case Release(_) =>
      assert l.claimed[l.phase.pos..] == [l.claimed[l.phase.pos]] + l'.claimed[l'.phase.pos..];
    case Claim(_) =>
      assert l.claimed <= l'.claimed;
    case _ =>
  }

  lemma HoldKept(s: State, e: Event, id: nat, r: nat)
    requires Shape(s) && Enabled(s, e) && Holds(s, id, r)
    requires r < |s.resolvers| && Next(s, e).resolvers[r].probing
    ensures Holds(Next(s, e), id, r)
  {
    if !e.Tick? && e.id == id {
      OwnHoldKept(s, e, r);
    }
  }

  lemma {:induction false} ProbingIsHeldReached(n: nat, es: seq<Event>)
    requires Exec(n, es).Some?
    ensures ProbingIsHeld(Exec(n, es).value)
  {
    if es != [] {
      ProbingIsHeldReached(n, es[..|es| - 1]);
      ShapeReached(n, es[..|es| - 1]);
      ProbingIsHeldKept(Exec(n, es[..|es| - 1]).value, es[|es| - 1]);
    }
  }

  lemma RefusedWhileProbed(s: State, r: nat, bound: int)
    requires Shape(s) && ProbingIsHeld(s) && Epochs(s) && Timely(s, bound) && bound < UPSTREAM_PAUSE && r < |s.resolvers|
    requires s.resolvers[r].pausedUntil.Some? && s.resolvers[r].pausedUntil.value <= s.clock
    ensures !MayClaim(s.resolvers[r], s.clock) <==> exists id :: Probes(s, id, r)
  {
    if s.resolvers[r].probing {
      var id :| Holds(s, id, r);
      assert ShapeOf(s.lookups[id], |s.resolvers|, s.clock);
      assert Probes(s, id, r);
    }
  }

  /** A lookup that starts now is refused by a resolver whose pause ran out exactly when another lookup
      is probing it; so a resolver nobody holds is always claimable again. */
  lemma {:induction false} RefusedIffProbed(n: nat, es: seq<Event>, bound: int, r: nat)
    requires Exec(n, es).Some? && Within(n, es, bound) && bound < UPSTREAM_PAUSE
    requires r < n
    ensures var s := Exec(n, es).value;
            && |s.resolvers| == n
            && (s.resolvers[r].pausedUntil.Some? && s.resolvers[r].pausedUntil.value <= s.clock ==>
                  (!MayClaim(s.resolvers[r], s.clock) <==> exists id :: Probes(s, id, r)))
  {
    var s := Exec(n, es).value;
    ShapeReached(n, es);
    ProbingIsHeldReached(n, es);
    OneProbeReached(n, es, bound);
    if s.resolvers[r].pausedUntil.Some? && s.resolvers[r].pausedUntil.value <= s.clock {
      RefusedWhileProbed(s, r, bound);
    }
  }

  /** What the run last learned about a resolver; failures with the tunnel down teach nothing. */
  datatype Lesson = Nothing | Replied | Down(unreachable: bool, at: int)

  function LastLesson(n: nat, es: seq<Event>, r: nat): Lesson
    requires Exec(n, es).Some?
  {
    if es == [] then Nothing
    else
      var s, e := Exec(n, es[..|es| - 1]).value, es[|es| - 1];
      if Touched(s, e) == Some(r) && e.Answer? then Replied
      else if Touched(s, e) == Some(r) && e.Fail? && e.tunnelUp then Down(e.unreachable, s.clock)
      else LastLesson(n, es[..|es| - 1], r)
  }

  lemma LessonLearned(s: State, e: Event, r: nat)
    requires Enabled(s, e) && r < |s.resolvers|
    ensures var (u, u') := (s.resolvers[r], Next(s, e).resolvers[r]);
            if Touched(s, e) == Some(r) && e.Answer? then u'.pausedUntil == None && !u'.lastFailed
            else if Touched(s, e) == Some(r) && e.Fail? && e.tunnelUp then
              u'.lastFailed && u'.pausedUntil == if e.unreachable then Some(s.clock + UPSTREAM_PAUSE) else None
            else u'.pausedUntil == u.pausedUntil && u'.lastFailed == u.lastFailed
  {
  }

  /** In every run a resolver is paused exactly while the last thing learned about it is that it cannot be
      reached, until 10 s after that; its last-failed mark says whether the last thing was a failure. */
  lemma {:induction false} PauseIsLastLesson(n: nat, es: seq<Event>, r: nat)
    requires Exec(n, es).Some? && r < n
    ensures |Exec(n, es).value.resolvers| == n
    ensures var lesson := LastLesson(n, es, r);
            && Exec(n, es).value.resolvers[r].pausedUntil
               == (if lesson.Down? && lesson.unreachable then Some(lesson.at + 10 * SECOND) else None)
            && Exec(n, es).value.resolvers[r].lastFailed == lesson.Down?
  {
    ShapeReached(n, es);
    if es != [] {
      PauseIsLastLesson(n, es[..|es| - 1], r);
      LessonLearned(Exec(n, es[..|es| - 1]).value, es[|es| - 1], r);
    }
  }

  /** An event that finds a resolver unreachable while the tunnel is up. */
  predicate Pausing(e: Event) {
    e.Fail? && e.unreachable && e.tunnelUp
  }

  /** A lookup has claimed every resolver it has tried so far. */
  ghost predicate ClaimedAll(l: Lookup, n: nat) {
    var upTo := if l.phase.Claiming? then l.phase.next else n;
    |l.claimed| == upTo && forall i | 0 <= i < upTo :: l.claimed[i] == i
  }

  ghost predicate NothingPaused(s: State) {
    forall r | 0 <= r < |s.resolvers| :: s.resolvers[r].pausedUntil.None?
  }

  lemma NothingPausedKept(s: State, e: Event)
    requires Enabled(s, e) && NothingPaused(s) && !Pausing(e)
    ensures NothingPaused(Next(s, e))
    ensures forall id | id in s.lookups && ClaimedAll(s.lookups[id], |s.resolvers|) :: ClaimedAll(Next(s, e).lookups[id], |s.resolvers|)
  {
  }

  /** Without such events nothing is ever paused and every lookup claims every resolver. */
  lemma {:induction false} AllClaimedWithoutPauses(n: nat, es: seq<Event>)
    requires Exec(n, es).Some? && forall e | e in es :: !Pausing(e)
    ensures |Exec(n, es).value.resolvers| == n && NothingPaused(Exec(n, es).value)
    ensures forall id | id in Exec(n, es).value.lookups :: ClaimedAll(Exec(n, es).value.lookups[id], n)
  {
    if es != [] {
      var before, e := es[..|es| - 1], es[|es| - 1];
      assert e in es;
      AllClaimedWithoutPauses(n, before);
      ShapeReached(n, es);
      NothingPausedKept(Exec(n, before).value, e);
    }
  }

  // ---------------------------------------------------------------- accounting

  /** The lookups that have finished their walk over the resolvers. */
  ghost function Walked(s: State): set<nat> {
    set id | id in s.lookups && s.lookups[id].end.Some?
  }

  predicate AnsweredBy(l: Lookup, r: nat) {
    l.end.Some? && !l.end.value.NoAnswer? && l.end.value.who == r
  }

  ghost function Answers(s: State, r: nat): set<nat> {
    set id | id in s.lookups && AnsweredBy(s.lookups[id], r)
  }

  ghost function Failures(s: State, r: nat): set<nat> {
    set id | id in s.lookups && r in s.lookups[id].failed
  }

  function TotalOk(rs: seq<Resolver>): nat {
    if rs == [] then 0 else TotalOk(rs[..|rs| - 1]) + rs[|rs| - 1].ok
  }

  lemma {:induction false} TotalOkUpdate(rs: seq<Resolver>, i: nat, r: Resolver)
    requires i < |rs|
    ensures TotalOk(rs[i := r]) == TotalOk(rs) - rs[i].ok + r.ok
  {
    var last := |rs| - 1;
    if i == last {
      assert rs[i := r][..last] == rs[..last];
    } else {
      TotalOkUpdate(rs[..last], i, r);
      assert rs[i := r][..last] == rs[..last][i := r];
    }
  }

  lemma {:induction false} TotalOkFresh(n: nat)
    ensures TotalOk(seq(n, i => FRESH)) == 0
  {
    if n > 0 {
      TotalOkFresh(n - 1);
      assert seq(n, i => FRESH)[..n - 1] == seq(n - 1, i => FRESH);
    }
  }

  /** Only the end of a walk adds a walked lookup. */
  lemma WalkedAfter(s: State, e: Event)
    requires Shape(s) && Enabled(s, e)
    ensures Walked(Next(s, e)) == if e.Answer? || e.FallBack? then Walked(s) + {e.id} else Walked(s)
    ensures e.Answer? || e.FallBack? ==> e.id !in Walked(s)
  {
    var s' := Next(s, e);
    if !e.Tick? {
      assert forall id | id != e.id :: id in Walked(s') <==> id in Walked(s);
      if e.id in s.lookups {
        assert ShapeOf(s.lookups[e.id], |s.resolvers|, s.clock);
      }
    }
  }

  /** ... and it adds one answer or one fallback with it. */
  lemma OkAfter(s: State, e: Event)
    requires Enabled(s, e)
    ensures TotalOk(Next(s, e).resolvers) == TotalOk(s.resolvers) + if e.Answer? then 1 else 0
  {
    if Touched(s, e).Some? {
      TotalOkUpdate(s.resolvers, Touched(s, e).value, ResolverAfter(s, e));
    }
  }

  lemma WalkedKept(s: State, e: Event)
    requires Shape(s) && Enabled(s, e)
    requires TotalOk(s.resolvers) + s.fallbacks == |Walked(s)|
    ensures TotalOk(Next(s, e).resolvers) + Next(s, e).fallbacks == |Walked(Next(s, e))|
  {
    WalkedAfter(s, e);
    OkAfter(s, e);
  }

  /** A lookup gets its answer once, from the resolver it asks. */
  lemma AnswerFrom(s: State, e: Event, r: nat)
    requires Shape(s) && Enabled(s, e) && !e.Tick?
    ensures AnsweredBy(LookupAfter(s, e), r) <==> (e.Answer? && Touched(s, e) == Some(r)) || e.id in Answers(s, r)
    ensures e.Answer? ==> e.id !in Answers(s, r)
  {
    if e.id in s.lookups {
      assert ShapeOf(s.lookups[e.id], |s.resolvers|, s.clock);
    }
  }

  lemma CountersFrom(s: State, e: Event, r: nat)
    requires Enabled(s, e) && r < |s.resolvers|
    ensures Next(s, e).resolvers[r].ok == s.resolvers[r].ok + if e.Answer? && Touched(s, e) == Some(r) then 1 else 0
    ensures Next(s, e).resolvers[r].fail
         == s.resolvers[r].fail + if e.Fail? && e.tunnelUp && Touched(s, e) == Some(r) then 1 else 0
  {
  }

  lemma AnswersKept(s: State, e: Event, r: nat)
    requires Shape(s) && Enabled(s, e) && r < |s.resolvers|
    requires s.resolvers[r].ok == |Answers(s, r)|
    ensures Next(s, e).resolvers[r].ok == |Answers(Next(s, e), r)|
  {
    CountersFrom(s, e, r);
    if e.Tick? {
      assert Answers(Next(s, e), r) == Answers(s, r);
    } else {
      AnswerFrom(s, e, r);
      if e.Answer? && Touched(s, e) == Some(r) {
        assert Answers(Next(s, e), r) == Answers(s, r) + {e.id};
      } else {
        assert Answers(Next(s, e), r) == Answers(s, r);
      }
    }
  }

  /** A lookup puts a failure on the resolver it asks, and never a second one. */
  lemma FailureFrom(s: State, e: Event, r: nat)
    requires Shape(s) && Enabled(s, e) && !e.Tick?
    ensures r in LookupAfter(s, e).failed <==> (e.Fail? && e.tunnelUp && Touched(s, e) == Some(r)) || e.id in Failures(s, r)
    ensures e.Fail? && Touched(s, e) == Some(r) ==> e.id !in Failures(s, r)
  {
    if e.id in s.lookups {
      assert ShapeOf(s.lookups[e.id], |s.resolvers|, s.clock);
    }
  }

  lemma FailuresKept(s: State, e: Event, r: nat)
    requires Shape(s) && Enabled(s, e) && r < |s.resolvers|
    requires s.resolvers[r].fail == |Failures(s, r)|
    ensures Next(s, e).resolvers[r].fail == |Failures(Next(s, e), r)|
  {
    CountersFrom(s, e, r);
    if e.Tick? {
      assert Failures(Next(s, e), r) == Failures(s, r);
    } else {
      FailureFrom(s, e, r);
      if e.Fail? && e.tunnelUp && Touched(s, e) == Some(r) {
        assert Failures(Next(s, e), r) == Failures(s, r) + {e.id};
      } else {
        assert Failures(Next(s, e), r) == Failures(s, r);
      }
    }
  }

  /** Every finished walk is one answer of one resolver or one fallback, and a resolver's counters
      count lookups: none is in both, none is in either twice. */
  lemma {:induction false} Accounting(n: nat, es: seq<Event>)
    requires Exec(n, es).Some?
    ensures |Exec(n, es).value.resolvers| == n
    ensures TotalOk(Exec(n, es).value.resolvers) + Exec(n, es).value.fallbacks == |Walked(Exec(n, es).value)|
    ensures forall r | 0 <= r < n ::
              && Exec(n, es).value.resolvers[r].ok == |Answers(Exec(n, es).value, r)|
              && Exec(n, es).value.resolvers[r].fail == |Failures(Exec(n, es).value, r)|
              && Answers(Exec(n, es).value, r) !! Failures(Exec(n, es).value, r)
  {
    var s := Exec(n, es).value;
    ShapeReached(n, es);
    if es == [] {
      TotalOkFresh(n);
      assert Walked(s) == {} && forall r | 0 <= r < n :: Answers(s, r) == {} && Failures(s, r) == {};
    } else {
      var before, e := es[..|es| - 1], es[|es| - 1];
      Accounting(n, before);
      ShapeReached(n, before);
      WalkedKept(Exec(n, before).value, e);
      forall r | 0 <= r < n
        ensures s.resolvers[r].ok == |Answers(s, r)| && s.resolvers[r].fail == |Failures(s, r)|
      {
        AnswersKept(Exec(n, before).value, e, r);
        FailuresKept(Exec(n, before).value, e, r);
      }
      forall r, id | 0 <= r < n && id in Answers(s, r)
        ensures id !in Failures(s, r)
      {
        assert ShapeOf(s.lookups[id], n, s.clock);
      }
    }
  }
}
