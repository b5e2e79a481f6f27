/** How often lookups wait for a tunnel resolver that cannot be reached (dns.go: claim, upstreamFailed, upstreamPause),
    over all interleavings: the promise of the DNS section of the README, one wait per pause. */
module Waits {
  import opened Basics
  import opened Resolvers
  import opened LookupRuns

  /** A lookup that captured its time at `start` gave up on the resolver at time `at`. */
  datatype Wait = Wait(start: int, at: int)

  predicate GivesUpOn(s: State, e: Event, r: nat)
    requires Enabled(s, e)
  {
    Touched(s, e) == Some(r) && e.Fail? && e.tunnelUp && e.unreachable
  }

  /** Any other sign of the resolver: an answer, or a failure after it was reached. */
  predicate HearsFrom(s: State, e: Event, r: nat)
    requires Enabled(s, e)
  {
    Touched(s, e) == Some(r) && (e.Answer? || (e.Fail? && e.tunnelUp && !e.unreachable))
  }

  /** The waits in vain for r since it was last heard from. */
  function InVain(n: nat, es: seq<Event>, r: nat): seq<Wait>
    requires Exec(n, es).Some?
  {
    if es == [] then []
    else
      var s, e := Exec(n, es[..|es| - 1]).value, es[|es| - 1];
      var before := InVain(n, es[..|es| - 1], r);
      if GivesUpOn(s, e, r) then before + [Wait(s.lookups[e.id].start, s.clock)]
      else if HearsFrom(s, e, r) then []
      else before
  }

  /** The resolver is paused for 10 s from the last of them. */
  ghost predicate PauseMatches(s: State, r: nat, ws: seq<Wait>) {
    && r < |s.resolvers|
    && s.resolvers[r].pausedUntil == (if ws == [] then None else Some(ws[|ws| - 1].at + UPSTREAM_PAUSE))
    && (forall i | 0 <= i < |ws| :: ws[i].at <= s.clock)
    && (forall i, j | 0 <= i < j < |ws| :: ws[i].at <= ws[j].at)
  }

  lemma {:induction false} PauseFollowsWaits(n: nat, es: seq<Event>, r: nat)
    requires Exec(n, es).Some? && r < n
    ensures PauseMatches(Exec(n, es).value, r, InVain(n, es, r))
  {
    ShapeReached(n, es);
    if es != [] {
      var before := es[..|es| - 1];
      ShapeReached(n, before);
      PauseFollowsWaits(n, before, r);
      LessonLearned(Exec(n, before).value, es[|es| - 1], r);
    }
  }

  /** Lookup id holds r and has not given up on it. */
  ghost predicate MayAsk(s: State, id: nat, r: nat) {
    id in s.lookups && r in Held(s.lookups[id]) && r !in s.lookups[id].failed
  }

  /** Whoever may still ask a resolver that is given up on was under way at the first of the waits, or probes it. */
  ghost predicate Settled(s: State, r: nat, ws: seq<Wait>) {
    ws != [] ==> forall id | MayAsk(s, id, r) :: s.lookups[id].start <= ws[0].at || Probes(s, id, r)
  }

  /** A lookup that gives up on r was one of those. */
  lemma GivesUpOnce(s: State, e: Event, r: nat)
    requires Shape(s) && Enabled(s, e) && GivesUpOn(s, e, r)
    ensures MayAsk(s, e.id, r) && r in LookupAfter(s, e).failed
  {
    var l := s.lookups[e.id];
    assert ShapeOf(l, |s.resolvers|, s.clock);
    assert l.claimed[l.phase.pos] == r;
  }

  /** ... and nobody else probes r then: a lookup from before the first wait has ended by the time of a probe. */
  lemma NoOtherProbe(s: State, e: Event, r: nat, ws: seq<Wait>, id: nat, bound: int)
    requires Shape(s) && Enabled(s, e) && GivesUpOn(s, e, r) && ws != [] && PauseMatches(s, r, ws) && Settled(s, r, ws)
    requires OneProbe(s) && Timely(s, bound) && bound < UPSTREAM_PAUSE
    requires Probes(s, id, r)
    ensures id == e.id
  {
    GivesUpOnce(s, e, r);
    assert ShapeOf(s.lookups[id], |s.resolvers|, s.clock);
  }

  lemma SettledByGivingUp(s: State, e: Event, r: nat, ws: seq<Wait>, bound: int)
    requires Shape(s) && Enabled(s, e) && GivesUpOn(s, e, r) && PauseMatches(s, r, ws) && Settled(s, r, ws)
    requires OneProbe(s) && Timely(s, bound) && bound < UPSTREAM_PAUSE
    ensures Settled(Next(s, e), r, ws + [Wait(s.lookups[e.id].start, s.clock)])
  {
    var s', ws' := Next(s, e), ws + [Wait(s.lookups[e.id].start, s.clock)];
    GivesUpOnce(s, e, r);
    forall id | MayAsk(s', id, r)
      ensures s'.lookups[id].start <= ws'[0].at
    {
      assert id != e.id;
      assert ShapeOf(s.lookups[id], |s.resolvers|, s.clock);
      if ws != [] && Probes(s, id, r) {
        NoOtherProbe(s, e, r, ws, id, bound);
      }
    }
  }

  lemma SettledKept(s: State, e: Event, r: nat, ws: seq<Wait>)
    requires Shape(s) && Enabled(s, e) && PauseMatches(s, r, ws) && Settled(s, r, ws)
    requires !GivesUpOn(s, e, r) && !HearsFrom(s, e, r)
    ensures Settled(Next(s, e), r, ws)
  {
    var s' := Next(s, e);
    if ws != [] {
      LessonLearned(s, e, r);
      forall id | MayAsk(s', id, r)
        ensures s'.lookups[id].start <= ws[0].at || Probes(s', id, r)
      {
        HeldFrom(s, e, id, r);
        OnlyMoreFailures(s, e, id);
      }
    }
  }

  lemma OnlyMoreFailures(s: State, e: Event, id: nat)
    requires Enabled(s, e) && id in s.lookups
    ensures s.lookups[id].failed <= Next(s, e).lookups[id].failed
  {
  }

  /** Every wait in vain is of a lookup under way at the first, or began a pause after all before it. */
  ghost predicate Spaced(ws: seq<Wait>) {
    forall i, j | 0 <= i < j < |ws| :: ws[j].start <= ws[0].at || ws[i].at + UPSTREAM_PAUSE <= ws[j].start
  }

  lemma {:induction false} WaitsReached(n: nat, es: seq<Event>, r: nat, bound: int)
    requires Exec(n, es).Some? && Within(n, es, bound) && bound < UPSTREAM_PAUSE && r < n
    ensures Settled(Exec(n, es).value, r, InVain(n, es, r)) && Spaced(InVain(n, es, r))
  {
    if es != [] {
      var before, e := es[..|es| - 1], es[|es| - 1];
      var s, ws := Exec(n, before).value, InVain(n, before, r);
      WaitsReached(n, before, r, bound);
      ShapeReached(n, before);
      OneProbeReached(n, before, bound);
      PauseFollowsWaits(n, before, r);
      if GivesUpOn(s, e, r) {
        GivesUpOnce(s, e, r);
        SettledByGivingUp(s, e, r, ws, bound);
      } else if !HearsFrom(s, e, r) {
        SettledKept(s, e, r, ws);
      }
    }
  }

  /** A resolver that cannot be reached costs one wait per pause: in every run of lookups shorter than the pause,
      apart from the lookups under way when it was first given up on, two waits for it end at least 10 s apart. */
  lemma {:induction false} OneWaitPerPause(n: nat, es: seq<Event>, r: nat, bound: int, i: nat, j: nat)
    requires Exec(n, es).Some? && Within(n, es, bound) && bound < UPSTREAM_PAUSE && r < n
    requires i < j < |InVain(n, es, r)| && InVain(n, es, r)[0].at < InVain(n, es, r)[j].start
    ensures InVain(n, es, r)[i].at + 10 * SECOND <= InVain(n, es, r)[j].start <= InVain(n, es, r)[j].at
  {
    WaitsReached(n, es, r, bound);
    StartsBeforeEnd(n, es, r, j);
  }

  lemma {:induction false} StartsBeforeEnd(n: nat, es: seq<Event>, r: nat, j: nat)
    requires Exec(n, es).Some? && j < |InVain(n, es, r)|
    ensures InVain(n, es, r)[j].start <= InVain(n, es, r)[j].at
  {
    var before, e := es[..|es| - 1], es[|es| - 1];
    ShapeReached(n, before);
    if j < |InVain(n, before, r)| {
      StartsBeforeEnd(n, before, r, j);
    } else {
      assert ShapeOf(Exec(n, before).value.lookups[e.id], n, Exec(n, before).value.clock);
    }
  }

  // ---------------------------------------------------------------- and only then

  lemma GaveUp(es: seq<Event>, id: nat, bound: int) returns (es': seq<Event>)
    requires Exec(1, es).Some? && Within(1, es, bound) && Timely(Exec(1, es).value, bound)
    requires var s := Exec(1, es).value;
             |s.resolvers| == 1 && id in s.lookups && s.lookups[id] == Lookup(s.clock, [0], Walking(0), None, {})
    ensures Exec(1, es') == Some(Next(Exec(1, es).value, Fail(id, true, true))) && Within(1, es', bound)
    ensures InVain(1, es', 0) == InVain(1, es, 0) + [Wait(Exec(1, es).value.clock, Exec(1, es).value.clock)]
  {
    es' := es + [Fail(id, true, true)];
    assert es'[..|es|] == es;
  }

  /** Lookups as long as the pause can wait twice at once. */
  lemma {:induction false} SlowRunWaitsTwice(bound: int) returns (es: seq<Event>)
    requires UPSTREAM_PAUSE <= bound
    ensures Exec(1, es).Some? && Within(1, es, bound) && !Spaced(InVain(1, es, 0))
  {
    es := SlowRunProbesTwice(bound);
    PauseFollowsWaits(1, es, 0);
    var s, ws := Exec(1, es).value, InVain(1, es, 0);
    es := GaveUp(es, 3, bound);
    es := GaveUp(es, 4, bound);
    var ws' := InVain(1, es, 0);
    assert ws'[|ws|].at == ws'[|ws| + 1].start == s.clock && ws'[0] == ws[0];
  }

  /** Exactly: waits are a pause apart in all runs of lookups bounded by `bound` if and only if that is below the
      pause. */
  lemma SpacedIffShorterThanPause(bound: int)
    ensures (forall n: nat, es: seq<Event>, r: nat | Exec(n, es).Some? && Within(n, es, bound) && r < n ::
               Spaced(InVain(n, es, r)))
            <==> bound < UPSTREAM_PAUSE
  {
    if bound < UPSTREAM_PAUSE {
      forall n: nat, es: seq<Event>, r: nat | Exec(n, es).Some? && Within(n, es, bound) && r < n
        ensures Spaced(InVain(n, es, r))
      {
        WaitsReached(n, es, r, bound);
      }
    } else {
      var es := SlowRunWaitsTwice(bound);
    }
  }
}
