/** One tunnel resolver (type upstream of dns.go) as its mutex protects it. Each function is the
    effect of one mutex section; class Upstream performs them in place, and module LookupRuns
    interleaves them. */
module Resolvers {
  import opened Basics

  /** How long lookups skip a resolver no channel could be opened to. */
  const UPSTREAM_PAUSE: int := 10 * SECOND

  /** pausedUntil is None where the source holds the zero time. */
  datatype Resolver = Resolver(pausedUntil: Option<int>, probing: bool, ok: nat, fail: nat, lastFailed: bool)

  const FRESH: Resolver := Resolver(None, false, 0, 0, false)

  predicate MayClaim(r: Resolver, now: int) {
    r.pausedUntil.None? || (!r.probing && r.pausedUntil.value <= now)
  }

  function Claimed(r: Resolver, now: int): Resolver {
    if MayClaim(r, now) && r.pausedUntil.Some? then r.(probing := true) else r
  }

  function Released(r: Resolver): Resolver {
    r.(probing := false)
  }

  function Answered(r: Resolver): Resolver {
    r.(pausedUntil := None, ok := r.ok + 1, lastFailed := false)
  }

  function Failed(r: Resolver, unreachable: bool, tunnelUp: bool, now: int): Resolver {
    if !tunnelUp then r
    else
      r.(fail := r.fail + 1,
         lastFailed := true,
         pausedUntil := if unreachable then Some(now + UPSTREAM_PAUSE) else None)
  }

  /** The resolver object: the methods of type upstream, each one mutex section. */
  class Upstream {
    var pausedUntil: Option<int>
    var probing: bool
    var ok: nat
    var fail: nat
    var lastFailed: bool

    function View(): Resolver
      reads this
    {
      Resolver(pausedUntil, probing, ok, fail, lastFailed)
    }

    constructor ()
      ensures View() == FRESH
    {
      pausedUntil, probing, ok, fail, lastFailed := None, false, 0, 0, false;
    }

    method Claim(now: int) returns (granted: bool)
      modifies this
      ensures granted == MayClaim(old(View()), now)
      ensures View() == Claimed(old(View()), now)
    {
      if pausedUntil.None? {
        return true;
      }
      if probing || now < pausedUntil.value {
        return false;
      }
      probing := true;
      return true;
    }

    method ReleaseProbe()
      modifies this
      ensures View() == Released(old(View()))
    {
      probing := false;
    }

    method Answer()
      modifies this
      ensures View() == Answered(old(View()))
    {
      pausedUntil := None;
      ok := ok + 1;
      lastFailed := false;
    }

    method Fail(unreachable: bool, tunnelUp: bool, now: int)
      modifies this
      ensures View() == Failed(old(View()), unreachable, tunnelUp, now)
    {
      if !tunnelUp {
        return;
      }
      fail := fail + 1;
      lastFailed := true;
      if !unreachable {
        pausedUntil := None;
        return;
      }
      pausedUntil := Some(now + UPSTREAM_PAUSE);
    }
  }
}
