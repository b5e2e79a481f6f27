/** The shared connection limit (listener.go: connLimiter, limitListener, limitedConn). One slot pool serves
    every proxy listener. First the pool as a machine over all interleavings, then the objects. */
module Limiter {
  import opened Basics

  // ---------------------------------------------------------------- interleaved listeners and closes

  /** Try: listener `l` calls tryAcquire; Wrap: it hands out the connection for the slot it took;
      Close: some goroutine closes connection `c`, perhaps not for the first time. */
  datatype Event = Try(l: nat) | Wrap(l: nat) | Close(c: nat)

  /** `taken`: listeners between their tryAcquire and the hand-out; connections are numbered as handed out. */
  datatype State = State(slots: nat, taken: set<nat>, handed: nat, retired: set<nat>)

  predicate Enabled(s: State, e: Event) {
    match e
    case Try(l) => l !in s.taken
    case Wrap(l) => l in s.taken
    case Close(c) => c < s.handed
  }

  /** release would wait for ever on an empty channel. */
  predicate Blocks(s: State, e: Event) {
    e.Close? && e.c !in s.retired && s.slots == 0
  }

  function Next(limit: nat, s: State, e: Event): State
    requires Enabled(s, e) && !Blocks(s, e)
  {
    match e
    case Try(l) => if s.slots < limit then s.(slots := s.slots + 1, taken := s.taken + {l}) else s
    case Wrap(l) => s.(taken := s.taken - {l}, handed := s.handed + 1)
    case Close(c) => if c in s.retired then s else s.(slots := s.slots - 1, retired := s.retired + {c})
  }

  /** None when some step is not one the program can take or would block. */
  function Exec(limit: nat, es: seq<Event>): Option<State> {
    if es == [] then Some(State(0, {}, 0, {}))
    else
      var before := Exec(limit, es[..|es| - 1]);
      var e := es[|es| - 1];
      if before.None? || !Enabled(before.value, e) || Blocks(before.value, e) then None
      else Some(Next(limit, before.value, e))
  }

  /** Connections handed out, and connections closed at least once, read off the run. */
  function HandedOut(es: seq<Event>): nat {
    if es == [] then 0 else HandedOut(es[..|es| - 1]) + if es[|es| - 1].Wrap? then 1 else 0
  }

  function ClosedOnce(es: seq<Event>): set<nat> {
    if es == [] then {} else ClosedOnce(es[..|es| - 1]) + if es[|es| - 1].Close? then {es[|es| - 1].c} else {}
  }

  lemma RetiredFit(retired: set<nat>, handed: nat)
    requires forall c | c in retired :: c < handed
    ensures |retired| <= handed
    ensures (exists c: nat :: c < handed && c !in retired) ==> |retired| < handed
    decreases handed
  {
    if handed == 0 {
      assert retired == {};
    } else {
      var last := handed - 1;
      var rest := retired - {last};
      RetiredFit(rest, last);
      if last in retired {
        assert retired == rest + {last};
        if c: nat :| c < handed && c !in retired {
          assert c < last && c !in rest;
        }
      } else {
        assert retired == rest;
      }
    }
  }

  ghost predicate Balanced(limit: nat, s: State) {
    && (forall c | c in s.retired :: c < s.handed)
    && s.slots == |s.taken| + s.handed - |s.retired|
    && s.slots <= limit
  }

  lemma BalancedKept(limit: nat, s: State, e: Event)
    requires Balanced(limit, s) && Enabled(s, e) && !Blocks(s, e)
    ensures Balanced(limit, Next(limit, s, e))
  {
  }

  /** In every run the occupied slots are the listeners holding one plus the connections handed out and not
      yet closed, and never more than the limit. */
  lemma {:induction false} SlotsAreConnections(limit: nat, es: seq<Event>)
    requires Exec(limit, es).Some?
    ensures var s := Exec(limit, es).value;
            && Balanced(limit, s)
            && s.handed == HandedOut(es) && s.retired == ClosedOnce(es)
            && s.slots == |s.taken| + HandedOut(es) - |ClosedOnce(es)| <= limit
  {
    if es != [] {
      SlotsAreConnections(limit, es[..|es| - 1]);
      var s, e := Exec(limit, es[..|es| - 1]).value, es[|es| - 1];
      BalancedKept(limit, s, e);
      assert e.Close? && e.c in s.retired ==> s.retired + {e.c} == s.retired;
    }
  }

  /** A first Close always finds a slot to give back: no enabled step of any run blocks. */
  lemma CloseNeverBlocks(limit: nat, es: seq<Event>, e: Event)
    requires Exec(limit, es).Some? && Enabled(Exec(limit, es).value, e)
    ensures !Blocks(Exec(limit, es).value, e) && Exec(limit, es + [e]).Some?
  {
    SlotsAreConnections(limit, es);
    var s := Exec(limit, es).value;
    if e.Close? && e.c !in s.retired {
      RetiredFit(s.retired, s.handed);
    }
    assert (es + [e])[..|es|] == es;
  }

  /** A connection is refused exactly when `limit` of them are open or about to be handed out, and a refusal
      changes nothing. */
  lemma {:induction false} RefusedIffFull(limit: nat, es: seq<Event>, l: nat)
    requires Exec(limit, es).Some? && Enabled(Exec(limit, es).value, Try(l))
    ensures var s := Exec(limit, es).value;
            var t := Next(limit, s, Try(l));
            && (l !in t.taken <==> |s.taken| + HandedOut(es) - |ClosedOnce(es)| == limit)
            && (l !in t.taken ==> t == s)
  {
    SlotsAreConnections(limit, es);
  }

  /** Nothing leaks: once every connection handed out was closed, the whole pool is free again. */
  lemma AllClosedAllFree(limit: nat, es: seq<Event>)
    requires Exec(limit, es).Some? && Exec(limit, es).value.taken == {}
    requires forall c: nat | c < HandedOut(es) :: c in ClosedOnce(es)
    ensures Exec(limit, es).value.slots == 0
  {
    SlotsAreConnections(limit, es);
    NumbersBelow(HandedOut(es), ClosedOnce(es));
  }

  lemma {:induction false} NumbersBelow(n: nat, all: set<nat>)
    requires forall c: nat | c < n :: c in all
    ensures |all| >= n
  {
    if n > 0 {
      NumbersBelow(n - 1, all - {n - 1});
      assert all == (all - {n - 1}) + {n - 1};
    }
  }

  // ---------------------------------------------------------------- the objects

  class ConnLimiter {
    const capacity: nat
    var slots: nat

    /** The connections that have not given their slot back. */
    ghost var holders: set<LimitedConn>

    ghost predicate Valid()
      reads this, holders
    {
      && slots == |holders| <= capacity
      && forall c | c in holders :: c.limit == this && !c.done
    }

    constructor (n: nat)
      ensures Valid() && capacity == n && holders == {}
    {
      capacity, slots, holders := n, 0, {};
    }

    /** tryAcquire and the wrapping of the connection that takes the slot. */
    method TryWrap() returns (c: LimitedConn?)
      requires Valid()
      modifies this`slots, this`holders
      ensures Valid()
      ensures c == null <==> |old(holders)| == capacity
      ensures c == null ==> holders == old(holders)
      ensures c != null ==> fresh(c) && c.Valid() && c.limit == this && holders == old(holders) + {c}
    {
      if slots == capacity {
        return null;
      }
      slots := slots + 1;
      c := new LimitedConn(this);
      holders := holders + {c};
    }
  }

  class LimitedConn {
    const limit: ConnLimiter
    var done: bool

    ghost predicate Valid()
      reads this, limit
    {
      !done <==> this in limit.holders
    }

    constructor (limit: ConnLimiter)
      ensures this.limit == limit && !done
    {
      this.limit, done := limit, false;
    }

    /** Close: the first one gives the slot back, every later one changes nothing. */
    method Close()
      requires Valid() && limit.Valid()
      modifies this`done, limit`slots, limit`holders
      ensures Valid() && limit.Valid() && done
      ensures limit.holders == old(limit.holders) - {this}
    {
      if !done {
        done := true;
        limit.holders := limit.holders - {this};
        limit.slots := limit.slots - 1;
      }
    }
  }

  /** newConnLimiter: no limiter, which means no limit, unless n is positive. */
  method NewConnLimiter(n: int) returns (l: ConnLimiter?)
    ensures l == null <==> n <= 0
    ensures l != null ==> fresh(l) && l.Valid() && l.capacity == n && l.holders == {}
  {
    if n <= 0 {
      return null;
    }
    l := new ConnLimiter(n);
  }

  // ---------------------------------------------------------------- one call of Accept

  ghost function Members(cs: seq<LimitedConn>): set<LimitedConn> {
    set c | c in cs
  }

  /** What is left of `held` once others have closed what they close before the arrivals 0 .. k - 1. */
  ghost function Left(held: set<LimitedConn>, closing: seq<seq<LimitedConn>>, k: nat): set<LimitedConn>
    requires k <= |closing|
  {
    if k == 0 then held else Left(held, closing, k - 1) - Members(closing[k - 1])
  }

  ghost predicate UseLimit(limit: ConnLimiter, cs: set<LimitedConn>)
    reads limit, cs
  {
    forall c | c in cs :: c.limit == limit && c.Valid()
  }

  /** `all` are connections whose owners may still close them. */
  method CloseEach(limit: ConnLimiter, cs: seq<LimitedConn>, ghost all: set<LimitedConn>)
    requires limit.Valid() && Members(cs) <= all && UseLimit(limit, all)
    modifies limit`slots, limit`holders, all
    ensures limit.Valid() && UseLimit(limit, all)
    ensures limit.holders == old(limit.holders) - Members(cs)
  {
    for i := 0 to |cs|
      invariant limit.Valid() && UseLimit(limit, all)
      invariant limit.holders == old(limit.holders) - Members(cs[..i])
    {
      assert cs[i] in Members(cs);
      assert Members(cs[..i + 1]) == Members(cs[..i]) + {cs[i]};
      cs[i].Close();
    }
    assert cs[..|cs|] == cs;
  }

  method Answer(limit: ConnLimiter, cs: seq<LimitedConn>, ghost all: set<LimitedConn>) returns (c: LimitedConn?)
    requires limit.Valid() && Members(cs) <= all && UseLimit(limit, all)
    modifies limit`slots, limit`holders, all
    ensures limit.Valid() && UseLimit(limit, all)
    ensures c == null <==> |old(limit.holders) - Members(cs)| == limit.capacity
    ensures c == null ==> limit.holders == old(limit.holders) - Members(cs)
    ensures c != null ==> |old(limit.holders) - Members(cs)| < limit.capacity
    ensures c != null ==> fresh(c) && c.limit == limit && c.Valid()
                          && limit.holders == old(limit.holders) - Members(cs) + {c}
  {
    CloseEach(limit, cs, all);
    c := limit.TryWrap();
  }

  /** limitListener.Accept. Before arrival i is answered, others close closing[i]; after the last arrival
      the listener fails. The arrivals refused are exactly those that find the pool full, and the first
      that does not is handed out. */
  method Accept(limit: ConnLimiter, closing: seq<seq<LimitedConn>>, ghost all: set<LimitedConn>)
    returns (c: LimitedConn?, refused: nat)
    requires limit.Valid() && UseLimit(limit, all)
    requires forall i | 0 <= i < |closing| :: Members(closing[i]) <= all
    modifies limit`slots, limit`holders, all
    ensures limit.Valid() && refused <= |closing|
    ensures c == null <==> refused == |closing|
    ensures forall k | 1 <= k <= refused :: |Left(old(limit.holders), closing, k)| == limit.capacity
    ensures c == null ==> limit.holders == Left(old(limit.holders), closing, refused)
    ensures c != null ==> |Left(old(limit.holders), closing, refused + 1)| < limit.capacity
    ensures c != null ==>
              fresh(c) && c.limit == limit && c.Valid()
              && limit.holders == Left(old(limit.holders), closing, refused + 1) + {c}
  {
    refused := 0;
    while refused < |closing|
      invariant refused <= |closing|
      invariant limit.Valid() && UseLimit(limit, all)
      invariant limit.holders == Left(old(limit.holders), closing, refused)
      invariant forall k | 1 <= k <= refused :: |Left(old(limit.holders), closing, k)| == limit.capacity
    {
      c := Answer(limit, closing[refused], all);
      if c != null {
        return;
      }
      refused := refused + 1;
    }
    c := null;
  }
}
