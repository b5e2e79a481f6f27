/** The connection tracker (conntrack.go) as a state machine over its mutex sections: live records, the
    log of finished ones in the order they were pushed, and the dials in flight. Class ConnTracker holds
    the ring buffer and is proved against it. */
module Tracking {
  import opened Basics

  datatype Status = Dialing | Active | Closed | Error

  datatype Record = Record(id: nat, proto: string, src: string, host: string, dstIP: string, port: int,
                           status: Status, startedAt: int, closedAt: int, bytesUp: int, bytesDown: int, reason: string)

  /** What Begin is given. */
  datatype Meta = Meta(proto: string, src: string, host: string, dstIP: string, port: int)

  datatype State = State(active: map<nat, Record>, log: seq<Record>, nextID: nat)

  const EMPTY: State := State(map[], [], 0)

  function Began(s: State, m: Meta, now: int): State {
    var id := s.nextID + 1;
    s.(nextID := id,
       active := s.active[id := Record(id, m.proto, m.src, m.host, m.dstIP, m.port, Dialing, now, 0, 0, 0, "")])
  }

  function Established(s: State, id: nat): State {
    if id in s.active then s.(active := s.active[id := s.active[id].(status := Active)]) else s
  }

  /** Move a live record to the log, as `r`. */
  function Moved(s: State, id: nat, r: Record): State {
    s.(active := s.active - {id}, log := s.log + [r])
  }

  function Failed(s: State, id: nat, reason: string, now: int): State {
    if id in s.active then Moved(s, id, s.active[id].(status := Error, reason := reason, closedAt := now)) else s
  }

  function Finished(s: State, id: nat, up: int, down: int, err: Option<string>, now: int): State {
    if id in s.active then
      var r := s.active[id].(status := if err.Some? then Error else Closed, bytesUp := up, bytesDown := down, closedAt := now);
      Moved(s, id, if err.Some? then r.(reason := err.value) else r)
    else s
  }

  predicate IsStalled(r: Record, maxAge: int, now: int) {
    r.status.Dialing? && maxAge < now - r.startedAt
  }

  const DIAL_TIMEOUT_REASON: string := "dial timeout"

  function DroppedOne(s: State, id: nat, maxAge: int, now: int): State {
    if id in s.active && IsStalled(s.active[id], maxAge, now) then Failed(s, id, DIAL_TIMEOUT_REASON, now) else s
  }

  /** dropStalled, visiting the live ids in this order. */
  function Dropped(s: State, order: seq<nat>, maxAge: int, now: int): State {
    if order == [] then s
    else DroppedOne(Dropped(s, order[..|order| - 1], maxAge, now), order[|order| - 1], maxAge, now)
  }

  datatype Event =
    | Begin(m: Meta)
    | Done(id: nat)
    | Fail(id: nat, reason: string)
    | Close(id: nat, up: int, down: int, err: Option<string>)
    | DropStalled(order: seq<nat>)

  /** The state after an event at time `now`. */
  function Next(s: State, e: Event, maxAge: int, now: int): State {
    match e
    case Begin(m) => Began(s, m, now)
    case Done(id) => Established(s, id)
    case Fail(id, reason) => Failed(s, id, reason, now)
    case Close(id, up, down, err) => Finished(s, id, up, down, err, now)
    case DropStalled(order) => Dropped(s, order, maxAge, now)
  }

  // ---------------------------------------------------------------- what every operation keeps

  predicate Live(r: Record) {
    r.status.Dialing? || r.status.Active?
  }

  ghost function LogIds(log: seq<Record>): set<nat> {
    set i | 0 <= i < |log| :: log[i].id
  }

  ghost function UpTo(n: nat): (ids: set<nat>)
    ensures forall id :: id in ids <==> 1 <= id <= n
  {
    if n == 0 then {} else UpTo(n - 1) + {n}
  }

  /** Ids 1 to nextID are split between live and finished records; none is in both, none finished twice. */
  ghost predicate Conserved(s: State) {
    && s.active.Keys !! LogIds(s.log)
    && s.active.Keys + LogIds(s.log) == UpTo(s.nextID)
    && (forall i, j | 0 <= i < j < |s.log| :: s.log[i].id != s.log[j].id)
    && (forall id | id in s.active :: s.active[id].id == id && Live(s.active[id]))
    && (forall i | 0 <= i < |s.log| :: !Live(s.log[i]))
  }

  /** The log is in the order of closing, and nothing in it is later than the clock. */
  ghost predicate Chronological(s: State, clock: int) {
    && (forall i, j | 0 <= i < j < |s.log| :: s.log[i].closedAt <= s.log[j].closedAt)
    && (forall i | 0 <= i < |s.log| :: s.log[i].closedAt <= clock)
  }

  ghost predicate Known(s: State, r: Record) {
    r in s.log || (r.id in s.active && s.active[r.id] == r)
  }

  /** A record begun later has a later id and no earlier start. */
  ghost predicate StartsFollowIds(s: State, clock: int) {
    && (forall r | Known(s, r) :: r.startedAt <= clock && r.id <= s.nextID)
    && (forall a, b | Known(s, a) && Known(s, b) && a.id < b.id :: a.startedAt <= b.startedAt)
  }

  ghost predicate Inv(s: State, clock: int) {
    Conserved(s) && Chronological(s, clock) && StartsFollowIds(s, clock)
  }

  lemma LogIdsSnoc(log: seq<Record>, r: Record)
    ensures LogIds(log + [r]) == LogIds(log) + {r.id}
  {
    var longer := log + [r];
    assert forall i | 0 <= i < |log| :: longer[i] == log[i];
    assert longer[|log|] == r;
    forall x | x in LogIds(log)
      ensures x in LogIds(longer)
    {
      var i :| 0 <= i < |log| && log[i].id == x;
      assert longer[i].id == x;
    }
  }

  /** Every way for a record to finish is a move of a live record to the log. */
  lemma MovedKeeps(s: State, id: nat, r: Record, clock: int, now: int)
    requires Inv(s, clock) && clock <= now && id in s.active
    requires r.id == id && !Live(r) && r.startedAt == s.active[id].startedAt && r.closedAt == now
    ensures Inv(Moved(s, id, r), now)
  {
    MovedConserves(s, id, r);
    MovedStarts(s, id, r, clock);
  }

  lemma MovedConserves(s: State, id: nat, r: Record)
    requires Conserved(s) && id in s.active && r.id == id && !Live(r)
    ensures Conserved(Moved(s, id, r))
  {
    var s' := Moved(s, id, r);
    LogIdsSnoc(s.log, r);
    assert s'.active.Keys == s.active.Keys - {id};
    assert forall i | 0 <= i < |s.log| :: s.log[i].id in LogIds(s.log);
  }

  lemma MovedStarts(s: State, id: nat, r: Record, clock: int)
    requires StartsFollowIds(s, clock) && id in s.active && s.active[id].id == id
    requires r.id == id && r.startedAt == s.active[id].startedAt
    ensures StartsFollowIds(Moved(s, id, r), clock)
  {
    var s' := Moved(s, id, r);
    var was := s.active[id];
    assert Known(s, was);
    forall a, b | Known(s', a) && Known(s', b) && a.id < b.id
      ensures a.startedAt <= b.startedAt
    {
      var a', b' := if a == r then was else a, if b == r then was else b;
      assert Known(s, a') && Known(s, b');
    }
    forall a | Known(s', a)
      ensures a.startedAt <= clock && a.id <= s'.nextID
    {
      assert Known(s, if a == r then was else a);
    }
  }

  lemma FailedKeeps(s: State, id: nat, reason: string, clock: int, now: int)
    requires Inv(s, clock) && clock <= now
    ensures Inv(Failed(s, id, reason, now), now)
  {
    if id in s.active {
      MovedKeeps(s, id, s.active[id].(status := Error, reason := reason, closedAt := now), clock, now);
    }
  }

  lemma FinishedKeeps(s: State, id: nat, up: int, down: int, err: Option<string>, clock: int, now: int)
    requires Inv(s, clock) && clock <= now
    ensures Inv(Finished(s, id, up, down, err, now), now)
  {
    if id in s.active {
      var r := s.active[id].(status := if err.Some? then Error else Closed, bytesUp := up, bytesDown := down, closedAt := now);
      MovedKeeps(s, id, if err.Some? then r.(reason := err.value) else r, clock, now);
    }
  }

  lemma BeganKeeps(s: State, m: Meta, clock: int, now: int)
    requires Inv(s, clock) && clock <= now
    ensures Inv(Began(s, m, now), now)
  {
    BeganConserves(s, m, now);
    BeganStarts(s, m, clock, now);
  }

  lemma BeganConserves(s: State, m: Meta, now: int)
    requires Conserved(s)
    ensures Conserved(Began(s, m, now))
  {
    var s' := Began(s, m, now);
    var id := s.nextID + 1;
    assert s'.active.Keys == s.active.Keys + {id};
    assert UpTo(id) == UpTo(s.nextID) + {id};
    assert id !in UpTo(s.nextID);
  }

  lemma BeganStarts(s: State, m: Meta, clock: int, now: int)
    requires StartsFollowIds(s, clock) && clock <= now
    ensures StartsFollowIds(Began(s, m, now), now)
  {
    var s' := Began(s, m, now);
    forall x | Known(s', x)
      ensures x == s'.active[s'.nextID] || Known(s, x)
    {
    }
  }

  lemma EstablishedKeeps(s: State, id: nat, clock: int, now: int)
    requires Inv(s, clock) && clock <= now
    ensures Inv(Established(s, id), now)
  {
    var s' := Established(s, id);
    if id in s.active {
      assert s'.active.Keys == s.active.Keys;
      assert Known(s, s.active[id]);
      assert forall x | Known(s', x) :: x == s'.active[id] || Known(s, x);
    }
  }

  lemma {:induction false} DroppedKeeps(s: State, order: seq<nat>, maxAge: int, clock: int, now: int)
    requires Inv(s, clock) && clock <= now
    ensures Inv(Dropped(s, order, maxAge, now), now)
  {
    if order != [] {
      DroppedKeeps(s, order[..|order| - 1], maxAge, clock, now);
      var before := Dropped(s, order[..|order| - 1], maxAge, now);
      var id := order[|order| - 1];
      FailedKeeps(before, id, DIAL_TIMEOUT_REASON, now, now);
    }
  }

  lemma NextKeeps(s: State, e: Event, maxAge: int, clock: int, now: int)
    requires Inv(s, clock) && clock <= now
    ensures Inv(Next(s, e, maxAge, now), now)
  {
    match e
    case Begin(m) => BeganKeeps(s, m, clock, now);
    case Done(id) => EstablishedKeeps(s, id, clock, now);
    case Fail(id, reason) => FailedKeeps(s, id, reason, clock, now);
    case Close(id, up, down, err) => FinishedKeeps(s, id, up, down, err, clock, now);
    case DropStalled(order) => DroppedKeeps(s, order, maxAge, clock, now);
  }

  // ---------------------------------------------------------------- runs

  /** Events with the times they happen at. */
  datatype Timed = At(e: Event, now: int)

  ghost predicate Monotone(es: seq<Timed>) {
    forall i, j | 0 <= i < j < |es| :: es[i].now <= es[j].now
  }

  function Run(es: seq<Timed>, maxAge: int): State {
    if es == [] then EMPTY
    else Next(Run(es[..|es| - 1], maxAge), es[|es| - 1].e, maxAge, es[|es| - 1].now)
  }

  /** In every run, however Fail, repeated Close, dropStalled and a late Done interleave. */
  lemma {:induction false} Conservation(es: seq<Timed>, maxAge: int, clock: int)
    requires Monotone(es) && (es != [] ==> es[|es| - 1].now <= clock)
    ensures Inv(Run(es, maxAge), clock)
  {
    if es == [] {
      assert LogIds([]) == {} && UpTo(0) == {};
    } else {
      var last := es[|es| - 1];
      Conservation(es[..|es| - 1], maxAge, last.now);
      NextKeeps(Run(es[..|es| - 1], maxAge), last.e, maxAge, last.now, last.now);
    }
  }

  // ---------------------------------------------------------------- dials in flight

  /** The dials in flight after a run, with their start: Begin starts one, Done or Fail ends it (dialer.go,
      trackDial), whether or not its record is still there. */
  function InFlight(es: seq<Timed>, maxAge: int): map<nat, int> {
    if es == [] then map[]
    else
      var before, last := es[..|es| - 1], es[|es| - 1];
      match last.e
      case Begin(_) => InFlight(before, maxAge)[Run(before, maxAge).nextID + 1 := last.now]
      case Done(id) => InFlight(before, maxAge) - {id}
      case Fail(id, _) => InFlight(before, maxAge) - {id}
      case _ => InFlight(before, maxAge)
  }

  /** A connection is closed only after its dial was Done, and no dial is ever older than `timeout`. */
  ghost predicate DialsWithin(es: seq<Timed>, maxAge: int, timeout: int) {
    es == [] ||
    (var before, last := es[..|es| - 1], es[|es| - 1];
     && DialsWithin(before, maxAge, timeout)
     && (last.e.Close? ==> last.e.id !in InFlight(before, maxAge))
     && forall id | id in InFlight(before, maxAge) :: last.now - InFlight(before, maxAge)[id] <= timeout)
  }

  /** Every dial in flight still has its record, so its Done or Fail will find it. */
  ghost predicate NoneLost(es: seq<Timed>, maxAge: int) {
    forall id | id in InFlight(es, maxAge) ::
      && id in Run(es, maxAge).active
      && Run(es, maxAge).active[id].status.Dialing?
      && Run(es, maxAge).active[id].startedAt == InFlight(es, maxAge)[id]
  }

  ghost predicate NoneStalled(active: map<nat, Record>, maxAge: int, now: int) {
    forall id | id in active :: !IsStalled(active[id], maxAge, now)
  }

  lemma {:induction false} NothingToDrop(s: State, order: seq<nat>, maxAge: int, now: int)
    requires NoneStalled(s.active, maxAge, now)
    ensures Dropped(s, order, maxAge, now) == s
  {
    if order != [] {
      NothingToDrop(s, order[..|order| - 1], maxAge, now);
    }
  }

  lemma {:induction false} DroppedSpares(s: State, order: seq<nat>, maxAge: int, now: int, id: nat)
    requires id in s.active && !IsStalled(s.active[id], maxAge, now)
    ensures id in Dropped(s, order, maxAge, now).active && Dropped(s, order, maxAge, now).active[id] == s.active[id]
  {
    if order != [] {
      DroppedSpares(s, order[..|order| - 1], maxAge, now, id);
    }
  }

  lemma NoneLostKept(before: seq<Timed>, last: Timed, maxAge: int, timeout: int)
    requires Conserved(Run(before, maxAge)) && NoneLost(before, maxAge)
    requires DialsWithin(before + [last], maxAge, timeout) && timeout <= maxAge
    ensures NoneLost(before + [last], maxAge)
  {
    var es := before + [last];
    assert es[..|es| - 1] == before;
    var s := Run(before, maxAge);
    if last.e.DropStalled? {
      forall id | id in InFlight(before, maxAge)
        ensures id in Run(es, maxAge).active && Run(es, maxAge).active[id] == s.active[id]
      {
        DroppedSpares(s, last.e.order, maxAge, last.now, id);
      }
    }
  }

  lemma {:induction false} NoDialLost(es: seq<Timed>, maxAge: int, timeout: int)
    requires Monotone(es) && DialsWithin(es, maxAge, timeout) && timeout <= maxAge
    ensures NoneLost(es, maxAge)
  {
    if es != [] {
      var before := es[..|es| - 1];
      assert es == before + [es[|es| - 1]];
      NoDialLost(before, maxAge, timeout);
      Conservation(before, maxAge, es[|es| - 1].now);
      NoneLostKept(before, es[|es| - 1], maxAge, timeout);
    }
  }

  /** Which dial timeouts are safe with a history window: exactly those that do not exceed it. The
      configuration check, which wants them strictly below, is enough. */
  lemma TimeoutSafeIff(maxAge: int, timeout: int)
    requires 0 <= timeout
    ensures (forall es | Monotone(es) && DialsWithin(es, maxAge, timeout) :: NoneLost(es, maxAge)) <==> timeout <= maxAge
  {
    if timeout <= maxAge {
      forall es | Monotone(es) && DialsWithin(es, maxAge, timeout)
        ensures NoneLost(es, maxAge)
      {
        NoDialLost(es, maxAge, timeout);
      }
    } else {
      var t := if 0 <= maxAge then maxAge + 1 else 0;
      var begin := [At(Begin(Meta("", "", "", "", 0)), 0)];
      var es := begin + [At(DropStalled([1]), t)];
      assert begin[..0] == [];
      assert es[..1] == begin;
      assert InFlight(begin, maxAge) == map[1 := 0];
      var s := Run(begin, maxAge);
      assert s.active[1].status.Dialing? && s.active[1].startedAt == 0;
      var one: seq<nat> := [1];
      assert one[..0] == [];
      assert Dropped(s, one, maxAge, t) == Failed(s, 1, DIAL_TIMEOUT_REASON, t);
      assert 1 in InFlight(es, maxAge) && 1 !in Run(es, maxAge).active;
      assert Monotone(es) && DialsWithin(es, maxAge, timeout);
    }
  }
}
