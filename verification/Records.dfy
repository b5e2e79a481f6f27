/** What the record of a connection says (conntrack.go: Begin, Done, Fail, finish, dropStalled), in every run: who
    it is by its Begin, whether it is established by its Done, and how it ended by the event that ended it. */
module Records {
  import opened Basics
  import opened Tracking

  // ---------------------------------------------------------------- by its Begin

  function Begins(es: seq<Timed>): seq<Timed> {
    if es == [] then []
    else Begins(es[..|es| - 1]) + if es[|es| - 1].e.Begin? then [es[|es| - 1]] else []
  }

  /** r is the record of the r.id-th Begin. */
  ghost predicate FromBegin(begins: seq<Timed>, r: Record) {
    && 1 <= r.id <= |begins| && begins[r.id - 1].e.Begin?
    && var m := begins[r.id - 1].e.m;
       && r.proto == m.proto && r.src == m.src && r.host == m.host && r.dstIP == m.dstIP && r.port == m.port
       && r.startedAt == begins[r.id - 1].now
  }

  /** Nothing has been counted or recorded yet. */
  predicate Untold(r: Record) {
    r.bytesUp == 0 && r.bytesDown == 0 && r.reason == ""
  }

  ghost predicate LiveAreBegun(s: State, begins: seq<Timed>) {
    && s.nextID == |begins|
    && forall id | id in s.active :: s.active[id].id == id && FromBegin(begins, s.active[id]) && Untold(s.active[id])
  }

  // ---------------------------------------------------------------- by its end

  /** The event at which id left the live records. */
  function Ended(es: seq<Timed>, maxAge: int, id: nat): Option<Timed> {
    if es == [] then None
    else
      var before := es[..|es| - 1];
      if id in Run(before, maxAge).active && id !in Run(es, maxAge).active then Some(es[|es| - 1])
      else Ended(before, maxAge, id)
  }

  /** r says that it ended this way. */
  predicate Tells(r: Record, end: Timed, maxAge: int) {
    && r.closedAt == end.now
    && match end.e
       case Fail(id, reason) => id == r.id && r.status.Error? && r.reason == reason && r.bytesUp == 0 && r.bytesDown == 0
       case Close(id, up, down, err) =>
         && id == r.id && r.bytesUp == up && r.bytesDown == down
         && (err.None? ==> r.status.Closed? && r.reason == "")
         && (err.Some? ==> r.status.Error? && r.reason == err.value)
       case DropStalled(_) =>
         r.status.Error? && r.reason == "dial timeout" && r.bytesUp == 0 && r.bytesDown == 0 && maxAge < end.now - r.startedAt
       case _ => false
  }

  predicate SameStart(a: Record, b: Record) {
    && a.id == b.id && a.proto == b.proto && a.src == b.src && a.host == b.host && a.dstIP == b.dstIP && a.port == b.port
    && a.startedAt == b.startedAt
  }

  /** What dropStalled adds to the log. */
  lemma {:induction false} DroppedLog(s: State, order: seq<nat>, maxAge: int, now: int)
    requires forall id | id in s.active :: s.active[id].id == id
    ensures var s' := Dropped(s, order, maxAge, now);
            && s'.nextID == s.nextID
            && (forall id | id in s'.active :: id in s.active && s'.active[id] == s.active[id])
            && (forall r | r in s'.log :: r in s.log ||
                  (&& r.id in s.active && r.id !in s'.active && maxAge < now - s.active[r.id].startedAt
                   && r == s.active[r.id].(status := Error, reason := "dial timeout", closedAt := now)))
  {
    if order != [] {
      DroppedLog(s, order[..|order| - 1], maxAge, now);
    }
  }

  /** Every record that an event logs was live, is not any more, and tells how it ended. */
  lemma LoggedTells(s: State, e: Event, maxAge: int, now: int, r: Record)
    requires (forall id | id in s.active :: s.active[id].id == id && Untold(s.active[id]))
    requires r in Next(s, e, maxAge, now).log && r !in s.log
    ensures r.id in s.active && r.id !in Next(s, e, maxAge, now).active
    ensures Tells(r, At(e, now), maxAge) && SameStart(r, s.active[r.id])
  {
    if e.DropStalled? {
      DroppedLog(s, e.order, maxAge, now);
    }
  }

  lemma BegunKept(s: State, begins: seq<Timed>, t: Timed, maxAge: int)
    requires LiveAreBegun(s, begins)
    ensures LiveAreBegun(Next(s, t.e, maxAge, t.now), begins + if t.e.Begin? then [t] else [])
  {
    if t.e.DropStalled? {
      DroppedLog(s, t.e.order, maxAge, t.now);
    }
  }

  lemma {:induction false} BegunReached(es: seq<Timed>, maxAge: int)
    ensures LiveAreBegun(Run(es, maxAge), Begins(es))
  {
    if es != [] {
      BegunReached(es[..|es| - 1], maxAge);
      BegunKept(Run(es[..|es| - 1], maxAge), Begins(es[..|es| - 1]), es[|es| - 1], maxAge);
    }
  }

  /** In every run a finished record carries the particulars of its Begin, and time, status, reason and bytes of the
      one event that ended it: a dial error, a close, or the drop of a stalled dial. */
  lemma {:induction false} RecordsTellTheirStory(es: seq<Timed>, maxAge: int, r: Record)
    requires Monotone(es) && r in Run(es, maxAge).log
    ensures FromBegin(Begins(es), r)
    ensures Ended(es, maxAge, r.id).Some? && Tells(r, Ended(es, maxAge, r.id).value, maxAge)
  {
    var before, last := es[..|es| - 1], es[|es| - 1];
    var s := Run(before, maxAge);
    BegunReached(before, maxAge);
    if r in s.log {
      RecordsTellTheirStory(before, maxAge, r);
      Conservation(before, maxAge, last.now);
      assert r.id in LogIds(s.log);
    } else {
      LoggedTells(s, last.e, maxAge, last.now, r);
    }
  }

  // ---------------------------------------------------------------- by its Done

  /** A Done found the record of id live. */
  predicate WasDone(es: seq<Timed>, maxAge: int, id: nat) {
    es != [] &&
    (WasDone(es[..|es| - 1], maxAge, id)
     || (es[|es| - 1].e == Done(id) && id in Run(es[..|es| - 1], maxAge).active))
  }

  lemma {:induction false} NotBefore(es: seq<Timed>, maxAge: int, id: nat)
    requires Run(es, maxAge).nextID < id
    ensures !WasDone(es, maxAge, id)
  {
    if es != [] {
      BegunReached(es[..|es| - 1], maxAge);
      BegunReached(es, maxAge);
      NotBefore(es[..|es| - 1], maxAge, id);
    }
  }

  /** In every run a live record is active if its dial was Done, and dialing until then. */
  lemma {:induction false} ActiveIffDone(es: seq<Timed>, maxAge: int, id: nat)
    requires id in Run(es, maxAge).active
    ensures Run(es, maxAge).active[id].status == if WasDone(es, maxAge, id) then Active else Dialing
  {
    var before, last := es[..|es| - 1], es[|es| - 1];
    var s := Run(before, maxAge);
    BegunReached(before, maxAge);
    if last.e.DropStalled? {
      DroppedLog(s, last.e.order, maxAge, last.now);
    }
    if id in s.active {
      ActiveIffDone(before, maxAge, id);
    } else {
      NotBefore(before, maxAge, id);
    }
  }

  predicate Ends(e: Event, id: nat) {
    (e.Fail? || e.Close?) && e.id == id
  }

  /** An established connection stays in the live view, however long it lasts and however often dropStalled runs, until
      it is closed or failed. */
  lemma {:induction false} EstablishedStays(a: seq<Timed>, id: nat, t: int, b: seq<Timed>, maxAge: int)
    requires id in Run(a, maxAge).active && forall x | x in b :: !Ends(x.e, id)
    ensures var es := a + [At(Done(id), t)] + b;
            id in Run(es, maxAge).active && Run(es, maxAge).active[id] == Run(a, maxAge).active[id].(status := Active)
  {
    var done := a + [At(Done(id), t)];
    if b == [] {
      assert done + b == done && done[..|a|] == a;
    } else {
      var b', last := b[..|b| - 1], b[|b| - 1];
      EstablishedStays(a, id, t, b', maxAge);
      assert (done + b)[..|done + b| - 1] == done + b' && last in b;
      BegunReached(done + b', maxAge);
      if last.e.DropStalled? {
        DroppedSpares(Run(done + b', maxAge), last.e.order, maxAge, last.now, id);
      }
    }
  }
}
