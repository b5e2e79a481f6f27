/** The tracker object (conntrack.go: ConnTracker and trackedConn) with its map, its ring array and its
    clock readings, against the log of all finished connections. */
module ConnTracker {
  import opened Basics
  import opened Tracking
  import opened Ring

  // ---------------------------------------------------------------- the invariant, passed on whole

  /** A proof that names Seen(0, s) sees inside Sound; elsewhere the verifier passes the invariant on whole,
      which keeps the proofs of the methods small. */
  predicate Seen(x: int, s: State) {
    true
  }

  ghost predicate Sound(s: State, clock: int) {
    forall x {:trigger Seen(x, s)} :: Seen(x, s) ==> Inv(s, clock)
  }

  lemma SoundIsInv(s: State, clock: int)
    ensures Sound(s, clock) <==> Inv(s, clock)
  {
    assert Seen(0, s);
  }

  lemma SoundBegan(s: State, m: Meta, clock: int, now: int)
    requires Sound(s, clock) && clock <= now
    ensures Sound(Began(s, m, now), now)
  {
    SoundIsInv(s, clock);
    BeganKeeps(s, m, clock, now);
  }

  lemma SoundEstablished(s: State, id: nat, clock: int)
    requires Sound(s, clock)
    ensures Sound(Established(s, id), clock)
  {
    SoundIsInv(s, clock);
    EstablishedKeeps(s, id, clock, clock);
  }

  lemma SoundMoved(s: State, id: nat, r: Record, clock: int)
    requires Sound(s, clock) && clock <= r.closedAt && id in s.active
    requires r.id == id && !Live(r) && r.startedAt == s.active[id].startedAt
    ensures Sound(Moved(s, id, r), r.closedAt)
  {
    SoundIsInv(s, clock);
    MovedKeeps(s, id, r, clock, r.closedAt);
  }

  lemma SoundLive(s: State, clock: int, id: nat)
    requires Sound(s, clock) && id in s.active
    ensures s.active[id].id == id && Live(s.active[id])
  {
    SoundIsInv(s, clock);
  }

  lemma SoundClosing(s: State, clock: int, i: nat, j: nat)
    requires Sound(s, clock) && i <= j < |s.log|
    ensures s.log[i].closedAt <= s.log[j].closedAt
  {
    SoundIsInv(s, clock);
  }

  /** The same for the buffer. */
  predicate SeenRing(x: int, a: seq<Record>, head: nat, count: nat, log: seq<Record>) {
    true
  }

  ghost predicate Intact(a: seq<Record>, head: nat, count: nat, log: seq<Record>, maxAge: int, t: int) {
    forall x {:trigger SeenRing(x, a, head, count, log)} ::
      SeenRing(x, a, head, count, log) ==> Buffers(a, head, count, log, maxAge, t)
  }

  lemma IntactIsBuffers(a: seq<Record>, head: nat, count: nat, log: seq<Record>, maxAge: int, t: int)
    ensures Intact(a, head, count, log, maxAge, t) <==> Buffers(a, head, count, log, maxAge, t)
  {
    assert SeenRing(0, a, head, count, log);
  }

  lemma IntactPop(a: seq<Record>, head: nat, count: nat, log: seq<Record>, maxAge: int, t: int)
    requires Intact(a, head, count, log, maxAge, t) && head < |a| && 0 < count <= |log|
    ensures a[head] == log[|log| - count]
    ensures maxAge < t - a[head].closedAt ==> Intact(a, Around(head + 1, |a|), count - 1, log, maxAge, t)
  {
    IntactIsBuffers(a, head, count, log, maxAge, t);
    PopKeeps(a, head, count, log, maxAge, t);
  }

  lemma IntactPush(a: seq<Record>, head: nat, count: nat, log: seq<Record>, r: Record, maxAge: int, t: int)
    requires Intact(a, head, count, log, maxAge, t) && head < |a| && count < |a|
    ensures Intact(a[Around(head + count, |a|) := r], head, count + 1, log + [r], maxAge, t)
  {
    IntactIsBuffers(a, head, count, log, maxAge, t);
    PushKeeps(a, head, count, log, r, maxAge, t);
  }

  lemma IntactReplace(a: seq<Record>, head: nat, log: seq<Record>, r: Record, maxAge: int, t: int)
    requires Intact(a, head, |a|, log, maxAge, t) && head < |a|
    ensures Intact(a[head := r], Around(head + 1, |a|), |a|, log + [r], maxAge, t)
  {
    IntactIsBuffers(a, head, |a|, log, maxAge, t);
    ReplaceKeeps(a, head, log, r, maxAge, t);
  }

  /** A later clock only makes the missing records older. */
  lemma IntactLater(a: seq<Record>, head: nat, count: nat, log: seq<Record>, maxAge: int, t: int, t': int)
    requires Intact(a, head, count, log, maxAge, t) && t <= t'
    ensures Intact(a, head, count, log, maxAge, t')
  {
    IntactIsBuffers(a, head, count, log, maxAge, t);
    IntactIsBuffers(a, head, count, log, maxAge, t');
  }

  lemma IntactRead(a: seq<Record>, head: nat, count: nat, log: seq<Record>, maxAge: int, t: int)
    requires Intact(a, head, count, log, maxAge, t)
    ensures head < |a| && count <= |a| && count <= |log| && Window(a, head, count) == log[|log| - count..]
  {
    IntactIsBuffers(a, head, count, log, maxAge, t);
  }

  /** What the buffer says about the whole log. */
  lemma BufferIsHistory(s: State, clock: int, a: seq<Record>, head: nat, count: nat, maxAge: int, t: int)
    requires Sound(s, clock) && Intact(a, head, count, s.log, maxAge, t) && count <= |s.log|
    ensures count == 0 || t - s.log[|s.log| - count].closedAt <= maxAge ==>
              s.log[|s.log| - count..] == Ring.Fresh(LastOf(s.log, |a|), maxAge, t)
    ensures forall r | r in Ring.Fresh(LastOf(s.log, |a|), maxAge, t) :: r in s.log[|s.log| - count..]
  {
    SoundIsInv(s, clock);
    IntactIsBuffers(a, head, count, s.log, maxAge, t);
    if count == 0 || t - s.log[|s.log| - count].closedAt <= maxAge {
      HistoryExact(s.log, count, |a|, maxAge, t);
    }
    forall r | r in Ring.Fresh(LastOf(s.log, |a|), maxAge, t)
      ensures r in s.log[|s.log| - count..]
    {
      HistoryComplete(s.log, count, |a|, maxAge, t, r);
    }
  }

  /** After dropStalled moved a record at `now`: it is the newest in the buffer, and the oldest of several is
      fresh at the clock. */
  ghost predicate Drained(log: seq<Record>, count: nat, maxAge: int, now: int, t: int) {
    && 0 < count && 0 < |log| && log[|log| - 1].closedAt == now
    && (1 < count <= |log| ==> t - log[|log| - count].closedAt <= maxAge)
  }

  /** What List's history shows after pruning at `now` and dropping stalled dials, if there were any. */
  lemma ShownExactlyIff(s: State, clock: int, a: seq<Record>, head: nat, count: nat, maxAge: int, quiet: bool, now: int, t: int)
    requires Sound(s, clock) && Intact(a, head, count, s.log, maxAge, t) && count <= |s.log| && now <= t
    requires if quiet then now == t && (count > 0 ==> now - s.log[|s.log| - count].closedAt <= maxAge)
             else Drained(s.log, count, maxAge, now, t)
    ensures s.log[|s.log| - count..] == Ring.Fresh(LastOf(s.log, |a|), maxAge, t) <==> quiet || t - now <= maxAge
    ensures forall r | r in Ring.Fresh(LastOf(s.log, |a|), maxAge, t) :: r in s.log[|s.log| - count..]
  {
    BufferIsHistory(s, clock, a, head, count, maxAge, t);
    if !quiet && maxAge < t - now {
      var recs := s.log[|s.log| - count..];
      assert recs[|recs| - 1] == s.log[|s.log| - 1];
      StaleIsNotFresh(LastOf(s.log, |a|), recs, maxAge, t);
    }
  }

  class ConnTracker {
    var active: map<nat, Record>
    const ring: array<Record>
    var ringHead: nat
    var ringCount: nat
    const capacity: nat
    const maxAge: int
    var nextID: nat

    /** The last reading of the system clock, which never goes back. */
    var time: int

    /** Every finished connection, in the order they were pushed, and the latest time recorded. */
    ghost var log: seq<Record>
    ghost var stamp: int

    ghost function View(): State
      reads this
    {
      State(active, log, nextID)
    }

    ghost predicate Buffer()
      reads this, ring
    {
      && ring.Length == capacity > 0 && ringHead < capacity && ringCount <= capacity && ringCount <= |log|
      && Intact(ring[..], ringHead, ringCount, log, maxAge, time)
    }

    ghost predicate Valid()
      reads this, ring
    {
      Buffer() && Sound(View(), stamp) && stamp <= time
    }

    constructor (capacity: int, maxAge: int)
      ensures Valid() && View() == EMPTY && fresh(ring)
      ensures this.capacity == if capacity <= 0 then 1000 else capacity
      ensures this.maxAge == maxAge
    {
      var n: nat := if capacity <= 0 then 1000 else capacity;
      this.capacity := n;
      this.maxAge := maxAge;
      ring := new Record[n];
      active, ringHead, ringCount, nextID := map[], 0, 0, 0;
      log, stamp, time := [], 0, 0;
      new;
      Conservation([], maxAge, stamp);
      SoundIsInv(EMPTY, stamp);
      IntactIsBuffers(ring[..], 0, 0, [], maxAge, stamp);
    }

    /** time.Now(). */
    method Now() returns (t: int)
      modifies this`time
      ensures old(time) <= time && t == time
    {
      var d :| 0 <= d;
      time := time + d;
      t := time;
    }

    method Begin(m: Meta) returns (id: nat)
      requires Valid()
      modifies this`active, this`nextID, this`stamp, this`time
      ensures Valid() && View() == Began(old(View()), m, time) && id == nextID
    {
      ghost var was := View();
      var now := Now();
      SoundBegan(was, m, stamp, now);
      IntactLater(ring[..], ringHead, ringCount, log, maxAge, old(time), now);
      nextID := nextID + 1;
      active := active[nextID := Record(nextID, m.proto, m.src, m.host, m.dstIP, m.port, Dialing, now, 0, 0, 0, "")];
      stamp := now;
      id := nextID;
    }

    /** Marks the connection active; false when its record was dropped while the dial was in flight, or when there
        is no connection. */
    method Done(id: nat, isNil: bool) returns (tracked: bool)
      requires Valid()
      modifies this`active
      ensures Valid() && tracked == (!isNil && id in old(active))
      ensures View() == if isNil then old(View()) else Established(old(View()), id)
    {
      if isNil {
        return false;
      }
      SoundEstablished(View(), id, stamp);
      tracked := id in active;
      if tracked {
        active := active[id := active[id].(status := Active)];
      }
    }

    /** Drops records older than maxAge from the front of the buffer. */
    method PruneRing(now: int)
      requires Buffer() && now <= time
      modifies this`ringHead, this`ringCount
      ensures Buffer()
      ensures ringCount <= old(ringCount)
      ensures ringCount > 0 ==> now - log[|log| - ringCount].closedAt <= maxAge
    {
      ghost var a := ring[..];
      assert |a| == capacity;
      while ringCount > 0
        invariant ringHead < capacity && ringCount <= old(ringCount)
        invariant Intact(a, ringHead, ringCount, log, maxAge, time)
        decreases ringCount
      {
        IntactPop(a, ringHead, ringCount, log, maxAge, time);
        var oldest := ring[ringHead];
        assert oldest == a[ringHead] == log[|log| - ringCount];
        if now - oldest.closedAt <= maxAge {
          break;
        }
        ringHead := Around(ringHead + 1, capacity);
        ringCount := ringCount - 1;
      }
    }

    /** Writes a record behind the newest, over the oldest one when full. */
    method Append(rec: Record)
      requires Buffer()
      modifies this`ringHead, this`ringCount, this`log, ring
      ensures Buffer() && log == old(log) + [rec]
      ensures ringCount == if old(ringCount) == capacity then capacity else old(ringCount) + 1
    {
      ghost var a, t := ring[..], time;
      var idx := Around(ringHead + ringCount, capacity);
      if ringCount == capacity {
        IntactReplace(a, ringHead, log, rec, maxAge, t);
        idx := ringHead;
        ringHead := Around(ringHead + 1, capacity);
      } else {
        IntactPush(a, ringHead, ringCount, log, rec, maxAge, t);
        ringCount := ringCount + 1;
      }
      ring[idx] := rec;
      log := log + [rec];
      assert ring[..] == a[idx := rec];
    }

    /** pushRing: prune, then append. The clock is read once more; the oldest of several records left is
        fresh at that reading. */
    method PushRing(rec: Record, ghost s: State, ghost at: int)
      requires Buffer() && Sound(s, at) && s.log == log
      modifies this`ringHead, this`ringCount, this`log, this`time, ring
      ensures Buffer() && log == old(log) + [rec] && old(time) <= time
      ensures ringCount > 0
      ensures ringCount > 1 ==> time - log[|log| - ringCount].closedAt <= maxAge
    {
      var now := Now();
      IntactLater(ring[..], ringHead, ringCount, log, maxAge, old(time), now);
      PruneRing(now);
      if ringCount > 1 {
        SoundClosing(s, at, |log| - ringCount, |log| - ringCount + 1);
      }
      Append(rec);
    }

    /** Every way for a connection to finish: out of the live map, into the history. */
    method Move(id: nat, rec: Record)
      requires Valid() && id in active
      requires rec.id == id && !Live(rec) && rec.startedAt == active[id].startedAt && stamp <= rec.closedAt <= time
      modifies this`active, this`ringHead, this`ringCount, this`log, this`stamp, this`time, ring
      ensures Valid() && View() == Moved(old(View()), id, rec) && stamp == rec.closedAt
      ensures old(time) <= time
      ensures ringCount > 0
      ensures ringCount > 1 ==> time - log[|log| - ringCount].closedAt <= maxAge
    {
      ghost var was, at := View(), stamp;
      SoundMoved(was, id, rec, at);
      active := active - {id};
      stamp := rec.closedAt;
      PushRing(rec, was, at);
    }

    /** A dial error; a record that was dropped before stays dropped. */
    method Fail(id: nat, reason: string) returns (ghost at: int)
      requires Valid()
      modifies this`active, this`ringHead, this`ringCount, this`log, this`stamp, this`time, ring
      ensures Valid() && old(time) <= at <= time && View() == Failed(old(View()), id, reason, at)
    {
      at := time;
      if id in active {
        SoundLive(View(), stamp, id);
        var rec := active[id];
        var now := Now();
        IntactLater(ring[..], ringHead, ringCount, log, maxAge, old(time), now);
        at := now;
        Move(id, rec.(status := Error, reason := reason, closedAt := now));
      }
    }

    /** The end of a tracked connection. */
    method Finish(id: nat, up: int, down: int, err: Option<string>) returns (ghost at: int)
      requires Valid()
      modifies this`active, this`ringHead, this`ringCount, this`log, this`stamp, this`time, ring
      ensures Valid() && old(time) <= at <= time && View() == Finished(old(View()), id, up, down, err, at)
    {
      at := time;
      if id in active {
        SoundLive(View(), stamp, id);
        var rec := active[id].(status := Closed);
        if err.Some? {
          rec := rec.(status := Error, reason := err.value);
        }
        var now := Now();
        IntactLater(ring[..], ringHead, ringCount, log, maxAge, old(time), now);
        at := now;
        Move(id, rec.(bytesUp := up, bytesDown := down, closedAt := now));
      }
    }

    /** The body of dropStalled's loop. */
    method DropOne(id: nat, now: int)
      requires Valid() && stamp <= now <= time && id in active
      modifies this`active, this`ringHead, this`ringCount, this`log, this`stamp, this`time, ring
      ensures Valid() && stamp <= now <= time && View() == DroppedOne(old(View()), id, maxAge, now)
      ensures if old(IsStalled(active[id], maxAge, now)) then Drained(log, ringCount, maxAge, now, time)
              else View() == old(View()) && ringCount == old(ringCount) && time == old(time)
    {
      var rec := active[id];
      SoundLive(View(), stamp, id);
      if rec.status.Dialing? && maxAge < now - rec.startedAt {
        Move(id, rec.(status := Error, reason := DIAL_TIMEOUT_REASON, closedAt := now));
      }
    }

    /** dropStalled at time `now`: dialing records older than maxAge become errors. */
    method DropStalled(now: int) returns (ghost order: seq<nat>)
      requires Valid() && stamp <= now <= time
      modifies this`active, this`ringHead, this`ringCount, this`log, this`stamp, this`time, ring
      ensures Valid() && stamp <= now <= time && View() == Dropped(old(View()), order, maxAge, now)
      ensures NoneStalled(active, maxAge, now)
      ensures if NoneStalled(old(active), maxAge, now) then View() == old(View()) && ringCount == old(ringCount) && time == old(time)
              else |log| > |old(log)| && Drained(log, ringCount, maxAge, now, time)
    {
      order := [];
      var left := active.Keys;
      while left != {}
        invariant Valid() && stamp <= now <= time
        invariant View() == Dropped(old(View()), order, maxAge, now)
        invariant left <= active.Keys
        invariant forall id | id in active :: id in left || !IsStalled(active[id], maxAge, now)
        invariant || (View() == old(View()) && ringCount == old(ringCount) && time == old(time))
                  || (|log| > |old(log)| && Drained(log, ringCount, maxAge, now, time))
        decreases left
      {
        var id :| id in left;
        left := left - {id};
        assert (order + [id])[..|order|] == order;
        order := order + [id];
        DropOne(id, now);
      }
      if NoneStalled(old(active), maxAge, now) {
        NothingToDrop(old(View()), order, maxAge, now);
      }
    }

    /** The buffer read out, oldest first. */
    method ReadRing() returns (recs: seq<Record>)
      requires Buffer()
      ensures recs == log[|log| - ringCount..]
    {
      recs := [];
      IntactRead(ring[..], ringHead, ringCount, log, maxAge, time);
      for i := 0 to ringCount
        invariant recs == Window(ring[..], ringHead, ringCount)[..i]
      {
        WindowAt(ring[..], ringHead, ringCount, i);
        recs := recs + [ring[Around(ringHead + i, capacity)]];
      }
    }

    /** The live records, in the order that ranging over the map happens to take. */
    method ActiveRecords() returns (recs: seq<Record>)
      requires Valid()
      ensures forall r :: r in recs <==> r.id in active && active[r.id] == r
      ensures forall i, j | 0 <= i < j < |recs| :: recs[i].id != recs[j].id
    {
      recs := [];
      var left := active.Keys;
      while left != {}
        invariant left <= active.Keys
        invariant forall r :: r in recs <==> r.id in active && r.id !in left && active[r.id] == r
        invariant forall i, j | 0 <= i < j < |recs| :: recs[i].id != recs[j].id
        decreases left
      {
        var id :| id in left;
        SoundLive(View(), stamp, id);
        assert forall i | 0 <= i < |recs| :: recs[i] in recs;
        left := left - {id};
        recs := recs + [active[id]];
      }
    }

    /** The history that List shows: those of the last `capacity` finished connections that are at most maxAge
        old at the last clock reading of the call. None of them is ever missing; one too many is shown exactly
        when there was a stalled dial to drop and the call itself takes longer than maxAge. */
    method History() returns (recs: seq<Record>, ghost now: int, ghost order: seq<nat>)
      requires Valid()
      modifies this`active, this`ringHead, this`ringCount, this`log, this`stamp, this`time, ring
      ensures Valid() && old(time) <= now <= time && View() == Dropped(old(View()), order, maxAge, now)
      ensures recs == Ring.Fresh(LastOf(log, capacity), maxAge, time)
              <==> NoneStalled(old(active), maxAge, now) || time - now <= maxAge
      ensures forall r | r in Ring.Fresh(LastOf(log, capacity), maxAge, time) :: r in recs
      ensures |recs| <= |log| && recs == log[|log| - |recs|..]
    {
      var t := Now();
      IntactLater(ring[..], ringHead, ringCount, log, maxAge, old(time), t);
      now := t;
      PruneRing(t);
      order := DropStalled(t);
      recs := ReadRing();
      assert |ring[..]| == capacity;
      ShownExactlyIff(View(), stamp, ring[..], ringHead, ringCount, maxAge, NoneStalled(old(active), maxAge, now), now, time);
    }
  }

  // ---------------------------------------------------------------- trackedConn

  datatype IoError = NoError | Eof | NetClosed | Bad(text: string)

  /** One Read or Write on the base connection: bytes moved and the error with them. */
  datatype Io = Read(n: nat, err: IoError) | Write(n: nat, err: IoError)

  function TotalUp(ios: seq<Io>): nat {
    if ios == [] then 0
    else TotalUp(ios[..|ios| - 1]) + if ios[|ios| - 1].Write? then ios[|ios| - 1].n else 0
  }

  function TotalDown(ios: seq<Io>): nat {
    if ios == [] then 0
    else TotalDown(ios[..|ios| - 1]) + if ios[|ios| - 1].Read? then ios[|ios| - 1].n else 0
  }

  /** The first error that is not a routine close. */
  function FirstBad(ios: seq<Io>): (e: Option<string>)
    ensures e.None? <==> forall i | 0 <= i < |ios| :: !ios[i].err.Bad?
    ensures e.Some? ==> exists i | 0 <= i < |ios| :: ios[i].err == Bad(e.value) && forall j | 0 <= j < i :: !ios[j].err.Bad?
  {
    if ios == [] then None
    else
      var before := FirstBad(ios[..|ios| - 1]);
      var last := ios[|ios| - 1].err;
      if before.Some? then before else if last.Bad? then Some(last.text) else None
  }

  /** A tunneled connection that counts its bytes and finishes its record once. */
  class TrackedConn {
    const tracker: ConnTracker
    const id: nat
    var up: nat
    var down: nat
    var firstErr: Option<string>
    var closed: bool
    ghost var ios: seq<Io>

    ghost predicate Counts()
      reads this
    {
      up == TotalUp(ios) && down == TotalDown(ios) && firstErr == FirstBad(ios)
    }

    constructor (tracker: ConnTracker, id: nat)
      ensures Counts() && ios == [] && !closed && this.tracker == tracker && this.id == id
    {
      this.tracker, this.id := tracker, id;
      up, down, firstErr, closed, ios := 0, 0, None, false, [];
    }

    method ReadIo(n: nat, err: IoError)
      requires Counts()
      modifies this`down, this`firstErr, this`ios
      ensures Counts() && ios == old(ios) + [Read(n, err)]
    {
      down := down + n;
      if err.Bad? && firstErr.None? {
        firstErr := Some(err.text);
      }
      ios := ios + [Read(n, err)];
      assert ios[..|ios| - 1] == old(ios);
    }

    method WriteIo(n: nat, err: IoError)
      requires Counts()
      modifies this`up, this`firstErr, this`ios
      ensures Counts() && ios == old(ios) + [Write(n, err)]
    {
      up := up + n;
      if err.Bad? && firstErr.None? {
        firstErr := Some(err.text);
      }
      ios := ios + [Write(n, err)];
      assert ios[..|ios| - 1] == old(ios);
    }

    /** The first Close finishes the record with the byte totals and the first real error so far; every
        later one leaves the tracker as it is. */
    method Close() returns (ghost at: int)
      requires Counts() && tracker.Valid()
      modifies this`closed, tracker`active, tracker`ringHead, tracker`ringCount, tracker`log, tracker`stamp, tracker`time, tracker.ring
      ensures Counts() && tracker.Valid() && closed
      ensures tracker.View() == if old(closed) then old(tracker.View())
                                else Finished(old(tracker.View()), id, TotalUp(ios), TotalDown(ios), FirstBad(ios), at)
      ensures old(tracker.time) <= at <= tracker.time
    {
      at := tracker.time;
      if closed {
        return;
      }
      closed := true;
      at := tracker.Finish(id, up, down, firstErr);
    }
  }
}
