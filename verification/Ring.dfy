/** The circular buffer of the connection history (conntrack.go: pushRing, pruneRing) on values: what the
    array, the head and the count stand for, and what one step of each operation does to that. */
module Ring {
  import opened Basics
  import opened Tracking

  /** The records from head on, count of them, around the end of the array. */
  function Window(a: seq<Record>, head: nat, count: nat): (w: seq<Record>)
    requires head < |a| && count <= |a|
    ensures |w| == count
  {
    if head + count <= |a| then a[head..head + count] else a[head..] + a[..head + count - |a|]
  }

  /** An index taken around the end of an array of length n: i % n, by repeated subtraction. */
  function Around(i: nat, n: nat): (r: nat)
    requires 0 < n
    ensures r < n
  {
    if i < n then i else Around(i - n, n)
  }

  lemma {:induction false} AroundIsRemainder(i: nat, n: nat)
    requires 0 < n
    ensures Around(i, n) == i % n
  {
    if n <= i {
      AroundIsRemainder(i - n, n);
      RemainderLess(i, n);
    }
  }

  lemma RemainderLess(i: nat, n: nat)
    requires 0 < n <= i
    ensures (i - n) % n == i % n
  {
    var q, r := (i - n) / n, (i - n) % n;
    assert i - n == q * n + r;
    assert i == (q + 1) * n + r;
    QuotientUnique(i, n, q + 1, r);
  }

  lemma QuotientUnique(i: nat, n: nat, q: nat, r: nat)
    requires 0 < n && i == q * n + r && r < n
    ensures i % n == r
  {
    var q', r' := i / n, i % n;
    assert i == q' * n + r';
    if q + 1 <= q' {
      MulMonotone(q + 1, q', n);
    } else if q' + 1 <= q {
      MulMonotone(q' + 1, q, n);
    }
  }

  lemma WindowAt(a: seq<Record>, head: nat, count: nat, i: nat)
    requires head < |a| && count <= |a| && i < count
    ensures Around(head + i, |a|) < |a| && Window(a, head, count)[i] == a[Around(head + i, |a|)]
  {
  }

  /** The buffer holds the newest records of the log; one that it could hold and does not is older than
      maxAge at time t. */
  ghost predicate Buffers(a: seq<Record>, head: nat, count: nat, log: seq<Record>, maxAge: int, t: int) {
    && head < |a| && count <= |a| && count <= |log|
    && Window(a, head, count) == log[|log| - count..]
    && (forall i | 0 <= i < |log| && |log| - |a| <= i < |log| - count :: maxAge < t - log[i].closedAt)
  }

  lemma WindowTail(a: seq<Record>, head: nat, count: nat)
    requires head < |a| && 0 < count <= |a|
    ensures Window(a, Around(head + 1, |a|), count - 1) == Window(a, head, count)[1..]
    ensures Window(a, head, count)[0] == a[head]
  {
    if head + 1 < |a| {
      assert Around(head + 1, |a|) == head + 1;
    } else {
      assert Around(head + 1, |a|) == 0;
    }
  }

  /** The oldest record in the buffer, and the buffer without it once it is too old. */
  lemma PopKeeps(a: seq<Record>, head: nat, count: nat, log: seq<Record>, maxAge: int, t: int)
    requires Buffers(a, head, count, log, maxAge, t) && 0 < count
    ensures a[head] == log[|log| - count]
    ensures maxAge < t - a[head].closedAt ==> Buffers(a, Around(head + 1, |a|), count - 1, log, maxAge, t)
  {
    WindowTail(a, head, count);
    assert Window(a, head, count)[0] == log[|log| - count..][0];
    assert log[|log| - count..][1..] == log[|log| - (count - 1)..];
  }

  /** Adding a record behind the newest, while there is room. */
  lemma PushKeeps(a: seq<Record>, head: nat, count: nat, log: seq<Record>, r: Record, maxAge: int, t: int)
    requires Buffers(a, head, count, log, maxAge, t) && count < |a|
    ensures Around(head + count, |a|) < |a|
    ensures Buffers(a[Around(head + count, |a|) := r], head, count + 1, log + [r], maxAge, t)
  {
    assert Window(a[Around(head + count, |a|) := r], head, count + 1) == Window(a, head, count) + [r];
    assert (log + [r])[|log| - count..] == log[|log| - count..] + [r];
  }

  /** Overwriting the oldest record of a full buffer. */
  lemma ReplaceKeeps(a: seq<Record>, head: nat, log: seq<Record>, r: Record, maxAge: int, t: int)
    requires Buffers(a, head, |a|, log, maxAge, t)
    ensures Around(head + 1, |a|) < |a|
    ensures Buffers(a[head := r], Around(head + 1, |a|), |a|, log + [r], maxAge, t)
  {
    assert Window(a[head := r], Around(head + 1, |a|), |a|) == Window(a, head, |a|)[1..] + [r];
    assert (log + [r])[|log| + 1 - |a|..] == log[|log| - |a|..][1..] + [r];
  }

  /** The records of `recs` that are at most maxAge old at time t. */
  function Fresh(recs: seq<Record>, maxAge: int, t: int): seq<Record> {
    if recs == [] then []
    else
      var rest := Fresh(recs[..|recs| - 1], maxAge, t);
      var r := recs[|recs| - 1];
      if t - r.closedAt <= maxAge then rest + [r] else rest
  }

  function LastOf(log: seq<Record>, capacity: nat): seq<Record> {
    if capacity <= |log| then log[|log| - capacity..] else log
  }

  /** A list whose stale records all come first keeps exactly the rest. */
  lemma {:induction false} FreshSuffix(recs: seq<Record>, k: nat, maxAge: int, t: int)
    requires k <= |recs|
    requires forall i | 0 <= i < k :: maxAge < t - recs[i].closedAt
    requires forall i | k <= i < |recs| :: t - recs[i].closedAt <= maxAge
    ensures Fresh(recs, maxAge, t) == recs[k..]
  {
    if recs != [] {
      var init := recs[..|recs| - 1];
      if k < |recs| {
        FreshSuffix(init, k, maxAge, t);
        assert recs[k..] == init[k..] + [recs[|recs| - 1]];
      } else {
        FreshSuffix(init, k - 1, maxAge, t);
        assert init[k - 1..] == [] && recs[k..] == [];
      }
    }
  }

  lemma {:induction false} FreshMembers(recs: seq<Record>, maxAge: int, t: int, r: Record)
    ensures r in Fresh(recs, maxAge, t) <==> r in recs && t - r.closedAt <= maxAge
  {
    if recs != [] {
      var init := recs[..|recs| - 1];
      assert recs == init + [recs[|recs| - 1]];
      FreshMembers(init, maxAge, t, r);
    }
  }

  lemma StaleIsNotFresh(recs: seq<Record>, shown: seq<Record>, maxAge: int, t: int)
    requires shown != [] && maxAge < t - shown[|shown| - 1].closedAt
    ensures shown != Fresh(recs, maxAge, t)
  {
    FreshMembers(recs, maxAge, t, shown[|shown| - 1]);
  }

  /** A buffer that lacks only stale records, of a log in closing order: if its oldest record is fresh it
      is the fresh part of the last `capacity` records. */
  lemma HistoryExact(log: seq<Record>, count: nat, capacity: nat, maxAge: int, t: int)
    requires count <= |log| && count <= capacity
    requires forall i, j | 0 <= i < j < |log| :: log[i].closedAt <= log[j].closedAt
    requires forall i | 0 <= i < |log| && |log| - capacity <= i < |log| - count :: maxAge < t - log[i].closedAt
    requires count == 0 || t - log[|log| - count].closedAt <= maxAge
    ensures log[|log| - count..] == Fresh(LastOf(log, capacity), maxAge, t)
  {
    var last := LastOf(log, capacity);
    var from := |log| - |last|;
    forall i | 0 <= i < |last|
      ensures maxAge < t - last[i].closedAt <==> i < |last| - count
    {
      assert last[i] == log[from + i];
    }
    FreshSuffix(last, |last| - count, maxAge, t);
    assert last[|last| - count..] == log[|log| - count..];
  }

  /** ... and in any case it misses none of that part. */
  lemma HistoryComplete(log: seq<Record>, count: nat, capacity: nat, maxAge: int, t: int, r: Record)
    requires count <= |log| && count <= capacity
    requires forall i | 0 <= i < |log| && |log| - capacity <= i < |log| - count :: maxAge < t - log[i].closedAt
    requires r in Fresh(LastOf(log, capacity), maxAge, t)
    ensures r in log[|log| - count..]
  {
    var last := LastOf(log, capacity);
    FreshMembers(last, maxAge, t, r);
    var i :| 0 <= i < |last| && last[i] == r;
    var j := |log| - |last| + i;
    assert log[j] == r;
    assert log[|log| - count..][j - (|log| - count)] == r;
  }
}
