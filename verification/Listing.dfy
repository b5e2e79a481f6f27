/** The listing of connections (conntrack.go: List): filter, sort and pages of one snapshot. */
module Listing {
  import opened Basics
  import opened Tracking
  import Rules
  import ConnTracker
  import Ring

  // ---------------------------------------------------------------- filter

  predicate StandsAt(s: string, sub: string, i: nat) {
    i + |sub| <= |s| && s[i..i + |sub|] == sub
  }

  predicate HasSubstring(s: string, sub: string) {
    exists i: nat | i <= |s| :: StandsAt(s, sub, i)
  }

  /** The two filters; an empty one is off. */
  predicate Wanted(q: string, proto: string, r: Record) {
    var fq := Rules.Lower(q);
    && (q == "" || HasSubstring(Rules.Lower(r.host), fq) || HasSubstring(Rules.Lower(r.dstIP), fq) || HasSubstring(Rules.Lower(r.src), fq))
    && (proto == "" || r.proto == proto)
  }

  /** The same ASCII letter, capital or small. */
  predicate SameLetter(a: char, b: char) {
    var (x, y) := (a as int, b as int);
    x == y || (65 <= x <= 90 && y == x + 32) || (65 <= y <= 90 && x == y + 32)
  }

  /** `q` stands in the field from place i on, whatever the case of its letters. */
  predicate MentionsAt(field: string, q: string, i: nat) {
    i + |q| <= |field| && forall k | i <= k < i + |q| :: SameLetter(field[k], q[k - i])
  }

  ghost predicate Mentions(field: string, q: string) {
    exists i: nat :: MentionsAt(field, q, i)
  }

  lemma MentionsAtIsSubstring(field: string, q: string, i: nat)
    ensures StandsAt(Rules.Lower(field), Rules.Lower(q), i) <==> MentionsAt(field, q, i)
  {
    var f, p := Rules.Lower(field), Rules.Lower(q);
    if i + |q| <= |field| {
      var part := f[i..i + |q|];
      assert forall k | i <= k < i + |q| :: part[k - i] == Rules.LowerChar(field[k]) && p[k - i] == Rules.LowerChar(q[k - i]);
      assert forall k | i <= k < i + |q| :: part[k - i] == p[k - i] <==> SameLetter(field[k], q[k - i]);
      if MentionsAt(field, q, i) {
        forall k | 0 <= k < |q|
          ensures part[k] == p[k]
        {
          assert SameLetter(field[k + i], q[k + i - i]);
        }
      }
    }
  }

  lemma MentionsIsSubstring(field: string, q: string)
    ensures HasSubstring(Rules.Lower(field), Rules.Lower(q)) <==> Mentions(field, q)
  {
    forall i: nat
      ensures StandsAt(Rules.Lower(field), Rules.Lower(q), i) <==> MentionsAt(field, q, i)
    {
      MentionsAtIsSubstring(field, q, i);
    }
  }

  /** The filters: the protocol exactly, if one is asked for, and the text in host, address or source. */
  lemma WantedMeans(q: string, proto: string, r: Record)
    ensures Wanted(q, proto, r) <==>
              && (proto != "" ==> r.proto == proto)
              && (q != "" ==> Mentions(r.host, q) || Mentions(r.dstIP, q) || Mentions(r.src, q))
  {
    MentionsIsSubstring(r.host, q);
    MentionsIsSubstring(r.dstIP, q);
    MentionsIsSubstring(r.src, q);
  }

  function Want(q: string, proto: string): Record -> bool {
    r => Wanted(q, proto, r)
  }

  function Select(recs: seq<Record>, p: Record -> bool): seq<Record> {
    if recs == [] then []
    else
      var rest := Select(recs[..|recs| - 1], p);
      if p(recs[|recs| - 1]) then rest + [recs[|recs| - 1]] else rest
  }

  ghost predicate DistinctIds(recs: seq<Record>) {
    forall i, j | 0 <= i < j < |recs| :: recs[i].id != recs[j].id
  }

  lemma {:induction false} SelectKeeps(recs: seq<Record>, p: Record -> bool)
    ensures forall r :: r in Select(recs, p) <==> r in recs && p(r)
  {
    if recs != [] {
      assert recs == recs[..|recs| - 1] + [recs[|recs| - 1]];
      SelectKeeps(recs[..|recs| - 1], p);
    }
  }

  lemma {:induction false} SelectDistinct(recs: seq<Record>, p: Record -> bool)
    requires DistinctIds(recs)
    ensures DistinctIds(Select(recs, p))
  {
    if recs != [] {
      var init, last := recs[..|recs| - 1], recs[|recs| - 1];
      SelectDistinct(init, p);
      SelectKeeps(init, p);
      var sel := Select(init, p);
      forall i | 0 <= i < |sel|
        ensures sel[i].id != last.id
      {
        assert sel[i] in init;
        var k :| 0 <= k < |init| && init[k] == sel[i];
        assert recs[k] == init[k];
      }
    }
  }

  // ---------------------------------------------------------------- sort

  /** The order of the list: latest start first, then highest id. */
  predicate Before(a: Record, b: Record) {
    if a.startedAt != b.startedAt then a.startedAt > b.startedAt else a.id > b.id
  }

  ghost predicate Sorted(recs: seq<Record>) {
    forall i, j | 0 <= i < j < |recs| :: Before(recs[i], recs[j])
  }

  /** A result that sort.Slice may give: the same records, ordered. */
  ghost predicate Sorts(recs: seq<Record>, out: seq<Record>) {
    multiset(out) == multiset(recs) && Sorted(out)
  }

  function Insert(r: Record, sorted: seq<Record>): seq<Record> {
    if sorted == [] || Before(r, sorted[0]) then [r] + sorted else [sorted[0]] + Insert(r, sorted[1..])
  }

  function Sort(recs: seq<Record>): seq<Record> {
    if recs == [] then [] else Insert(recs[0], Sort(recs[1..]))
  }

  lemma {:induction false} InsertAdds(r: Record, sorted: seq<Record>)
    ensures multiset(Insert(r, sorted)) == multiset{r} + multiset(sorted)
  {
    if sorted != [] {
      assert sorted == [sorted[0]] + sorted[1..];
      if !Before(r, sorted[0]) {
        InsertAdds(r, sorted[1..]);
      }
    }
  }

  /** One record before all of a sorted list. */
  lemma SortedMore(first: Record, tail: seq<Record>)
    requires Sorted(tail) && forall x | x in tail :: Before(first, x)
    ensures Sorted([first] + tail)
  {
  }

  lemma {:induction false} InsertSorts(r: Record, sorted: seq<Record>)
    requires Sorted(sorted) && forall x | x in sorted :: x.id != r.id
    ensures Sorted(Insert(r, sorted)) && multiset(Insert(r, sorted)) == multiset{r} + multiset(sorted)
  {
    InsertAdds(r, sorted);
    if sorted != [] {
      if Before(r, sorted[0]) {
        SortedMore(r, sorted);
      } else {
        var tail := Insert(r, sorted[1..]);
        InsertSorts(r, sorted[1..]);
        forall x | x in tail
          ensures Before(sorted[0], x)
        {
          assert x in multiset(tail);
          assert x == r || x in sorted[1..];
        }
        SortedMore(sorted[0], tail);
      }
    }
  }

  lemma {:induction false} SortSorts(recs: seq<Record>)
    requires DistinctIds(recs)
    ensures Sorts(recs, Sort(recs))
  {
    if recs != [] {
      var rest := recs[1..];
      assert recs == [recs[0]] + rest;
      SortSorts(rest);
      forall x | x in Sort(rest)
        ensures x.id != recs[0].id
      {
        assert x in multiset(rest);
        var k :| 0 <= k < |rest| && rest[k] == x;
        assert recs[k + 1] == x;
      }
      InsertSorts(recs[0], Sort(rest));
    }
  }

  lemma SameHead(a: seq<Record>, b: seq<Record>)
    requires multiset(a) == multiset(b) && Sorted(a) && Sorted(b) && a != [] && b != []
    ensures a[0] == b[0]
  {
    assert a[0] in multiset(b) && b[0] in multiset(a);
    var i :| 0 <= i < |b| && b[i] == a[0];
    var j :| 0 <= j < |a| && a[j] == b[0];
  }

  lemma TailMultiset(a: seq<Record>)
    requires a != []
    ensures multiset(a[1..]) == multiset(a) - multiset{a[0]}
  {
    assert a == [a[0]] + a[1..];
  }

  /** No two sorted arrangements of the same records differ, so neither the algorithm nor the order in
      which the map gave the records shows in the list. */
  lemma {:induction false} SortedIsUnique(a: seq<Record>, b: seq<Record>)
    requires multiset(a) == multiset(b) && Sorted(a) && Sorted(b)
    ensures a == b
  {
    assert |multiset(a)| == |a| && |multiset(b)| == |b|;
    if a != [] {
      SameHead(a, b);
      TailMultiset(a);
      TailMultiset(b);
      SortedIsUnique(a[1..], b[1..]);
      assert a == [a[0]] + a[1..] && b == [b[0]] + b[1..];
    }
  }

  /** Ids and start times are given under one lock, so the order is simply: highest id first. */
  lemma ListIsByDescendingId(s: State, clock: int, recs: seq<Record>, out: seq<Record>)
    requires Inv(s, clock) && (forall r | r in recs :: Known(s, r)) && Sorts(recs, out)
    ensures forall i, j | 0 <= i < j < |out| :: out[i].id > out[j].id
  {
    forall i, j | 0 <= i < j < |out|
      ensures out[i].id > out[j].id
    {
      assert out[i] in multiset(out) && out[j] in multiset(out);
      assert Known(s, out[i]) && Known(s, out[j]);
      assert Before(out[i], out[j]);
    }
  }

  // ---------------------------------------------------------------- pages

  /** Page p of the list, counting from 1. */
  function Page(recs: seq<Record>, p: nat, size: nat): seq<Record>
    requires 1 <= p && 1 <= size
  {
    var start := (p - 1) * size;
    if |recs| <= start then [] else recs[start..if start + size < |recs| then start + size else |recs|]
  }

  function Pages(recs: seq<Record>, n: nat, size: nat): seq<Record>
    requires 1 <= size
  {
    if n == 0 then [] else Pages(recs, n - 1, size) + Page(recs, n, size)
  }

  /** The first n pages are the first n * size records: enough pages give every record exactly once. */
  lemma {:induction false} PagesCover(recs: seq<Record>, n: nat, size: nat)
    requires 1 <= size
    ensures Pages(recs, n, size) == recs[..if n * size < |recs| then n * size else |recs|]
  {
    if n > 0 {
      PagesCover(recs, n - 1, size);
      assert n * size == (n - 1) * size + size;
    }
  }

  /** What List does with its page arguments on the sorted records. */
  datatype Answer = Invalid | Shown(recs: seq<Record>, total: nat) | SliceOutOfRange

  function CutPage(recs: seq<Record>, page: int, size: int): Answer {
    if page < 1 || size < 1 || 200 < size then Invalid
    else
      var start := Wrap64((page - 1) * size);
      if |recs| <= start then Shown([], |recs|)
      else if start < 0 then SliceOutOfRange
      else Shown(recs[start..if start + size < |recs| then start + size else |recs|], |recs|)
  }

  lemma WrapIs(x: nat)
    ensures 0 <= x < TWO63 ==> Wrap64(x) == x
    ensures -TWO63 <= Wrap64(x) < TWO63
    ensures TWO63 <= x ==> Wrap64(x) != x
  {
  }

  /** The page shown is the page asked for exactly when the offset fits 64 bits, or wraps to one behind the
      end of the list. */
  lemma PageRightIff(recs: seq<Record>, page: int, size: int)
    requires 1 <= page < TWO63 && 1 <= size <= 200 && |recs| < TWO63
    ensures CutPage(recs, page, size) == Shown(Page(recs, page, size), |recs|)
            <==> (page - 1) * size < TWO63 || |recs| <= Wrap64((page - 1) * size)
  {
    var offset := (page - 1) * size;
    assert 0 <= offset;
    WrapIs(offset);
  }

  /** An offset that does not fit: a page number with which the slice is out of range. */
  lemma HugePageOutOfRange(recs: seq<Record>)
    ensures CutPage(recs, 0x4000_0000_0000_0001, 2) == SliceOutOfRange
  {
    assert (0x4000_0000_0000_0001 - 1) * 2 == TWO63;
    assert Wrap64(TWO63) == -TWO63;
  }

  // ---------------------------------------------------------------- the whole listing

  datatype Tab = ActiveTab | HistoryTab | OtherTab

  method SelectLoop(recs: seq<Record>, q: string, proto: string) returns (out: seq<Record>)
    ensures out == Select(recs, Want(q, proto))
  {
    out := [];
    for i := 0 to |recs|
      invariant out == Select(recs[..i], Want(q, proto))
    {
      assert recs[..i + 1][..i] == recs[..i];
      if Wanted(q, proto, recs[i]) {
        out := out + [recs[i]];
      }
    }
    assert recs[..|recs|] == recs;
  }

  /** List: arguments checked first, then the snapshot of a tab, filtered, sorted and cut. What is shown
      is a page of the wanted records by descending id; total counts them all. */
  method List(t: ConnTracker.ConnTracker, tab: Tab, q: string, proto: string, page: int, size: int)
    returns (a: Answer, ghost snapshot: seq<Record>, ghost now: int)
    requires t.Valid()
    modifies t`active, t`ringHead, t`ringCount, t`log, t`stamp, t`time, t.ring
    ensures t.Valid()
    ensures tab.OtherTab? || page < 1 || size < 1 || 200 < size ==> a.Invalid? && t.View() == old(t.View())
    ensures !tab.OtherTab? && 1 <= page && 1 <= size <= 200 ==>
              && DistinctIds(snapshot) && a == CutPage(Sort(Select(snapshot, Want(q, proto))), page, size)
              && (forall r | r in snapshot :: Known(t.View(), r))
              && (tab.ActiveTab? ==> forall r :: r in snapshot <==> r.id in t.active && t.active[r.id] == r)
              && (tab.HistoryTab? ==>
                    (snapshot == Ring.Fresh(Ring.LastOf(t.log, t.capacity), t.maxAge, t.time)
                     <==> NoneStalled(old(t.active), t.maxAge, now) || t.time - now <= t.maxAge))
              && (tab.HistoryTab? ==>
                    forall r | r in Ring.Fresh(Ring.LastOf(t.log, t.capacity), t.maxAge, t.time) :: r in snapshot)
    ensures var listed := Sort(Select(snapshot, Want(q, proto)));
            && Sorted(listed) && multiset(listed) == multiset(Select(snapshot, Want(q, proto)))
            && forall i, j | 0 <= i < j < |listed| :: listed[i].id > listed[j].id
  {
    snapshot, now := [], t.time;
    if tab.OtherTab? || page < 1 || size < 1 || 200 < size {
      return Invalid, [], now;
    }
    var recs;
    ghost var order;
    recs, now, order := t.History();
    if tab.ActiveTab? {
      recs := t.ActiveRecords();
    }
    snapshot := recs;
    ConnTracker.SoundIsInv(t.View(), t.stamp);
    recs := SelectLoop(recs, q, proto);
    SelectDistinct(snapshot, Want(q, proto));
    SortSorts(recs);
    SelectKeeps(snapshot, Want(q, proto));
    ListIsByDescendingId(t.View(), t.stamp, recs, Sort(recs));
    a := CutPage(Sort(recs), page, size);
  }
}
