/** Addresses and the private ranges (rules.go). netip.Addr is a 32-bit or a 128-bit number, the
    latter with an optional zone. */
module Addresses {
  import opened Basics

  const TWO32: int := 0x1_0000_0000

  type V4Number = x: int | 0 <= x < 0x1_0000_0000
  type V6Number = x: int | 0 <= x < 0x1_0000_0000_0000_0000_0000_0000_0000_0000

  datatype Addr = V4(v4: V4Number) | V6(v6: V6Number, zone: string)

  /** ::ffff:0:0/96, the IPv4-mapped addresses. */
  const MAPPED: int := 0xffff_0000_0000

  predicate IsMapped(a: Addr) {
    a.V6? && MAPPED <= a.v6 < MAPPED + TWO32
  }

  /** An IPv4-mapped address becomes the IPv4 address inside it; its zone goes with the rest. */
  function Unmap(a: Addr): Addr {
    if IsMapped(a) then V4(a.v6 - MAPPED) else a
  }

  /** Unmap followed by dropping the zone. */
  function Plain(a: Addr): Addr {
    match Unmap(a)
    case V4(v) => V4(v)
    case V6(v, _) => V6(v, "")
  }

  /** A prefix, held as the number of bits outside its mask. */
  datatype Prefix = Prefix(base: Addr, hostBits: nat)

  /** netip.Prefix.Contains: same family, no zone, equal bits above the host part. */
  predicate Contains(p: Prefix, a: Addr) {
    match (p.base, a)
    case (V4(b), V4(v)) => v / Pow2(p.hostBits) == b / Pow2(p.hostBits)
    case (V6(b, _), V6(v, zone)) => zone == "" && v / Pow2(p.hostBits) == b / Pow2(p.hostBits)
    case _ => false
  }

  /** The table of NewRuleEngine, in its order. */
  const PRIVATE: seq<Prefix> := [
    Prefix(V4(0), 24),
    Prefix(V4(0x0a00_0000), 24),
    Prefix(V4(0x6440_0000), 22),
    Prefix(V4(0xac10_0000), 20),
    Prefix(V4(0xc0a8_0000), 16),
    Prefix(V4(0x7f00_0000), 24),
    Prefix(V6(0, ""), 0),
    Prefix(V6(1, ""), 0),
    Prefix(V4(0xa9fe_0000), 16),
    Prefix(V6(0xfc00_0000_0000_0000_0000_0000_0000_0000, ""), 121),
    Prefix(V6(0xfe80_0000_0000_0000_0000_0000_0000_0000, ""), 118)
  ]

  predicate AnyContains(table: seq<Prefix>, a: Addr) {
    exists i | 0 <= i < |table| :: Contains(table[i], a)
  }

  /** a is private: some prefix of the table contains its plain form. */
  predicate IsPrivate(a: Addr) {
    AnyContains(PRIVATE, Plain(a))
  }

  method CheckPrivate(a: Addr) returns (private: bool)
    ensures private == IsPrivate(a)
  {
    var plain := Plain(a);
    for i := 0 to |PRIVATE|
      invariant forall j | 0 <= j < i :: !Contains(PRIVATE[j], plain)
    {
      if Contains(PRIVATE[i], plain) {
        return true;
      }
    }
    return false;
  }

  // ---------------------------------------------------------------- the ranges as numbers

  /** Where a local-private connection may go: section 3 of RFC 1918, the shared range of RFC 6598 and
      the unique local range of section 3.1 of RFC 4193, by their first and last address. */
  predicate InSiteRange(a: Addr) {
    match a
    case V4(v) =>
      || 0x0a00_0000 <= v <= 0x0aff_ffff
      || 0xac10_0000 <= v <= 0xac1f_ffff
      || 0xc0a8_0000 <= v <= 0xc0a8_ffff
      || 0x6440_0000 <= v <= 0x647f_ffff
    case V6(v, _) =>
      0xfc00_0000_0000_0000_0000_0000_0000_0000 <= v <= 0xfdff_ffff_ffff_ffff_ffff_ffff_ffff_ffff
  }

  /** The host itself and its link: "this network", loopback, link-local, unspecified. */
  predicate InHostRange(a: Addr) {
    match a
    case V4(v) =>
      || v <= 0x00ff_ffff
      || 0x7f00_0000 <= v <= 0x7fff_ffff
      || 0xa9fe_0000 <= v <= 0xa9fe_ffff
    case V6(v, _) =>
      || v <= 1
      || 0xfe80_0000_0000_0000_0000_0000_0000_0000 <= v <= 0xfebf_ffff_ffff_ffff_ffff_ffff_ffff_ffff
  }

  /** Equal quotients are an interval of numbers. */
  lemma QuotientRange(v: nat, b: nat, m: nat)
    requires 0 < m && b % m == 0
    ensures v / m == b / m <==> b <= v < b + m
  {
    var q, c := v / m, b / m;
    assert v == q * m + v % m && b == c * m;
    if c + 1 <= q {
      MulMonotone(c + 1, q, m);
    } else if q + 1 <= c {
      MulMonotone(q + 1, c, m);
    }
  }

  lemma SmallPowers()
    ensures Pow2(0) == 1 && Pow2(1) == 2 && Pow2(2) == 4
    ensures Pow2(16) == 0x1_0000 && Pow2(20) == 0x10_0000 && Pow2(22) == 0x40_0000 && Pow2(24) == 0x100_0000
  {
    Pow2Sum(4, 4);
    Pow2Sum(8, 8);
    Pow2Sum(16, 4);
    Pow2Sum(20, 2);
    Pow2Sum(22, 2);
  }

  lemma Pow2Of48()
    ensures Pow2(48) == 0x1_0000_0000_0000
  {
    SmallPowers();
    Pow2Sum(24, 24);
  }

  lemma Pow2Of96()
    ensures Pow2(96) == 0x1_0000_0000_0000_0000_0000_0000
  {
    Pow2Of48();
    Pow2Sum(48, 48);
  }

  lemma Pow2Of118()
    ensures Pow2(118) == 0x40_0000_0000_0000_0000_0000_0000_0000
  {
    SmallPowers();
    Pow2Of96();
    Pow2Sum(96, 22);
  }

  lemma LargePowers()
    ensures Pow2(118) == 0x40_0000_0000_0000_0000_0000_0000_0000
    ensures Pow2(121) == 0x200_0000_0000_0000_0000_0000_0000_0000
  {
    Pow2Of118();
    var n: nat := 118;
    assert Pow2(n + 3) == 8 * Pow2(n) by {
      assert Pow2(n + 1) == 2 * Pow2(n);
      assert Pow2(n + 2) == 2 * Pow2(n + 1);
      assert Pow2(n + 3) == 2 * Pow2(n + 2);
    }
  }

  lemma InV4Prefix(lo: V4Number, hostBits: nat, size: nat, x: Addr)
    requires size == Pow2(hostBits) && lo % size == 0
    ensures Contains(Prefix(V4(lo), hostBits), x) <==> x.V4? && lo <= x.v4 < lo + size
  {
    if x.V4? {
      QuotientRange(x.v4, lo, size);
    }
  }

  lemma InV6Prefix(lo: V6Number, hostBits: nat, size: nat, x: Addr)
    requires size == Pow2(hostBits) && lo % size == 0
    ensures Contains(Prefix(V6(lo, ""), hostBits), x) <==> x.V6? && x.zone == "" && lo <= x.v6 < lo + size
  {
    if x.V6? {
      QuotientRange(x.v6, lo, size);
    }
  }

  lemma AnyContainsUnfolds(t: seq<Prefix>, x: Addr)
    requires |t| == 11
    ensures AnyContains(t, x) <==>
            || Contains(t[0], x) || Contains(t[1], x) || Contains(t[2], x) || Contains(t[3], x)
            || Contains(t[4], x) || Contains(t[5], x) || Contains(t[6], x) || Contains(t[7], x)
            || Contains(t[8], x) || Contains(t[9], x) || Contains(t[10], x)
  {
  }

  /** The /8 prefixes of the table as ranges of numbers. */
  lemma TableSlash8(x: Addr)
    requires x.V4?
    ensures Contains(PRIVATE[0], x) <==> x.v4 < 0x100_0000
    ensures Contains(PRIVATE[1], x) <==> 0x0a00_0000 <= x.v4 < 0x0b00_0000
    ensures Contains(PRIVATE[5], x) <==> 0x7f00_0000 <= x.v4 < 0x8000_0000
  {
    SmallPowers();
    InV4Prefix(0, 24, 0x100_0000, x);
    InV4Prefix(0x0a00_0000, 24, 0x100_0000, x);
    InV4Prefix(0x7f00_0000, 24, 0x100_0000, x);
  }

  /** The longer IPv4 prefixes of the table as ranges of numbers. */
  lemma TableLongV4(x: Addr)
    requires x.V4?
    ensures Contains(PRIVATE[2], x) <==> 0x6440_0000 <= x.v4 < 0x6480_0000
    ensures Contains(PRIVATE[3], x) <==> 0xac10_0000 <= x.v4 < 0xac20_0000
    ensures Contains(PRIVATE[4], x) <==> 0xc0a8_0000 <= x.v4 < 0xc0a9_0000
    ensures Contains(PRIVATE[8], x) <==> 0xa9fe_0000 <= x.v4 < 0xa9ff_0000
  {
    SmallPowers();
    InV4Prefix(0x6440_0000, 22, 0x40_0000, x);
    InV4Prefix(0xac10_0000, 20, 0x10_0000, x);
    InV4Prefix(0xc0a8_0000, 16, 0x1_0000, x);
    InV4Prefix(0xa9fe_0000, 16, 0x1_0000, x);
  }

  /** The IPv6 prefixes of the table as ranges of numbers. */
  lemma TableV6(x: Addr)
    requires x.V6? && x.zone == ""
    ensures Contains(PRIVATE[6], x) <==> x.v6 == 0
    ensures Contains(PRIVATE[7], x) <==> x.v6 == 1
    ensures Contains(PRIVATE[9], x) <==>
            0xfc00_0000_0000_0000_0000_0000_0000_0000 <= x.v6 < 0xfe00_0000_0000_0000_0000_0000_0000_0000
    ensures Contains(PRIVATE[10], x) <==>
            0xfe80_0000_0000_0000_0000_0000_0000_0000 <= x.v6 < 0xfec0_0000_0000_0000_0000_0000_0000_0000
  {
    LargePowers();
    InV6Prefix(0, 0, 1, x);
    InV6Prefix(1, 0, 1, x);
    InV6Prefix(0xfc00_0000_0000_0000_0000_0000_0000_0000, 121, 0x200_0000_0000_0000_0000_0000_0000_0000, x);
    InV6Prefix(0xfe80_0000_0000_0000_0000_0000_0000_0000, 118, 0x40_0000_0000_0000_0000_0000_0000_0000, x);
  }

  /** The table, for every address: the site ranges and the host ranges, and nothing else. */
  lemma PrivateIsSiteOrHost(a: Addr)
    ensures IsPrivate(a) <==> InSiteRange(Plain(a)) || InHostRange(Plain(a))
  {
    var x := Plain(a);
    AnyContainsUnfolds(PRIVATE, x);
    if x.V4? {
      TableSlash8(x);
      TableLongV4(x);
    } else {
      TableV6(x);
    }
  }

  // ---------------------------------------------------------------- dropHostLocal

  /** No spelling of an address makes it public: not as an IPv4-mapped one, not with a zone. */
  lemma SpellingIsIrrelevant(v4: V4Number, v6: V6Number, zone: string)
    ensures IsPrivate(V6(0xffff_0000_0000 + v4, zone)) == IsPrivate(V4(v4))
    ensures IsPrivate(V6(v6, zone)) == IsPrivate(V6(v6, ""))
    ensures Plain(V6(0xffff_0000_0000 + v4, zone)) == V4(v4) == Plain(V4(v4))
    ensures !(0xffff_0000_0000 <= v6 < 0x1_0000_0000_0000) ==> Plain(V6(v6, zone)) == V6(v6, "")
  {
    assert Plain(V6(MAPPED + v4, zone)) == Plain(V4(v4));
    assert Plain(V6(v6, zone)) == Plain(V6(v6, ""));
  }

  /** netip's IsLoopback on a plain address. */
  predicate IsLoopback(a: Addr) {
    match a
    case V4(v) => v / 0x100_0000 == 127
    case V6(v, _) => v == 1
  }

  /** netip's IsLinkLocalUnicast on a plain address: 169.254.0.0/16, fe80::/10. */
  predicate IsLinkLocal(a: Addr) {
    match a
    case V4(v) => v / 0x1_0000 == 0xa9fe
    case V6(v, _) => v / 0x40_0000_0000_0000_0000_0000_0000_0000 == 0x3fa
  }

  /** What dropHostLocal keeps, given the plain form. */
  predicate LeavesHost(a: Addr) {
    !IsLoopback(a) && !IsLinkLocal(a) && !Contains(Prefix(V4(0), 24), a) && a != V6(0, "")
  }

  function DropHostLocal(addrs: seq<Addr>): seq<Addr> {
    if addrs == [] then []
    else
      var rest := DropHostLocal(addrs[..|addrs| - 1]);
      var a := Plain(addrs[|addrs| - 1]);
      if LeavesHost(a) then rest + [a] else rest
  }

  method DropHostLocalLoop(addrs: seq<Addr>) returns (kept: seq<Addr>)
    ensures kept == DropHostLocal(addrs)
  {
    kept := [];
    for i := 0 to |addrs|
      invariant kept == DropHostLocal(addrs[..i])
    {
      assert addrs[..i + 1][..i] == addrs[..i];
      var a := Plain(addrs[i]);
      if LeavesHost(a) {
        kept := kept + [a];
      }
    }
    assert addrs[..|addrs|] == addrs;
  }

  /** What is kept stays in the resolver's order. */
  lemma {:induction false} DropHostLocalInOrder(addrs: seq<Addr>) returns (places: seq<nat>)
    ensures |places| == |DropHostLocal(addrs)|
    ensures forall i | 0 <= i < |places| :: places[i] < |addrs| && DropHostLocal(addrs)[i] == Plain(addrs[places[i]])
    ensures forall i, j | 0 <= i < j < |places| :: places[i] < places[j]
  {
    if addrs == [] {
      places := [];
    } else {
      places := DropHostLocalInOrder(addrs[..|addrs| - 1]);
      if LeavesHost(Plain(addrs[|addrs| - 1])) {
        places := places + [|addrs| - 1];
      }
    }
  }

  lemma {:induction false} DropHostLocalKeeps(addrs: seq<Addr>, x: Addr)
    ensures x in DropHostLocal(addrs) <==> LeavesHost(x) && exists i | 0 <= i < |addrs| :: Plain(addrs[i]) == x
  {
    if addrs != [] {
      var rest, last := addrs[..|addrs| - 1], addrs[|addrs| - 1];
      DropHostLocalKeeps(rest, x);
      assert forall i | 0 <= i < |rest| :: rest[i] == addrs[i];
    }
  }

  /** What is left of the private table without the host ranges is exactly the site ranges, for every
      address, IPv4-mapped and zoned ones included. */
  lemma PrivateLeavingHostIsSite(a: Addr)
    ensures IsPrivate(a) && LeavesHost(Plain(a)) <==> InSiteRange(Plain(a))
    ensures LeavesHost(Plain(a)) <==> !InHostRange(Plain(a))
  {
    PrivateIsSiteOrHost(a);
    SmallPowers();
    var x := Plain(a);
    InV4Prefix(0, 24, 0x100_0000, x);
    if x.V4? {
      QuotientRange(x.v4, 0x7f00_0000, 0x100_0000);
      QuotientRange(x.v4, 0xa9fe_0000, 0x1_0000);
    } else {
      QuotientRange(x.v6, 0xfe80_0000_0000_0000_0000_0000_0000_0000, 0x40_0000_0000_0000_0000_0000_0000_0000);
    }
  }

  /** All-private answers, filtered: a candidate is a site address, plain, and one of the answers. */
  lemma SiteCandidates(addrs: seq<Addr>, x: Addr)
    requires forall a | a in addrs :: IsPrivate(a)
    ensures x in DropHostLocal(addrs) <==> InSiteRange(x) && exists i | 0 <= i < |addrs| :: Plain(addrs[i]) == x
  {
    DropHostLocalKeeps(addrs, x);
    forall i | 0 <= i < |addrs|
      ensures LeavesHost(Plain(addrs[i])) <==> InSiteRange(Plain(addrs[i]))
    {
      assert addrs[i] in addrs;
      PrivateLeavingHostIsSite(addrs[i]);
    }
  }
}
