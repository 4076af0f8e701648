/** Picking an overlay subnet for a new network. */
module Subnets {
  import opened Sets
  import opened Text

  /** A parsed IPv4 CIDR: the address as written (not masked) and the prefix length. */
  datatype Prefix = Prefix(addr: nat, bits: nat)

  predicate ValidPrefix(p: Prefix) {
    p.addr < 0x1_0000_0000 && p.bits <= 32
  }

  /** The address without its last n bits. */
  function Shift(ip: nat, n: nat): nat {
    if n == 0 then ip else Shift(ip, n - 1) / 2
  }

  predicate Contains(p: Prefix, ip: nat)
    requires ValidPrefix(p)
  {
    Shift(ip, 32 - p.bits) == Shift(p.addr, 32 - p.bits)
  }

  ghost predicate Disjoint(p: Prefix, q: Prefix)
    requires ValidPrefix(p) && ValidPrefix(q)
  {
    forall ip: nat :: !(Contains(p, ip) && Contains(q, ip))
  }

  const FIRST: nat := 42
  const LAST: nat := 255

  /** 10.n.0.0/16 */
  function Overlay(n: nat): (p: Prefix)
    requires n <= LAST
    ensures ValidPrefix(p)
  {
    Prefix(10 * 0x100_0000 + n * 0x1_0000, 16)
  }

  /** The second octet a 10.x network occupies in the scan. */
  function Octet(p: Prefix): Option<nat> {
    if p.addr / 0x100_0000 == 10 then Some(p.addr / 0x1_0000 % 0x100) else None
  }

  /** Second octets in use; a network whose IPv4 subnet is missing or does not parse has None. */
  function Used(nets: seq<Option<Prefix>>): set<nat> {
    set p | p in nets && p.Some? && Octet(p.value).Some? :: Octet(p.value).value
  }

  /** The first octet at or after n that is not used, or 255 when there is none before it. */
  function Pick(used: set<nat>, n: nat): (m: nat)
    requires n <= LAST
    ensures n <= m <= LAST
    ensures m < LAST ==> m !in used
    ensures forall k :: n <= k < m ==> k in used
    decreases LAST - n
  {
    if n < LAST && n in used then Pick(used, n + 1) else n
  }

  class Node {
    var nets: seq<Option<Prefix>>

    method NextFreeSubnet() returns (p: Prefix)
      ensures p == Overlay(Pick(Used(nets), FIRST))
    {
      var used: set<nat> := {};
      for i := 0 to |nets|
        invariant used == Used(nets[..i])
      {
        assert nets[..i + 1] == nets[..i] + [nets[i]];
        if nets[i].Some? && Octet(nets[i].value).Some? {
          used := used + {Octet(nets[i].value).value};
        }
      }
      assert nets[..|nets|] == nets;
      var n := FIRST;
      while n < LAST && n in used
        invariant FIRST <= n <= LAST
        invariant Pick(used, n) == Pick(used, FIRST)
      {
        n := n + 1;
      }
      p := Overlay(n);
    }

    /** NetworkAdd with neither subnet given. */
    method AddAuto()
      modifies this
      ensures nets == old(nets) + [Some(Overlay(Pick(Used(old(nets)), FIRST)))]
    {
      var p := NextFreeSubnet();
      nets := nets + [Some(p)];
    }
  }

  // ---------------------------------------------------------------- overlap

  lemma {:induction false} ShiftTwice(ip: nat, m: nat, n: nat)
    ensures Shift(Shift(ip, m), n) == Shift(ip, m + n)
  {
    if n > 0 {
      ShiftTwice(ip, m, n - 1);
    }
  }

  lemma ShiftFour(ip: nat, n: nat)
    requires n == 4
    ensures Shift(ip, n) == ip / 16
  {
    assert Shift(ip, n - 3) == ip / 2;
    assert Shift(ip, n - 2) == ip / 4;
    assert Shift(ip, n - 1) == ip / 8;
  }

  /** Dropping 16 bits is dividing by 2^16. */
  lemma ShiftSixteen(ip: nat, n: nat)
    requires n == 16
    ensures Shift(ip, n) == ip / 0x1_0000
  {
    ShiftTwice(ip, 4, 4);
    ShiftTwice(ip, 8, 4);
    ShiftTwice(ip, 12, 4);
    ShiftFour(ip, 4);
    ShiftFour(Shift(ip, 4), 4);
    ShiftFour(Shift(ip, 8), 4);
    ShiftFour(Shift(ip, 12), 4);
  }

  /** A prefix of at least 16 bits stays inside the /16 of its address. */
  lemma LongPrefixInOneBlock(p: Prefix, ip: nat)
    requires ValidPrefix(p) && p.bits >= 16 && Contains(p, ip)
    ensures ip / 0x1_0000 == p.addr / 0x1_0000
  {
    ShiftTwice(ip, 32 - p.bits, p.bits - 16);
    ShiftTwice(p.addr, 32 - p.bits, p.bits - 16);
    ShiftSixteen(ip, 16);
    ShiftSixteen(p.addr, 16);
  }

  lemma OverlayOctet(n: nat)
    requires n <= LAST
    ensures Octet(Overlay(n)) == Some(n) && Overlay(n).addr / 0x1_0000 == 0xA00 + n
  {
  }

  lemma OverlayBlock(n: nat, ip: nat)
    requires n <= LAST
    ensures Contains(Overlay(n), ip) <==> ip / 0x1_0000 == 0xA00 + n
    ensures Octet(Overlay(n)) == Some(n)
  {
    OverlayOctet(n);
    ShiftSixteen(ip, 32 - Overlay(n).bits);
    ShiftSixteen(Overlay(n).addr, 32 - Overlay(n).bits);
  }

  lemma OctetOfBlock(p: Prefix, n: nat)
    requires n <= LAST
    ensures Octet(p) == Some(n) <==> p.addr / 0x1_0000 == 0xA00 + n
  {
  }

  /** For a subnet of at least 16 bits, the octet bookkeeping is exact. */
  lemma OverlapIsSameOctet(p: Prefix, n: nat)
    requires ValidPrefix(p) && p.bits >= 16 && n <= LAST
    ensures Disjoint(Overlay(n), p) <==> Octet(p) != Some(n)
  {
    OctetOfBlock(p, n);
    if Octet(p) == Some(n) {
      OverlayBlock(n, p.addr);
      assert Contains(Overlay(n), p.addr) && Contains(p, p.addr);
    } else {
      forall ip: nat
        ensures !(Contains(Overlay(n), ip) && Contains(p, ip))
      {
        OverlayBlock(n, ip);
        if Contains(p, ip) {
          LongPrefixInOneBlock(p, ip);
        }
      }
    }
  }

  predicate AllLong(nets: seq<Option<Prefix>>) {
    forall p :: p in nets && p.Some? ==> ValidPrefix(p.value) && p.value.bits >= 16
  }

  predicate AllValid(nets: seq<Option<Prefix>>) {
    forall p :: p in nets && p.Some? ==> ValidPrefix(p.value)
  }

  ghost predicate DisjointFromAll(q: Prefix, nets: seq<Option<Prefix>>)
    requires ValidPrefix(q) && AllValid(nets)
  {
    forall p :: p in nets && p.Some? ==> Disjoint(q, p.value)
  }

  predicate FreeOctet(nets: seq<Option<Prefix>>) {
    exists n :: FIRST <= n <= LAST && n !in Used(nets)
  }

  /** Two prefixes overlap exactly when the shorter one contains the other's address. */
  lemma OverlapIsContainment(p: Prefix, q: Prefix)
    requires ValidPrefix(p) && ValidPrefix(q) && q.bits <= p.bits
    ensures Disjoint(p, q) <==> !Contains(q, p.addr)
  {
    assert Contains(p, p.addr);
    forall ip: nat | Contains(p, ip)
      ensures Contains(q, ip) == Contains(q, p.addr)
    {
      ShiftTwice(ip, 32 - p.bits, p.bits - q.bits);
      ShiftTwice(p.addr, 32 - p.bits, p.bits - q.bits);
    }
  }

  /** Some prefix shorter than /16 contains the whole block. */
  ghost predicate Covered(block: Prefix, nets: seq<Option<Prefix>>)
    requires AllValid(nets)
  {
    exists p :: p in nets && p.Some? && p.value.bits < 16 && Contains(p.value, block.addr)
  }

  lemma DisjointIfUnused(nets: seq<Option<Prefix>>, n: nat)
    requires AllValid(nets) && n <= LAST
    ensures n !in Used(nets) && !Covered(Overlay(n), nets) ==> DisjointFromAll(Overlay(n), nets)
    ensures DisjointFromAll(Overlay(n), nets) ==> !Covered(Overlay(n), nets)
  {
    forall p | p in nets && p.Some?
      ensures p.value.bits >= 16 ==> (Disjoint(Overlay(n), p.value) <==> Octet(p.value) != Some(n))
      ensures p.value.bits < 16 ==> (Disjoint(Overlay(n), p.value) <==> !Contains(p.value, Overlay(n).addr))
    {
      if p.value.bits >= 16 {
        OverlapIsSameOctet(p.value, n);
      } else {
        OverlapIsContainment(Overlay(n), p.value);
      }
    }
  }

  /** A used octet belongs to a prefix that overlaps its block, however long. */
  lemma UsedOverlaps(nets: seq<Option<Prefix>>, n: nat)
    requires AllValid(nets) && n <= LAST && n in Used(nets)
    ensures !DisjointFromAll(Overlay(n), nets)
  {
    var p :| p in nets && p.Some? && Octet(p.value).Some? && Octet(p.value).value == n;
    OctetOfBlock(p.value, n);
    OverlayBlock(n, p.value.addr);
    assert Contains(Overlay(n), p.value.addr) && Contains(p.value, p.value.addr);
    assert !Disjoint(Overlay(n), p.value);
  }

  lemma PickIsFree(nets: seq<Option<Prefix>>)
    ensures Pick(Used(nets), FIRST) !in Used(nets) <==> FreeOctet(nets)
  {
  }

  /** Whatever prefixes there are, the subnet picked overlaps none of them exactly when some octet
      from 42 to 255 is still free and no prefix shorter than /16 contains the subnet picked. */
  lemma PickIsDisjointExactly(nets: seq<Option<Prefix>>)
    requires AllValid(nets)
    ensures var block := Overlay(Pick(Used(nets), FIRST));
            DisjointFromAll(block, nets) <==> FreeOctet(nets) && !Covered(block, nets)
  {
    var n := Pick(Used(nets), FIRST);
    PickIsFree(nets);
    DisjointIfUnused(nets, n);
    if n in Used(nets) {
      UsedOverlaps(nets, n);
    }
  }

  /** In particular, where no prefix is shorter than /16, when some octet is still free. */
  lemma PickIsDisjoint(nets: seq<Option<Prefix>>)
    requires AllLong(nets)
    ensures DisjointFromAll(Overlay(Pick(Used(nets), FIRST)), nets) <==> FreeOctet(nets)
  {
    PickIsDisjointExactly(nets);
  }

  lemma ShiftTwentySix(ip: nat)
    ensures Shift(ip, 26) == ip / 0x400_0000
  {
    ShiftTwice(ip, 16, 8);
    ShiftTwice(ip, 24, 2);
    ShiftTwice(Shift(ip, 16), 4, 4);
    ShiftSixteen(ip, 16);
    ShiftFour(Shift(ip, 16), 4);
    ShiftFour(Shift(Shift(ip, 16), 4), 4);
    assert Shift(Shift(ip, 24), 1) == Shift(ip, 24) / 2;
  }

  lemma ShortContains(p: Prefix, ip: nat)
    requires p == Prefix(8 * 0x100_0000, 6)
    ensures Contains(p, ip) <==> ip / 0x400_0000 == 2
  {
    ShiftTwentySix(ip);
    ShiftTwentySix(p.addr);
  }

  /** 8.0.0.0/6 uses no octet and contains every block that can be picked. */
  lemma ShortPrefixOverlaps(p: Prefix, n: nat)
    requires p == Prefix(8 * 0x100_0000, 6) && n <= LAST
    ensures Octet(p) == None && Covered(Overlay(n), [Some(p)]) && !Disjoint(Overlay(n), p)
  {
    ShortContains(p, Overlay(n).addr);
    OverlapIsContainment(Overlay(n), p);
    assert Some(p) in [Some(p)];
  }

  // ---------------------------------------------------------------- a run of additions

  function WithAuto(nets: seq<Option<Prefix>>): seq<Option<Prefix>> {
    nets + [Some(Overlay(Pick(Used(nets), FIRST)))]
  }

  function Added(nets: seq<Option<Prefix>>, k: nat): seq<Option<Prefix>> {
    if k == 0 then nets else WithAuto(Added(nets, k - 1))
  }

  function Range(lo: nat, hi: nat): (r: set<nat>)
    requires lo <= hi
    ensures |r| == hi - lo
    ensures forall n :: n in r <==> lo <= n < hi
    decreases hi - lo
  {
    if lo == hi then {} else {lo} + Range(lo + 1, hi)
  }

  /** How many second octets the scan can choose from: 42 to 255. */
  const OCTETS: nat := 214

  function Taken(nets: seq<Option<Prefix>>): set<nat> {
    set n | n in Used(nets) && FIRST <= n <= LAST
  }

  lemma SomeIsFree(lo: nat, hi: nat, taken: set<nat>)
    requires lo <= hi && |taken| < hi - lo
    ensures exists n :: lo <= n < hi && n !in taken
  {
    var all := Range(lo, hi);
    if all <= taken {
      SubsetCard(all, taken);
    }
  }

  lemma SomeOctetIsFree(nets: seq<Option<Prefix>>)
    requires |Taken(nets)| < OCTETS
    ensures FreeOctet(nets)
  {
    SomeIsFree(FIRST, LAST + 1, Taken(nets));
  }

  lemma AutoAddition(nets: seq<Option<Prefix>>)
    requires AllLong(nets)
    ensures AllLong(WithAuto(nets)) && |Taken(WithAuto(nets))| <= |Taken(nets)| + 1
  {
    var n := Pick(Used(nets), FIRST);
    OverlayBlock(n, 0);
    assert Taken(WithAuto(nets)) <= Taken(nets) + {n};
    SubsetCard(Taken(WithAuto(nets)), Taken(nets) + {n});
  }

  lemma {:induction false} AddedKeeps(nets: seq<Option<Prefix>>, k: nat)
    requires AllLong(nets)
    ensures AllLong(Added(nets, k)) && |Taken(Added(nets, k))| <= |Taken(nets)| + k
  {
    if k > 0 {
      AddedKeeps(nets, k - 1);
      AutoAddition(Added(nets, k - 1));
    }
  }

  lemma {:induction false} AddedExtends(nets: seq<Option<Prefix>>, i: nat, k: nat)
    requires i <= k
    ensures |Added(nets, k)| == |nets| + k && Added(nets, i) <= Added(nets, k)
  {
    if k > 0 {
      AddedExtends(nets, if i < k then i else k - 1, k - 1);
      assert Added(nets, k) == WithAuto(Added(nets, k - 1));
      assert Added(nets, k - 1) <= WithAuto(Added(nets, k - 1));
    }
  }

  /** However many networks are added with automatic subnets, as long as the octets already
      taken plus the additions fit in the 214 available, each one overlaps nothing that was
      there before it. */
  lemma RunOfAdditionsIsDisjoint(nets: seq<Option<Prefix>>, k: nat, i: nat)
    requires AllLong(nets) && i < k && |Taken(nets)| + k <= OCTETS
    ensures AllLong(Added(nets, i))
    ensures |nets| + i < |Added(nets, k)| && Added(nets, i) <= Added(nets, k)
    ensures var p := Added(nets, k)[|nets| + i];
            p.Some? && ValidPrefix(p.value) && DisjointFromAll(p.value, Added(nets, i))
  {
    var before := Added(nets, i);
    AddedKeeps(nets, i);
    SomeOctetIsFree(before);
    PickIsDisjoint(before);
    AddedExtends(nets, i + 1, k);
    AddedExtends(nets, i, i + 1);
    assert Added(nets, k)[|nets| + i] == WithAuto(before)[|nets| + i];
  }

  // ---------------------------------------------------------------- the block itself

  /** The block picked for octet n holds exactly the addresses 10.n.x.y. */
  lemma BlockHolds(n: nat, ip: nat)
    requires n <= LAST
    ensures Contains(Overlay(n), ip) <==> ip / 0x1_0000 == 0x0A00 + n
  {
    ShiftSixteen(ip, 16);
    ShiftSixteen(Overlay(n).addr, 16);
  }

  /** A node without networks gets 10.42.0.0/16, and no node gets an octet below 42. */
  lemma FirstBlock(nets: seq<Option<Prefix>>)
    ensures Pick(Used([]), FIRST) == 42 && 42 <= Pick(Used(nets), FIRST) <= 255
  {
  }
}
