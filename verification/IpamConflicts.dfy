/**
  IPAM consistency checks (`internal/domain/ipam_conflicts.go`): networks sharing
  a block, addresses claimed by several hosts, addresses outside every network.
 */
module IpamConflicts {
  import opened Wrappers
  import opened Bytes
  import opened Masks
  import opened Address
  import opened Listing
  import opened Sorting
  import opened Ipam
  import opened Attribution
  import opened Usage

  // ---- Blocks that are the same, nested or disjoint ----

  /** `sameBlock`: equal prefix lengths and `IP.Equal` bases. */
  predicate SameBlock(a: CIDR, b: CIDR) {
    a.ones == b.ones && To16(a.ip) == To16(b.ip)
  }

  /** Every address of a is an address of b. */
  ghost predicate Within(a: CIDR, b: CIDR) {
    forall k: nat :: a.Has(k) ==> b.Has(k)
  }

  ghost predicate SameSet(a: CIDR, b: CIDR) {
    Within(a, b) && Within(b, a)
  }

  /** ::fffe:0:0, the block just below the IPv4-mapped one. */
  const BELOW_MAPPED: nat := 0xfffe_0000_0000

  /** ::fffe:0:0/95 and ::fffe:0:0/96: they differ only by the mapped block, which neither matches. */
  predicate Twins(a: CIDR, b: CIDR) {
    a.Lo() == b.Lo() == BELOW_MAPPED && {a.HostBits(), b.HostBits()} == {32, 33}
  }

  /** Both CIDRs were written with the same number of bytes, and are not the twins. */
  predicate Comparable(a: CIDR, b: CIDR) {
    |a.ip| == |b.ip| && !Twins(a, b)
  }

  lemma {:induction false} SameBlockSameRange(a: CIDR, b: CIDR)
    ensures SameBlock(a, b) ==> a.Lo() == b.Lo() && |a.ip| == |b.ip| && a.HostBits() == b.HostBits()
    ensures a.Lo() == b.Lo() && |a.ip| == |b.ip| && a.HostBits() == b.HostBits() ==> SameBlock(a, b)
  {
    if SameBlock(a, b) && |a.ip| != |b.ip| {
      To4IsV4Key(a.ip);
      To4IsV4Key(b.ip);
      MappedHostBits(a);
      MappedHostBits(b);
      assert false;
    }
    if a.Lo() == b.Lo() {
      KeyInjective(a.ip, b.ip);
    }
  }

  /** A block of IPv4 addresses lies wholly in the mapped range. */
  lemma {:induction false} V4BlockRange(a: CIDR, k: nat)
    requires IsV4Key(a.Lo()) && a.Lo() <= k < a.Lo() + a.Size()
    ensures a.Has(k)
  {
    To4IsV4Key(a.ip);
    MappedHostBits(a);
    SmallBlockOneFamily(a, k);
  }

  /** Equal address sets start at the same key. */
  lemma {:induction false} SameSetSameLo(a: CIDR, b: CIDR)
    requires SameSet(a, b)
    ensures a.Lo() == b.Lo()
  {
    assert a.Has(a.Lo()) && b.Has(b.Lo());
  }

  /** Pow2 is strictly increasing. */
  lemma {:induction false} SmallerHostBits(a: CIDR, b: CIDR)
    requires a.HostBits() < b.HostBits()
    ensures 2 * a.Size() <= b.Size()
  {
    Pow2Monotone(a.HostBits() + 1, b.HostBits());
  }

  lemma {:induction false} Pow2Injective(m: nat, n: nat)
    requires Pow2(m) == Pow2(n)
    ensures m == n
  {
    if m < n {
      Pow2Monotone(m + 1, n);
    } else if n < m {
      Pow2Monotone(n + 1, m);
    }
  }

  /** The larger of two IPv6 blocks with one base and one address set ends with the mapped block. */
  lemma {:induction false} LargerTwin(a: CIDR, b: CIDR)
    requires SameSet(a, b) && a.Lo() == b.Lo() && a.HostBits() < b.HostBits()
    ensures a.HostBits() == 32 && b.HostBits() == 33 && a.Lo() == BELOW_MAPPED
  {
    SmallerHostBits(a, b);
    var sa := a.Size();
    var first, last := a.Lo() + sa, a.Lo() + b.Size() - 1;
    assert b.Has(first) ==> a.Has(first);
    assert b.Has(last) ==> a.Has(last);
    if IsV4Key(a.Lo()) {
      V4BlockRange(b, first);
      assert false;
    }
    TwinArithmetic(b, sa);
    Pow2Large();
    Pow2Injective(a.HostBits(), 32);
    assert Pow2(33) == 2 * Pow2(32);
    Pow2Injective(b.HostBits(), 33);
  }

  lemma {:induction false} TwinArithmetic(b: CIDR, sa: nat)
    requires !IsV4Key(b.Lo()) && 1 <= sa && 2 * sa <= b.Size()
    requires IsV4Key(b.Lo() + sa) && IsV4Key(b.Lo() + b.Size() - 1)
    ensures sa == V4_SIZE && b.Size() == 2 * V4_SIZE && b.Lo() == BELOW_MAPPED
  {
    var lo, sb := b.Lo(), b.Size();
    Pow2Large();
    if b.HostBits() <= 32 {
      SmallBlockOneFamily(b, lo + sa);
      assert false;
    }
    Pow2Monotone(33, b.HostBits());
    assert Pow2(33) == 2 * Pow2(32);
    assert sb >= 2 * V4_SIZE;
    BlockAligned(b);
    AlignedPow2(lo, b.HostBits(), 32);
    V4BaseAligned(32);
    RoundShift(lo, sb, V4_SIZE);
    AlignedSelf(b.HostBits());
    assert Aligned(lo + sb, V4_SIZE);
    AlignedGap(V4_BASE, lo + sb, V4_SIZE);
    assert lo + sb == V4_BASE + V4_SIZE;
    assert lo + sa >= V4_BASE;
    assert sb - sa <= V4_SIZE;
  }

  lemma {:induction false} AlignedSelf(h: nat)
    requires h >= 32
    ensures RoundDown(Pow2(h), V4_SIZE) == Pow2(h)
  {
    Pow2Large();
    AlignedPow2(Pow2(h), h, 32);
  }

  /**
    `sameBlock` against the meaning of a shared block.  It never reports two
    networks with different addresses, and it reports two with the same addresses
    exactly when their CIDRs are comparable: an IPv4 block written once with 4 and
    once with 16 bytes, and ::fffe:0:0/95 beside ::fffe:0:0/96, are missed.
   */
  lemma {:induction false} SameBlockExactly(a: CIDR, b: CIDR)
    ensures SameBlock(a, b) ==> SameSet(a, b)
    ensures SameSet(a, b) ==> (SameBlock(a, b) <==> Comparable(a, b))
  {
    SameBlockSameRange(a, b);
    if SameSet(a, b) {
      SameSetSameLo(a, b);
      if a.HostBits() < b.HostBits() {
        LargerTwin(a, b);
      } else if b.HostBits() < a.HostBits() {
        LargerTwin(b, a);
      }
    }
  }

  /** Between blocks written in one form, being reported is having one address set. */
  lemma {:induction false} PlainBlocksExact(a: CIDR, b: CIDR)
    requires Comparable(a, b)
    ensures SameBlock(a, b) <==> SameSet(a, b)
  {
    SameBlockExactly(a, b);
  }

  /** Two blocks that share an address and are not the same set: one lies strictly inside the other. */
  lemma {:induction false} IntersectingIsNested(a: CIDR, b: CIDR, k: nat)
    requires a.Has(k) && b.Has(k) && !SameSet(a, b)
    ensures (Within(a, b) && !Within(b, a)) || (Within(b, a) && !Within(a, b))
  {
    if a.HostBits() <= b.HostBits() {
      forall j: nat | a.Has(j) ensures b.Has(j) { NestedOrDisjoint(a, b, k, j); }
    } else {
      forall j: nat | b.Has(j) ensures a.Has(j) { NestedOrDisjoint(b, a, k, j); }
    }
  }

  /** An IPv4 block missed because it is written in two forms: 0.0.0.0/0 and ::ffff:0:0/96. */
  lemma {:induction false} TwoFormsMissed()
    ensures exists a: CIDR, b: CIDR :: SameSet(a, b) && !SameBlock(a, b) && !Twins(a, b)
  {
    var a := ZeroBlock(0);
    var b := MappedBlock();
    assert SameSet(a, b) && !SameBlock(a, b) && !Twins(a, b);
  }

  /** The bytes of ::fffe:0:0. */
  const FFFE: seq<Byte> := [0, 0, 0, 0, 0, 0, 0, 0, 0, 0, 0xff, 0xfe] + Zeros(4)

  lemma {:induction false} FffeByte(k: nat)
    requires k == 7 || k == 8
    ensures And8(0xfe, MaskByte(k)) == 0xfe
  {
    Pow2Small();
    AndByte(0xfe, k);
    EvenRound(0x7f);
    RoundBounds(0xfe, 1);
  }

  lemma {:induction false} FffePrefix(p: seq<Byte>, ones: nat)
    requires p == [0, 0, 0, 0, 0, 0, 0, 0, 0, 0, 0xff] && (ones == 95 || ones == 96)
    ensures Masked(p + [0xfe], ones)
  {
    AndCovered(p, ones);
    FffeByte(ones - 88);
    AndAppend(p, 0xfe, ones);
  }

  lemma {:induction false} FffeValid(ones: nat)
    requires ones == 95 || ones == 96
    ensures Masked(FFFE, ones) && Value(FFFE) == BELOW_MAPPED
  {
    var p: seq<Byte> := [0, 0, 0, 0, 0, 0, 0, 0, 0, 0, 0xff];
    var q := p + [0xfe];
    FffePrefix(p, ones);
    AppendZeros(q, ones, 4);
    FffeValue(q);
    assert q == [0, 0, 0, 0, 0, 0, 0, 0, 0, 0, 0xff, 0xfe];
  }

  lemma {:induction false} EvenRound(k: nat)
    ensures Aligned(2 * k, 2)
  {
    if k > 0 {
      EvenRound(k - 1);
    }
  }

  lemma {:induction false} FffeValue(q: seq<Byte>)
    requires q == [0, 0, 0, 0, 0, 0, 0, 0, 0, 0, 0xff, 0xfe]
    ensures Value(q + Zeros(4)) == BELOW_MAPPED
  {
    var z: seq<Byte> := [0, 0, 0, 0, 0, 0, 0, 0];
    var t: seq<Byte> := [0, 0, 0xff, 0xfe];
    var tail: seq<Byte> := Zeros(4);
    ZeroValue(z);
    ZeroValue(tail);
    assert q == z + t;
    ValueAppend4(z, t);
    ValueOf4(t);
    ValueAppend4(q, tail);
  }

  /** ::fffe:0:0/96 and ::fffe:0:0/95 match the same addresses and are not reported. */
  lemma {:induction false} TwinsMissed()
    ensures exists a: CIDR, b: CIDR :: SameSet(a, b) && !SameBlock(a, b) && |a.ip| == |b.ip|
  {
    FffeValid(95);
    FffeValid(96);
    var ip: IP := FFFE;
    var a: CIDR := IPNet(ip, 96);
    var b: CIDR := IPNet(ip, 95);
    Pow2Large();
    assert Pow2(33) == 2 * Pow2(32);
    assert a.Lo() == b.Lo() == BELOW_MAPPED && a.Size() == V4_SIZE && b.Size() == 2 * V4_SIZE;
    forall k: nat ensures a.Has(k) <==> b.Has(k) {}
    assert SameSet(a, b) && !SameBlock(a, b) && |a.ip| == |b.ip|;
  }

  // ---- overlappingNetworks ----

  datatype Overlap<T> = Overlap(a: T, b: T)

  /** The pairs (s[i], s[j]) that are related, for i < j < hi. */
  function PairsWith<T>(s: seq<T>, rel: (T, T) -> bool, i: nat, hi: nat): seq<Overlap<T>>
    requires i < |s| && hi <= |s|
    decreases hi
  {
    if hi <= i + 1 then []
    else PairsWith(s, rel, i, hi - 1) + (if rel(s[i], s[hi - 1]) then [Overlap(s[i], s[hi - 1])] else [])
  }

  /** The related pairs whose first element is one of s[..lo], in listing order. */
  function Pairs<T>(s: seq<T>, rel: (T, T) -> bool, lo: nat): seq<Overlap<T>>
    requires lo <= |s|
  {
    if lo == 0 then [] else Pairs(s, rel, lo - 1) + PairsWith(s, rel, lo - 1, |s|)
  }

  /** p is the pair of elements i and j, in that order, and they are related. */
  predicate IsPair<T(==)>(s: seq<T>, rel: (T, T) -> bool, i: nat, j: nat, p: Overlap<T>) {
    i < j < |s| && p == Overlap(s[i], s[j]) && rel(s[i], s[j])
  }

  lemma {:induction false} PairsWithSound<T>(s: seq<T>, rel: (T, T) -> bool, i: nat, hi: nat, p: Overlap<T>)
    returns (j: nat)
    requires i < |s| && hi <= |s| && p in PairsWith(s, rel, i, hi)
    ensures IsPair(s, rel, i, j, p)
    decreases hi
  {
    if p in PairsWith(s, rel, i, hi - 1) {
      j := PairsWithSound(s, rel, i, hi - 1, p);
    } else {
      j := hi - 1;
    }
  }

  lemma {:induction false} PairsWithComplete<T>(s: seq<T>, rel: (T, T) -> bool, i: nat, j: nat, hi: nat, p: Overlap<T>)
    requires IsPair(s, rel, i, j, p) && j < hi <= |s|
    ensures p in PairsWith(s, rel, i, hi)
    decreases hi
  {
    if j < hi - 1 {
      PairsWithComplete(s, rel, i, j, hi - 1, p);
    }
  }

  /** A listed pair is two elements, in order, that are related. */
  lemma {:induction false} PairsSound<T>(s: seq<T>, rel: (T, T) -> bool, lo: nat, p: Overlap<T>)
    returns (i: nat, j: nat)
    requires lo <= |s| && p in Pairs(s, rel, lo)
    ensures i < lo && IsPair(s, rel, i, j, p)
  {
    if p in Pairs(s, rel, lo - 1) {
      i, j := PairsSound(s, rel, lo - 1, p);
    } else {
      i := lo - 1;
      j := PairsWithSound(s, rel, i, |s|, p);
    }
  }

  /** Any two related elements, in order, are listed. */
  lemma {:induction false} PairsComplete<T>(s: seq<T>, rel: (T, T) -> bool, lo: nat, i: nat, j: nat, p: Overlap<T>)
    requires i < lo <= |s| && IsPair(s, rel, i, j, p)
    ensures p in Pairs(s, rel, lo)
  {
    var k := lo - 1;
    if i < k {
      PairsComplete(s, rel, k, i, j, p);
    } else {
      assert IsPair(s, rel, k, j, p);
      PairsWithComplete(s, rel, k, j, |s|, p);
      assert p in PairsWith(s, rel, k, |s|);
    }
    assert Pairs(s, rel, lo) == Pairs(s, rel, k) + PairsWith(s, rel, k, |s|);
  }

  /** The elements after i, before hi, that are related to it. */
  function RelatedAfter<T>(s: seq<T>, rel: (T, T) -> bool, i: nat, hi: nat): set<nat>
    requires i < |s| && hi <= |s|
  {
    set j | i < j < hi && rel(s[i], s[j])
  }

  /** The pairs of element i with the elements at the given positions. */
  ghost predicate PairsOf<T>(s: seq<T>, i: nat, out: seq<Overlap<T>>, src: seq<nat>)
    requires i < |s|
  {
    |src| == |out| && forall p :: 0 <= p < |src| ==> src[p] < |s| && out[p] == Overlap(s[i], s[src[p]])
  }

  lemma {:induction false} RelatedStep<T>(s: seq<T>, rel: (T, T) -> bool, i: nat, hi: nat)
    requires i < |s| && i + 1 < hi <= |s|
    ensures RelatedAfter(s, rel, i, hi) ==
      RelatedAfter(s, rel, i, hi - 1) + if rel(s[i], s[hi - 1]) then {hi - 1} else {}
  {
  }

  lemma {:induction false} PairsOfStep<T>(s: seq<T>, i: nat, out: seq<Overlap<T>>, src: seq<nat>, j: nat, more: bool)
    requires i < |s| && j < |s| && PairsOf(s, i, out, src)
    ensures PairsOf(s, i, out + (if more then [Overlap(s[i], s[j])] else []), Extended(src, j, more))
  {
  }

  lemma {:induction false} RelatedListed<T>(s: seq<T>, rel: (T, T) -> bool, i: nat, hi: nat, src: seq<nat>)
    requires i < |s| && i + 1 < hi <= |s| && Lists(src, RelatedAfter(s, rel, i, hi - 1))
    ensures Lists(Extended(src, hi - 1, rel(s[i], s[hi - 1])), RelatedAfter(s, rel, i, hi))
  {
    ListsStep(src, RelatedAfter(s, rel, i, hi - 1), hi - 1, rel(s[i], s[hi - 1]));
    RelatedStep(s, rel, i, hi);
    assert RelatedAfter(s, rel, i, hi - 1) + {} == RelatedAfter(s, rel, i, hi - 1);
  }

  /** The positions of the elements after i, before hi, that are related to it. */
  function Partners<T>(s: seq<T>, rel: (T, T) -> bool, i: nat, hi: nat): seq<nat>
    requires i < |s| && hi <= |s|
    decreases hi
  {
    if hi <= i + 1 then [] else Extended(Partners(s, rel, i, hi - 1), hi - 1, rel(s[i], s[hi - 1]))
  }

  lemma {:induction false} PartnersListed<T>(s: seq<T>, rel: (T, T) -> bool, i: nat, hi: nat)
    requires i < |s| && hi <= |s|
    ensures Lists(Partners(s, rel, i, hi), RelatedAfter(s, rel, i, hi))
    decreases hi
  {
    if hi > i + 1 {
      PartnersListed(s, rel, i, hi - 1);
      RelatedListed(s, rel, i, hi, Partners(s, rel, i, hi - 1));
    }
  }

  lemma {:induction false} PartnersPaired<T>(s: seq<T>, rel: (T, T) -> bool, i: nat, hi: nat)
    requires i < |s| && hi <= |s|
    ensures PairsOf(s, i, PairsWith(s, rel, i, hi), Partners(s, rel, i, hi))
    decreases hi
  {
    if hi > i + 1 {
      PartnersPaired(s, rel, i, hi - 1);
      PairsOfStep(s, i, PairsWith(s, rel, i, hi - 1), Partners(s, rel, i, hi - 1), hi - 1, rel(s[i], s[hi - 1]));
    }
  }

  /** Each pair, and the two positions it comes from, one after the other. */
  ghost predicate PairsFrom<T>(s: seq<T>, rel: (T, T) -> bool, lo: nat, out: seq<Overlap<T>>, src: seq<(nat, nat)>)
    requires lo <= |s|
  {
    && |src| == |out|
    && (forall p :: 0 <= p < |src| ==> src[p].0 < lo && IsPair(s, rel, src[p].0, src[p].1, out[p]))
    && (forall p, q :: 0 <= p < q < |src| ==> Before(src[p], src[q]))
  }

  /** All the pairs stand in listing order, by their first and then their second element, each once. */
  lemma {:induction false} PairsInOrder<T>(s: seq<T>, rel: (T, T) -> bool, lo: nat) returns (src: seq<(nat, nat)>)
    requires lo <= |s|
    ensures PairsFrom(s, rel, lo, Pairs(s, rel, lo), src)
  {
    src := [];
    if lo > 0 {
      var front := PairsInOrder(s, rel, lo - 1);
      var own := Partners(s, rel, lo - 1, |s|);
      PartnersListed(s, rel, lo - 1, |s|);
      PartnersPaired(s, rel, lo - 1, |s|);
      src := front + Numbered(lo - 1, own);
      var more := PairsWith(s, rel, lo - 1, |s|);
      forall p | 0 <= p < |own| ensures IsPair(s, rel, lo - 1, own[p], more[p]) {
        assert own[p] in own;
      }
      PairsAppend(s, rel, lo - 1, Pairs(s, rel, lo - 1), front, more, own);
    }
  }

  lemma {:induction false} PairsAppend<T>(s: seq<T>, rel: (T, T) -> bool, i: nat, out: seq<Overlap<T>>,
                                          src: seq<(nat, nat)>, more: seq<Overlap<T>>, own: seq<nat>)
    requires i < |s| && PairsFrom(s, rel, i, out, src) && |more| == |own| && Rising(own)
    requires forall p :: 0 <= p < |own| ==> IsPair(s, rel, i, own[p], more[p])
    ensures PairsFrom(s, rel, i + 1, out + more, src + Numbered(i, own))
  {
    var all, back := src + Numbered(i, own), Numbered(i, own);
    forall p | 0 <= p < |all| ensures all[p].0 < i + 1 && IsPair(s, rel, all[p].0, all[p].1, (out + more)[p]) {
      if p >= |src| {
        assert all[p] == back[p - |src|] == (i, own[p - |src|]);
      }
    }
  }

  function WithCIDR(networks: seq<Network>): seq<Network> {
    if networks == [] then []
    else
      var n := |networks| - 1;
      WithCIDR(networks[..n]) + (if networks[n].cidr.Some? then [networks[n]] else [])
  }

  lemma {:induction false} WithCIDRMembers(networks: seq<Network>)
    ensures forall n :: n in WithCIDR(networks) <==> n in networks && n.cidr.Some?
  {
    if networks != [] {
      var k := |networks| - 1;
      WithCIDRMembers(networks[..k]);
      assert networks == networks[..k] + [networks[k]];
    }
  }

  function WithValid(networks: seq<Network>): set<nat> {
    set i | 0 <= i < |networks| && networks[i].cidr.Some?
  }

  function HasCIDR(): Network -> int {
    (n: Network) => if n.cidr.Some? then 1 else 0
  }

  /** Exactly the networks with a valid CIDR, in order. */
  lemma {:induction false} WithCIDRMeaning(networks: seq<Network>) returns (src: seq<nat>)
    ensures Lists(src, WithValid(networks)) && |src| == |WithCIDR(networks)|
    ensures forall p :: 0 <= p < |src| ==> src[p] < |networks| && WithCIDR(networks)[p] == networks[src[p]]
  {
    src := SelectMeaning(HasCIDR(), networks, 1);
    WithCIDRSelected(networks);
    assert AssignedTo(HasCIDR(), networks, 1) == WithValid(networks);
  }

  lemma {:induction false} WithCIDRSelected(networks: seq<Network>)
    ensures WithCIDR(networks) == Select(HasCIDR(), networks, 1)
  {
    if networks != [] {
      WithCIDRSelected(networks[..|networks| - 1]);
    }
  }

  /** Two networks with valid CIDRs of the same block. */
  function Sharing(): (Network, Network) -> bool {
    (a: Network, b: Network) => a.cidr.Some? && b.cidr.Some? && SameBlock(a.cidr.value, b.cidr.value)
  }

  /** The pairs that `overlappingNetworks` reports. */
  function OverlapPairs(networks: seq<Network>): seq<Overlap<Network>> {
    Pairs(WithCIDR(networks), Sharing(), |WithCIDR(networks)|)
  }

  /** `overlappingNetworks`. */
  method OverlappingNetworks(networks: seq<Network>) returns (out: seq<Overlap<Network>>)
    ensures out == OverlapPairs(networks)
  {
    var nets: seq<Network> := [];
    for i := 0 to |networks|
      invariant nets == WithCIDR(networks[..i])
    {
      assert networks[..i + 1][..i] == networks[..i];
      if networks[i].cidr.Some? {
        nets := nets + [networks[i]];
      }
    }
    assert networks[..|networks|] == networks;
    WithCIDRMembers(networks);
    out := [];
    for i := 0 to |nets|
      invariant out == Pairs(nets, Sharing(), i)
    {
      var more := OverlapsWith(nets, i);
      out := out + more;
    }
  }

  /** The inner loop of `overlappingNetworks`. */
  method OverlapsWith(nets: seq<Network>, i: nat) returns (out: seq<Overlap<Network>>)
    requires i < |nets|
    ensures out == PairsWith(nets, Sharing(), i, |nets|)
  {
    out := [];
    for j := i + 1 to |nets|
      invariant out == PairsWith(nets, Sharing(), i, j)
    {
      if Sharing()(nets[i], nets[j]) {
        out := out + [Overlap(nets[i], nets[j])];
      }
    }
  }

  // ---- NetworkOverlaps ----

  function OverlapsOf(target: Network, networks: seq<Network>): seq<Network> {
    if networks == [] then []
    else
      var n := networks[|networks| - 1];
      OverlapsOf(target, networks[..|networks| - 1]) + (if n.id != target.id && Sharing()(target, n) then [n] else [])
  }

  /** `NetworkOverlaps`. */
  method NetworkOverlaps(target: Network, networks: seq<Network>) returns (out: seq<Network>)
    ensures out == OverlapsOf(target, networks)
  {
    out := [];
    if target.cidr.None? {
      NoOverlaps(target, networks);
      return;
    }
    for i := 0 to |networks|
      invariant out == OverlapsOf(target, networks[..i])
    {
      assert networks[..i + 1][..i] == networks[..i];
      if networks[i].id == target.id {
        continue;
      }
      if networks[i].cidr.Some? && SameBlock(target.cidr.value, networks[i].cidr.value) {
        out := out + [networks[i]];
      }
    }
    assert networks[..|networks|] == networks;
  }

  lemma {:induction false} NoOverlaps(target: Network, networks: seq<Network>)
    requires target.cidr.None?
    ensures OverlapsOf(target, networks) == []
  {
    if networks != [] {
      NoOverlaps(target, networks[..|networks| - 1]);
    }
  }

  lemma {:induction false} OverlapsOfMeaning(target: Network, networks: seq<Network>, n: Network)
    ensures n in OverlapsOf(target, networks) <==> n in networks && n.id != target.id && Sharing()(target, n)
  {
    if networks != [] {
      var k := |networks| - 1;
      OverlapsOfMeaning(target, networks[..k], n);
      assert networks == networks[..k] + [networks[k]];
    }
  }

  /** The other networks that share the target's block. */
  function Rivals(target: Network, networks: seq<Network>): set<nat> {
    set i | 0 <= i < |networks| && networks[i].id != target.id && Sharing()(target, networks[i])
  }

  function Rivalling(target: Network): Network -> int {
    (n: Network) => if n.id != target.id && Sharing()(target, n) then 1 else 0
  }

  lemma {:induction false} OverlapsSelected(target: Network, networks: seq<Network>)
    ensures OverlapsOf(target, networks) == Select(Rivalling(target), networks, 1)
  {
    if networks != [] {
      OverlapsSelected(target, networks[..|networks| - 1]);
    }
  }

  /** The per-network view lists exactly the networks with another id that share its block, in order. */
  lemma {:induction false} OverlapsInOrder(target: Network, networks: seq<Network>) returns (src: seq<nat>)
    ensures Lists(src, Rivals(target, networks)) && |src| == |OverlapsOf(target, networks)|
    ensures forall p :: 0 <= p < |src| ==> src[p] < |networks| && OverlapsOf(target, networks)[p] == networks[src[p]]
  {
    src := SelectMeaning(Rivalling(target), networks, 1);
    OverlapsSelected(target, networks);
    assert AssignedTo(Rivalling(target), networks, 1) == Rivals(target, networks);
  }

  /** Distinct ids, as the table's primary key gives them. */
  predicate DistinctIDs(networks: seq<Network>) {
    forall i, j :: 0 <= i < j < |networks| ==> networks[i].id != networks[j].id
  }

  lemma {:induction false} WithCIDRDistinct(networks: seq<Network>)
    requires DistinctIDs(networks)
    ensures DistinctIDs(WithCIDR(networks))
  {
    if networks != [] {
      var k := |networks| - 1;
      WithCIDRDistinct(networks[..k]);
      WithCIDRMembers(networks[..k]);
    }
  }

  /** A reported pair is two different listed networks that share a block. */
  lemma {:induction false} ReportedPair(networks: seq<Network>, a: Network, b: Network)
    requires DistinctIDs(networks) && Overlap(a, b) in OverlapPairs(networks)
    ensures a in networks && b in networks && a.id != b.id && Sharing()(a, b)
  {
    var nets := WithCIDR(networks);
    WithCIDRMembers(networks);
    WithCIDRDistinct(networks);
    var i, j := PairsSound(nets, Sharing(), |nets|, Overlap(a, b));
    assert nets[i] in nets && nets[j] in nets;
  }

  /** Two different listed networks that share a block are reported in one order. */
  lemma {:induction false} SharingReported(networks: seq<Network>, a: Network, b: Network)
    requires a in networks && b in networks && a.id != b.id && Sharing()(a, b)
    ensures Overlap(a, b) in OverlapPairs(networks) || Overlap(b, a) in OverlapPairs(networks)
  {
    var nets := WithCIDR(networks);
    WithCIDRMembers(networks);
    var i :| 0 <= i < |nets| && nets[i] == a;
    var j :| 0 <= j < |nets| && nets[j] == b;
    if i < j {
      PairsComplete(nets, Sharing(), |nets|, i, j, Overlap(a, b));
    } else {
      PairsComplete(nets, Sharing(), |nets|, j, i, Overlap(b, a));
    }
  }

  /** The per-network view is the other half of the reported pairs that contain the network. */
  lemma {:induction false} OverlapViewsAgree(target: Network, networks: seq<Network>, n: Network)
    requires target in networks && DistinctIDs(networks)
    ensures n in OverlapsOf(target, networks) <==>
      Overlap(target, n) in OverlapPairs(networks) || Overlap(n, target) in OverlapPairs(networks)
  {
    OverlapsOfMeaning(target, networks, n);
    if n in OverlapsOf(target, networks) {
      SharingReported(networks, target, n);
    } else if Overlap(target, n) in OverlapPairs(networks) {
      ReportedPair(networks, target, n);
    } else if Overlap(n, target) in OverlapPairs(networks) {
      ReportedPair(networks, n, target);
    }
  }

  /** What a report of a pair means: two listed networks, with one address set. */
  lemma {:induction false} OverlapPairsSound(networks: seq<Network>, p: Overlap<Network>)
    requires p in OverlapPairs(networks)
    ensures p.a in networks && p.b in networks && p.a.cidr.Some? && p.b.cidr.Some?
    ensures SameSet(p.a.cidr.value, p.b.cidr.value)
  {
    var nets := WithCIDR(networks);
    WithCIDRMembers(networks);
    var i, j := PairsSound(nets, Sharing(), |nets|, p);
    assert nets[i] in nets && nets[j] in nets;
    SameBlockExactly(p.a.cidr.value, p.b.cidr.value);
  }

  /**
    A pair of listed networks with comparable CIDRs is reported, in listing order,
    exactly when it has one address set.
   */
  lemma {:induction false} OverlapPairsComplete(networks: seq<Network>, i: nat, j: nat)
    requires i < j < |WithCIDR(networks)|
    ensures WithCIDR(networks)[i].cidr.Some? && WithCIDR(networks)[j].cidr.Some?
    ensures var (a, b) := (WithCIDR(networks)[i], WithCIDR(networks)[j]);
      Comparable(a.cidr.value, b.cidr.value) ==>
        (Overlap(a, b) in OverlapPairs(networks) <==> SameSet(a.cidr.value, b.cidr.value))
  {
    var nets := WithCIDR(networks);
    WithCIDRMembers(networks);
    assert nets[i] in nets && nets[j] in nets;
    var p := Overlap(nets[i], nets[j]);
    if Comparable(nets[i].cidr.value, nets[j].cidr.value) {
      PlainBlocksExact(nets[i].cidr.value, nets[j].cidr.value);
    }
    if Sharing()(nets[i], nets[j]) {
      PairsComplete(nets, Sharing(), |nets|, i, j, p);
    }
    if p in OverlapPairs(networks) {
      OverlapPairsSound(networks, p);
    }
  }

  // ---- duplicateIPs ----

  datatype IPConflict = IPConflict(ip: nat, hosts: seq<Allocation>)

  predicate Seen(s: seq<Allocation>, a: Allocation) {
    exists b :: b in s && b.ip == a.ip && b.hostID == a.hostID
  }

  /** The first claim of each (address, host) pair. */
  function FirstClaims(claims: seq<Allocation>): seq<Allocation> {
    if claims == [] then []
    else
      var n := |claims| - 1;
      FirstClaims(claims[..n]) + (if Seen(claims[..n], claims[n]) then [] else [claims[n]])
  }

  predicate OnePerHost(s: seq<Allocation>) {
    forall i, j :: 0 <= i < j < |s| ==> s[i].ip != s[j].ip || s[i].hostID != s[j].hostID
  }

  lemma {:induction false} FirstClaimsSubset(claims: seq<Allocation>)
    ensures forall a :: a in FirstClaims(claims) ==> a in claims
  {
    if claims != [] {
      FirstClaimsSubset(claims[..|claims| - 1]);
    }
  }

  lemma {:induction false} FirstClaimsCover(claims: seq<Allocation>, a: Allocation)
    requires Seen(claims, a)
    ensures Seen(FirstClaims(claims), a)
  {
    var n := |claims| - 1;
    var front, last := claims[..n], claims[n];
    assert claims == front + [last];
    if Seen(front, a) {
      FirstClaimsCover(front, a);
      var b :| b in FirstClaims(front) && b.ip == a.ip && b.hostID == a.hostID;
      assert b in FirstClaims(claims);
    } else {
      assert last.ip == a.ip && last.hostID == a.hostID;
      assert last in FirstClaims(claims);
    }
  }

  lemma {:induction false} FirstClaimsDistinct(claims: seq<Allocation>)
    ensures OnePerHost(FirstClaims(claims))
  {
    if claims != [] {
      var n := |claims| - 1;
      FirstClaimsDistinct(claims[..n]);
      FirstClaimsSubset(claims[..n]);
    }
  }

  /** An address is reported exactly when two different hosts claim it. */
  lemma {:induction false} DuplicateMeaning(claims: seq<Allocation>, ip: nat)
    ensures |Group(FirstClaims(claims), ip)| >= 2 <==>
      exists a, b :: a in claims && b in claims && a.ip == b.ip == ip && a.hostID != b.hostID
  {
    var firsts := FirstClaims(claims);
    var g := Group(firsts, ip);
    SelectElements(ByIP(), firsts, ip);
    FirstClaimsSubset(claims);
    FirstClaimsDistinct(claims);
    GroupDistinct(firsts, ip);
    if |g| >= 2 {
      assert g[0] in g && g[1] in g;
    }
    if a, b :| a in claims && b in claims && a.ip == b.ip == ip && a.hostID != b.hostID {
      var a' := FirstInGroup(claims, a);
      var b' := FirstInGroup(claims, b);
      assert a' in g && b' in g && a' != b';
    }
  }

  lemma {:induction false} FirstInGroup(claims: seq<Allocation>, a: Allocation) returns (f: Allocation)
    requires a in claims
    ensures f in Group(FirstClaims(claims), a.ip) && f.hostID == a.hostID
  {
    FirstClaimsCover(claims, a);
    f :| f in FirstClaims(claims) && f.ip == a.ip && f.hostID == a.hostID;
    SelectElements(ByIP(), FirstClaims(claims), a.ip);
  }

  /** One entry per host in each group. */
  lemma {:induction false} GroupDistinct(s: seq<Allocation>, ip: nat)
    requires OnePerHost(s)
    ensures OnePerHost(Group(s, ip))
  {
    if s != [] {
      var n := |s| - 1;
      var front := Group(s[..n], ip);
      GroupDistinct(s[..n], ip);
      SelectElements(ByIP(), s[..n], ip);
      assert Group(s, ip) == front + if s[n].ip == ip then [s[n]] else [];
      forall i | 0 <= i < |front| ensures front[i].ip != s[n].ip || front[i].hostID != s[n].hostID {
        assert front[i] in front;
        var k :| 0 <= k < n && s[..n][k] == front[i];
      }
    }
  }

  predicate ConflictLess(a: IPConflict, b: IPConflict) {
    a.ip < b.ip
  }

  /** The conflict of one address. */
  function ConflictOf(claims: seq<Allocation>, ip: nat): IPConflict {
    IPConflict(ip, SortAllocs(Group(FirstClaims(claims), ip)))
  }

  /** The report: increasing addresses, each claimed by two hosts or more, none missed. */
  ghost predicate DuplicateReport(claims: seq<Allocation>, out: seq<IPConflict>) {
    && (forall i, j :: 0 <= i < j < |out| ==> out[i].ip < out[j].ip)
    && (forall c :: c in out ==> c == ConflictOf(claims, c.ip) && |Group(FirstClaims(claims), c.ip)| >= 2)
    && (forall ip: nat :: |Group(FirstClaims(claims), ip)| >= 2 ==> ConflictOf(claims, ip) in out)
  }

  /** The collecting loops of `duplicateIPs` over the claims in host order. */
  method CollectFirst(claims: seq<Allocation>) returns (firsts: seq<Allocation>)
    ensures firsts == FirstClaims(claims)
  {
    firsts := [];
    var seen: set<(nat, int)> := {};
    for i := 0 to |claims|
      invariant firsts == FirstClaims(claims[..i])
      invariant forall k, h :: (k, h) in seen <==> exists b :: b in claims[..i] && b.ip == k && b.hostID == h
    {
      assert claims[..i + 1] == claims[..i] + [claims[i]] && claims[..i + 1][..i] == claims[..i];
      var key := (claims[i].ip, claims[i].hostID);
      if key !in seen {
        firsts := firsts + [claims[i]];
      }
      seen := seen + {key};
    }
    assert claims[..|claims|] == claims;
  }

  /** The conflicts of the given addresses, in order. */
  function ConflictsAmong(order: seq<nat>, claims: seq<Allocation>): seq<IPConflict> {
    if order == [] then []
    else
      var n := |order| - 1;
      ConflictsAmong(order[..n], claims) +
      (if |Group(FirstClaims(claims), order[n])| >= 2 then [ConflictOf(claims, order[n])] else [])
  }

  lemma {:induction false} ConflictsAmongMeaning(order: seq<nat>, claims: seq<Allocation>)
    requires forall i, j :: 0 <= i < j < |order| ==> order[i] != order[j]
    ensures forall c :: c in ConflictsAmong(order, claims) <==>
      c.ip in order && c == ConflictOf(claims, c.ip) && |Group(FirstClaims(claims), c.ip)| >= 2
    ensures DistinctAddresses(ConflictsAmong(order, claims))
  {
    if order != [] {
      ConflictsAmongMeaning(order[..|order| - 1], claims);
      assert order == order[..|order| - 1] + [order[|order| - 1]];
    }
  }

  predicate DistinctAddresses(s: seq<IPConflict>) {
    forall i, j :: 0 <= i < j < |s| ==> s[i].ip != s[j].ip
  }

  /** The second loop of `duplicateIPs`: groups of two or more. */
  method CollectDuplicates(byIP: map<nat, seq<Allocation>>, order: seq<nat>, ghost claims: seq<Allocation>)
    returns (found: seq<IPConflict>)
    requires byIP == Groups(FirstClaims(claims)) && forall k :: k in order ==> k in byIP
    ensures found == ConflictsAmong(order, claims)
  {
    found := [];
    for i := 0 to |order|
      invariant found == ConflictsAmong(order[..i], claims)
    {
      assert order[..i + 1][..i] == order[..i];
      var g := byIP[order[i]];
      if |g| >= 2 {
        found := found + [IPConflict(order[i], SortAllocs(g))];
      }
    }
    assert order[..|order|] == order;
  }

  /** `duplicateIPs`, on the parseable claims of the hosts. */
  method DuplicateIPs(claims: seq<Allocation>) returns (out: seq<IPConflict>)
    ensures DuplicateReport(claims, out)
  {
    var firsts := CollectFirst(claims);
    var byIP, order := GroupByIP(firsts);
    OrderMeaning(firsts);
    var found := CollectDuplicates(byIP, order, claims);
    out := Sort(found, ConflictLess);
    ConflictsAmongMeaning(order, claims);
    SortedConflicts(found);
    forall ip: nat | |Group(FirstClaims(claims), ip)| >= 2 ensures ConflictOf(claims, ip) in out {
      NonEmptyGroup(firsts, ip);
    }
  }

  lemma {:induction false} SortedConflicts(found: seq<IPConflict>)
    requires DistinctAddresses(found)
    ensures var out := Sort(found, ConflictLess);
      && (forall c :: c in out <==> c in found)
      && (forall i, j :: 0 <= i < j < |out| ==> out[i].ip < out[j].ip)
  {
    var out := Sort(found, ConflictLess);
    SortCorrect(found, ConflictLess);
    forall c ensures c in out <==> c in found {
      assert c in multiset(out) <==> c in multiset(found);
    }
    forall i, j | 0 <= i < j < |out| ensures out[i].ip < out[j].ip {
      assert !ConflictLess(out[j], out[i]);
      StaysDistinct(out, i, j, found);
    }
  }

  lemma {:induction false} StaysDistinct(out: seq<IPConflict>, i: int, j: int, found: seq<IPConflict>)
    requires 0 <= i < j < |out| && multiset(out) == multiset(found) && DistinctAddresses(found)
    ensures out[i].ip != out[j].ip
  {
    var x, y := out[i], out[j];
    assert x in multiset(found) && y in multiset(found);
    AtMostOnce(found, x);
    if x == y {
      Twice(out, i, j);
    }
  }

  lemma {:induction false} Twice(s: seq<IPConflict>, i: int, j: int)
    requires 0 <= i < j < |s| && s[i] == s[j]
    ensures multiset(s)[s[i]] >= 2
  {
    assert s == s[..i] + [s[i]] + s[i + 1..j] + [s[j]] + s[j + 1..];
  }

  lemma {:induction false} AtMostOnce(found: seq<IPConflict>, x: IPConflict)
    requires DistinctAddresses(found)
    ensures multiset(found)[x] <= 1
  {
    if found != [] {
      var n := |found| - 1;
      AtMostOnce(found[..n], x);
      assert found == found[..n] + [found[n]];
      if found[n] == x {
        assert x !in found[..n];
      }
    }
  }

  // ---- What a duplicate's entry lists ----

  /** Claim i is the first that its host makes of its address. */
  predicate FirstAt(claims: seq<Allocation>, i: nat) {
    i < |claims| &&
      forall j :: 0 <= j < i ==> claims[j].ip != claims[i].ip || claims[j].hostID != claims[i].hostID
  }

  /** The entry is a first claim. */
  ghost predicate MadeFirst(claims: seq<Allocation>, a: Allocation) {
    exists i: nat :: FirstAt(claims, i) && claims[i] == a
  }

  lemma {:induction false} MadeFirstStep(claims: seq<Allocation>, n: nat, a: Allocation)
    requires n + 1 == |claims|
    ensures MadeFirst(claims, a) <==> MadeFirst(claims[..n], a) || (FirstAt(claims, n) && claims[n] == a)
  {
    if i: nat :| FirstAt(claims, i) && claims[i] == a {
      if i < n {
        FirstAtFront(claims, n, i);
      }
    }
    if i: nat :| FirstAt(claims[..n], i) && claims[..n][i] == a {
      FirstAtFront(claims, n, i);
    }
  }

  lemma {:induction false} FirstAtFront(claims: seq<Allocation>, n: nat, i: nat)
    requires i < n <= |claims|
    ensures FirstAt(claims[..n], i) <==> FirstAt(claims, i)
  {
  }

  lemma {:induction false} FirstClaimsExactly(claims: seq<Allocation>, a: Allocation)
    ensures a in FirstClaims(claims) <==> MadeFirst(claims, a)
  {
    if claims != [] {
      var n := |claims| - 1;
      FirstClaimsExactly(claims[..n], a);
      SeenExactly(claims, n);
      MadeFirstStep(claims, n, a);
    }
  }

  lemma {:induction false} SeenExactly(claims: seq<Allocation>, n: nat)
    requires n < |claims|
    ensures Seen(claims[..n], claims[n]) <==> !FirstAt(claims, n)
  {
    if !FirstAt(claims, n) {
      var j :| 0 <= j < n && claims[j].ip == claims[n].ip && claims[j].hostID == claims[n].hostID;
      assert claims[..n][j] in claims[..n];
    }
  }

  /** The hosts of a duplicate: for each that claims the address its first claim, once, ordered by name. */
  lemma {:induction false} ConflictOfMeaning(claims: seq<Allocation>, ip: nat)
    ensures var c := ConflictOf(claims, ip);
      && c.ip == ip
      && (forall a :: a in c.hosts <==> a.ip == ip && MadeFirst(claims, a))
      && OnePerHost(c.hosts)
      && (forall p, q :: 0 <= p < q < |c.hosts| ==> InReportOrder(c.hosts[p], c.hosts[q]))
  {
    var g := Group(FirstClaims(claims), ip);
    SelectElements(ByIP(), FirstClaims(claims), ip);
    SortAllocsCorrect(g);
    forall a ensures a in SortAllocs(g) <==> a.ip == ip && MadeFirst(claims, a) {
      FirstClaimsExactly(claims, a);
    }
    FirstClaimsDistinct(claims);
    GroupDistinct(FirstClaims(claims), ip);
    SortedOnePerHost(g, SortAllocs(g));
  }

  lemma {:induction false} SortedOnePerHost(g: seq<Allocation>, r: seq<Allocation>)
    requires OnePerHost(g) && multiset(r) == multiset(g)
    ensures OnePerHost(r)
  {
    forall i, j | 0 <= i < j < |r| ensures r[i].ip != r[j].ip || r[i].hostID != r[j].hostID {
      assert r[i] in multiset(g) && r[j] in multiset(g);
      if r[i] == r[j] {
        assert r == r[..i] + [r[i]] + r[i + 1..j] + [r[j]] + r[j + 1..];
        assert multiset(r)[r[i]] >= 2;
        OnceInGroup(g, r[i]);
      }
    }
  }

  lemma {:induction false} OnceInGroup(g: seq<Allocation>, x: Allocation)
    requires OnePerHost(g)
    ensures multiset(g)[x] <= 1
  {
    if g != [] {
      var n := |g| - 1;
      OnceInGroup(g[..n], x);
      assert g == g[..n] + [g[n]];
      if g[n] == x {
        assert x !in g[..n];
      }
    }
  }

  /**
    The report in the hosts' own terms: an address has an entry exactly when two
    different hosts claim it, and the entries ascend by address.
   */
  lemma {:induction false} DuplicateReportMeaning(claims: seq<Allocation>, out: seq<IPConflict>, ip: nat)
    requires DuplicateReport(claims, out)
    ensures (exists c :: c in out && c.ip == ip) <==>
      exists a, b :: a in claims && b in claims && a.ip == b.ip == ip && a.hostID != b.hostID
    ensures forall c :: c in out ==> c == ConflictOf(claims, c.ip)
    ensures forall i, j :: 0 <= i < j < |out| ==> out[i].ip < out[j].ip
  {
    DuplicateMeaning(claims, ip);
    if |Group(FirstClaims(claims), ip)| >= 2 {
      assert ConflictOf(claims, ip) in out && ConflictOf(claims, ip).ip == ip;
    }
  }

  /** `outsideNetworks`: the unassigned list of the occupancy report. */
  method OutsideNetworks(networks: seq<Network>, hosts: seq<Host>) returns (out: seq<Allocation>)
    ensures out == SortAllocs(Attributed(networks, Claims(hosts), -1))
    ensures forall a :: a in out <==> a in Claims(hosts) && forall i :: !Holds(networks, i, a.ip)
  {
    var _, unassigned := Attribute(networks, hosts, -1);
    SelectElements(ByWinner(networks), Claims(hosts), -1);
    SortAllocsCorrect(unassigned);
    forall a: Allocation ensures Winner(networks, a.ip) == -1 <==> forall i :: !Holds(networks, i, a.ip) {
      WinnerMeaning(networks, a.ip);
    }
    out := SortAllocs(unassigned);
  }
}
