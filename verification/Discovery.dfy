/**
  Expansion of a CIDR into the addresses to scan (`ExpandCIDR` in
  `internal/discovery/network.go`), and its agreement with the IPAM code, which
  decides independently which addresses of a block are usable.
 */
module Discovery {
  import opened Wrappers
  import opened Bytes
  import opened Address
  import opened Ipam
  import opened Usage

  datatype ExpandError = InvalidCIDR | TooLarge | TooManyHosts

  /** lo, lo+1, .., hi-1. */
  function KeySeq(lo: nat, hi: nat): seq<nat>
    decreases hi
  {
    if hi <= lo then [] else KeySeq(lo, hi - 1) + [hi - 1]
  }

  lemma {:induction false} KeySeqAt(lo: nat, hi: nat, i: nat)
    requires lo <= hi
    ensures |KeySeq(lo, hi)| == hi - lo
    ensures i < hi - lo ==> KeySeq(lo, hi)[i] == lo + i
    decreases hi
  {
    if lo < hi {
      KeySeqAt(lo, hi - 1, i);
    }
  }

  lemma {:induction false} KeySeqTrim(lo: nat, hi: nat)
    requires lo + 2 <= hi
    ensures |KeySeq(lo, hi)| == hi - lo
    ensures KeySeq(lo, hi)[1..|KeySeq(lo, hi)| - 1] == KeySeq(lo + 1, hi - 1)
  {
    KeySeqAt(lo, hi, 0);
    KeySeqAt(lo + 1, hi - 1, 0);
    var inner, trimmed := KeySeq(lo + 1, hi - 1), KeySeq(lo, hi)[1..hi - lo - 1];
    forall i: nat | i < hi - lo - 2 ensures trimmed[i] == inner[i] {
      KeySeqAt(lo, hi, i + 1);
      KeySeqAt(lo + 1, hi - 1, i);
    }
  }

  /** `ExpandCIDR` drops the ends of any block whose base has a 4-byte form. */
  predicate DropsEnds(n: CIDR) {
    To4(n.ip).Some? && n.HostBits() >= 2
  }

  /** The addresses that a successful expansion lists. */
  function Expanded(n: CIDR): seq<nat> {
    if DropsEnds(n) then KeySeq(n.Lo() + 1, n.Lo() + n.Size() - 1) else KeySeq(n.Lo(), n.Lo() + n.Size())
  }

  /** The collecting loop of `ExpandCIDR`. */
  method ListBlock(ipnet: CIDR) returns (ips: seq<nat>)
    requires ipnet.HostBits() <= 20
    ensures ips == KeySeq(ipnet.Lo(), ipnet.Lo() + ipnet.Size())
  {
    var cur := Copy(MaskedBase(ipnet));
    ghost var k, hi := ipnet.Lo(), ipnet.Lo() + ipnet.Size();
    WalkGuard(ipnet, cur[..], k);
    var inside := InNet(ipnet, cur[..]);
    ips := [];
    while inside
      invariant At(ipnet, cur[..], k)
      invariant inside <==> k < hi
      invariant ips == KeySeq(ipnet.Lo(), k)
      decreases hi - k
    {
      var s: IP := cur[..];
      ips := ips + [Key(s)];
      Advance(ipnet, cur, k);
      k := k + 1;
      inside := InNet(ipnet, cur[..]);
    }
  }

  lemma {:induction false} Trimmed(n: CIDR)
    ensures var all := KeySeq(n.Lo(), n.Lo() + n.Size());
      if DropsEnds(n) then |all| >= 2 && all[1..|all| - 1] == Expanded(n) else all == Expanded(n)
  {
    if DropsEnds(n) {
      SizeAtLeastFour(n);
      KeySeqTrim(n.Lo(), n.Lo() + n.Size());
    }
  }

  /** `ExpandCIDR`. */
  method ExpandCIDR(cidr: Option<CIDR>, maxHosts: int) returns (r: Result<seq<nat>, ExpandError>)
    ensures r == if cidr.None? then Err(InvalidCIDR)
                 else if cidr.value.HostBits() > 20 then Err(TooLarge)
                 else if |Expanded(cidr.value)| > maxHosts then Err(TooManyHosts)
                 else Ok(Expanded(cidr.value))
  {
    if cidr.None? {
      return Err(InvalidCIDR);
    }
    var ipnet := cidr.value;
    if ipnet.HostBits() > 20 {
      return Err(TooLarge);
    }
    var ips := ListBlock(ipnet);
    Trimmed(ipnet);
    if To4(ipnet.ip).Some? && ipnet.HostBits() >= 2 && |ips| >= 2 {
      ips := ips[1..|ips| - 1];
    }
    if |ips| > maxHosts {
      return Err(TooManyHosts);
    }
    r := Ok(ips);
  }

  lemma {:induction false} SizeAtLeastFour(n: CIDR)
    requires n.HostBits() >= 2
    ensures n.Size() >= 4
  {
    Pow2Monotone(2, n.HostBits());
    Pow2Small();
  }

  /** The expansion is strictly increasing and lists only addresses of the block. */
  lemma {:induction false} ExpandedIncreasing(n: CIDR, i: nat, j: nat)
    requires n.HostBits() <= 32 && i < j < |Expanded(n)|
    ensures Expanded(n)[i] < Expanded(n)[j] && n.Has(Expanded(n)[i])
  {
    var lo := if DropsEnds(n) then n.Lo() + 1 else n.Lo();
    var hi := if DropsEnds(n) then n.Lo() + n.Size() - 1 else n.Lo() + n.Size();
    if DropsEnds(n) {
      SizeAtLeastFour(n);
    }
    KeySeqAt(lo, hi, i);
    KeySeqAt(lo, hi, j);
    SmallBlockOneFamily(n, lo + i);
  }

  /**
    The two implementations agree on the usable addresses of a block exactly when
    it is not an IPv6 CIDR written inside the IPv4-mapped block with two host bits
    or more: there the scanner drops both ends and the IPAM code keeps them.
   */
  lemma {:induction false} ExpandAgreesExactly(n: CIDR)
    ensures Expanded(n) == KeySeq(UsableLo(n), UsableHi(n)) <==> !(n.MappedV6() && n.HostBits() >= 2)
    ensures n.HostBits() < 31 ==> (|Expanded(n)| == TotalUsable(n) <==> !(n.MappedV6() && n.HostBits() >= 2))
  {
    UsableAndEnds(n);
    KeySeqAt(UsableLo(n), UsableHi(n), 0);
    ExpandedSize(n);
  }

  lemma {:induction false} ExpandedSize(n: CIDR)
    ensures |Expanded(n)| == n.Size() - if DropsEnds(n) then 2 else 0
  {
    var lo, hi := n.Lo(), n.Lo() + n.Size();
    if DropsEnds(n) {
      SizeAtLeastFour(n);
      KeySeqSize(lo + 1, hi - 1);
    } else {
      KeySeqSize(lo, hi);
    }
  }

  lemma {:induction false} KeySeqSize(lo: nat, hi: nat)
    requires lo <= hi
    ensures |KeySeq(lo, hi)| == hi - lo
  {
    KeySeqAt(lo, hi, 0);
  }

  /** The IPv4-mapped block itself: the scanner drops its ends, the IPAM code keeps them. */
  lemma {:induction false} ExpandDisagrees() returns (n: CIDR)
    ensures n.MappedV6() && n.ones == 96 && |Expanded(n)| == UsableHi(n) - UsableLo(n) - 2
  {
    n := MappedBlock();
    EndsDropped(n);
  }

  lemma {:induction false} EndsDropped(n: CIDR)
    requires n.MappedV6() && n.HostBits() >= 2
    ensures |Expanded(n)| == UsableHi(n) - UsableLo(n) - 2
  {
    SizeAtLeastFour(n);
    KeySeqAt(n.Lo() + 1, n.Lo() + n.Size() - 1, 0);
  }

  /** The first listed address not taken. */
  function FirstNotIn(s: seq<nat>, taken: set<nat>): Option<nat> {
    if s == [] then None
    else
      var front := FirstNotIn(s[..|s| - 1], taken);
      if front.Some? then front else if s[|s| - 1] in taken then None else Some(s[|s| - 1])
  }

  lemma {:induction false} FirstFreeIsFirstListed(lo: nat, hi: nat, taken: set<nat>)
    requires lo <= hi
    ensures FirstFree(lo, hi, taken) == FirstNotIn(KeySeq(lo, hi), taken)
    decreases hi
  {
    if lo < hi {
      FirstFreeIsFirstListed(lo, hi - 1, taken);
      FirstFreeMeaning(lo, hi, taken);
      FirstFreeMeaning(lo, hi - 1, taken);
      assert KeySeq(lo, hi)[..|KeySeq(lo, hi)| - 1] == KeySeq(lo, hi - 1);
    }
  }

  /** Where the two agree, the IPAM suggestion is the first address the scanner would list that is free. */
  lemma {:induction false} NextFreeIsFirstExpanded(n: CIDR, taken: set<nat>)
    requires n.HostBits() <= MAX_ENUMERABLE_HOST_BITS && !(n.MappedV6() && n.HostBits() >= 2)
    ensures LowestFree(n, taken) == FirstNotIn(Expanded(n), taken)
  {
    UsableAndEnds(n);
    ExpandAgreesExactly(n);
    FirstFreeIsFirstListed(UsableLo(n), UsableHi(n), taken);
  }
}
