/**
  Longest-prefix attribution of host IPs to networks (`attribute` in
  `internal/domain/ipam.go`), following section 5.2.4.3 of RFC 1812.
 */
module Attribution {
  import opened Wrappers
  import opened Address
  import opened Ipam
  import opened Listing

  datatype ParsedNet = ParsedNet(idx: nat, ipn: CIDR)

  /** The networks with a valid CIDR, in listing order. */
  function Parsed(networks: seq<Network>): seq<ParsedNet> {
    if networks == [] then []
    else
      var n := |networks| - 1;
      Parsed(networks[..n]) + (if networks[n].cidr.Some? then [ParsedNet(n, networks[n].cidr.value)] else [])
  }

  /** The scan's result over the parsed networks: index and prefix length of the winner, or -1, -1. */
  function Best(parsed: seq<ParsedNet>, k: nat): (int, int) {
    if parsed == [] then (-1, -1)
    else
      var p := parsed[|parsed| - 1];
      var b := Best(parsed[..|parsed| - 1], k);
      if p.ipn.Has(k) && p.ipn.ones > b.1 then (p.idx, p.ipn.ones) else b
  }

  /** The index of the network an address is attributed to, or -1. */
  function Winner(networks: seq<Network>, k: nat): int {
    Best(Parsed(networks), k).0
  }

  predicate Holds(networks: seq<Network>, i: int, k: nat) {
    0 <= i < |networks| && networks[i].cidr.Some? && networks[i].cidr.value.Has(k)
  }

  function Ones(networks: seq<Network>, i: int): nat
    requires 0 <= i < |networks| && networks[i].cidr.Some?
  {
    networks[i].cidr.value.ones
  }

  /** What the scan has established after a prefix of the networks. */
  ghost predicate Wins(networks: seq<Network>, k: nat, b: (int, int)) {
    && (b.0 < 0 ==> b == (-1, -1) && forall i :: !Holds(networks, i, k))
    && (b.0 >= 0 ==> Holds(networks, b.0, k) && b.1 == Ones(networks, b.0))
    && (b.0 >= 0 ==> forall i :: Holds(networks, i, k) ==> Ones(networks, i) <= b.1)
    && (b.0 >= 0 ==> forall i :: Holds(networks, i, k) && Ones(networks, i) == b.1 ==> b.0 <= i)
  }

  lemma {:induction false} WinsStep(front: seq<Network>, n: Network, k: nat, b: (int, int))
    requires Wins(front, k, b)
    ensures var i := |front|;
      Wins(front + [n], k,
           if Holds(front + [n], i, k) && Ones(front + [n], i) > b.1 then (i, Ones(front + [n], i)) else b)
  {
    var all := front + [n];
    forall i ensures Holds(all, i, k) <==> Holds(front, i, k) || (i == |front| && Holds(all, i, k)) {}
    forall i | Holds(front, i, k) ensures Ones(all, i) == Ones(front, i) {}
  }

  lemma {:induction false} BestStep(front: seq<Network>, n: Network, k: nat)
    ensures var (i, all, b) := (|front|, front + [n], Best(Parsed(front), k));
      Best(Parsed(all), k) == if Holds(all, i, k) && Ones(all, i) > b.1 then (i, Ones(all, i)) else b
  {
    assert (front + [n])[..|front|] == front;
    if n.cidr.Some? {
      var p := ParsedNet(|front|, n.cidr.value);
      assert (Parsed(front) + [p])[..|Parsed(front)|] == Parsed(front);
    } else {
      assert Parsed(front) + [] == Parsed(front);
    }
  }

  lemma {:induction false} BestWinsStep(front: seq<Network>, n: Network, k: nat)
    requires Wins(front, k, Best(Parsed(front), k))
    ensures Wins(front + [n], k, Best(Parsed(front + [n]), k))
  {
    WinsStep(front, n, k, Best(Parsed(front), k));
    BestStep(front, n, k);
  }

  lemma {:induction false} BestWins(networks: seq<Network>, k: nat)
    ensures Wins(networks, k, Best(Parsed(networks), k))
  {
    if networks != [] {
      var n := |networks| - 1;
      BestWins(networks[..n], k);
      BestWinsStep(networks[..n], networks[n], k);
      assert networks[..n] + [networks[n]] == networks;
    }
  }

  /**
    Attribution by longest prefix: -1 exactly when no network contains the
    address; otherwise the network contains it, no containing network has a
    longer prefix, and none with the same prefix length is listed earlier.
   */
  lemma {:induction false} WinnerMeaning(networks: seq<Network>, k: nat)
    ensures var w := Winner(networks, k);
      && (w == -1 <==> forall i :: !Holds(networks, i, k))
      && (w != -1 ==> Holds(networks, w, k) && forall i :: Holds(networks, i, k) ==>
            Ones(networks, i) < Ones(networks, w) || (Ones(networks, i) == Ones(networks, w) && w <= i))
  {
    BestWins(networks, k);
    var w := Winner(networks, k);
    if w < 0 {
      assert Best(Parsed(networks), k) == (-1, -1);
    } else {
      assert Holds(networks, w, k);
    }
  }

  // ---- Is the longest prefix the innermost block? ----

  function HostBitsOf(networks: seq<Network>, i: int): nat
    requires 0 <= i < |networks| && networks[i].cidr.Some?
  {
    networks[i].cidr.value.HostBits()
  }

  /** Network i holds the address and was written as an IPv6 CIDR inside the IPv4-mapped block. */
  predicate HoldsMapped(networks: seq<Network>, i: int, k: nat) {
    Holds(networks, i, k) && networks[i].cidr.value.MappedV6()
  }

  /** No containing block is smaller than that of network w. */
  ghost predicate Innermost(networks: seq<Network>, w: int, k: nat) {
    Holds(networks, w, k) &&
    forall i :: Holds(networks, i, k) ==> HostBitsOf(networks, w) <= HostBitsOf(networks, i)
  }

  /**
    Prefix lengths are compared as written, so an IPv4 block written as a mapped
    IPv6 CIDR (prefix 96 or more) beats every plain IPv4 block, however specific.
    The winner is the innermost block exactly when no mapped CIDR contains the
    address, or one of those that do is as small as every other containing block.
   */
  lemma {:induction false} WinnerInnermostExactly(networks: seq<Network>, k: nat)
    requires Winner(networks, k) != -1
    ensures Innermost(networks, Winner(networks, k), k) <==>
      (forall i :: !HoldsMapped(networks, i, k)) ||
      (exists m :: HoldsMapped(networks, m, k) && Innermost(networks, m, k))
  {
    var w := Winner(networks, k);
    WinnerMeaning(networks, k);
    forall i | Holds(networks, i, k) ensures PrefixFacts(networks, i, k) {
      FamilyOfBlock(networks[i].cidr.value, k);
    }
    if m :| HoldsMapped(networks, m, k) {
      assert PrefixFacts(networks, m, k) && PrefixFacts(networks, w, k);
      assert HoldsMapped(networks, w, k);
      if Innermost(networks, m, k) {
        assert HostBitsOf(networks, w) <= HostBitsOf(networks, m);
      }
    } else {
      assert PrefixFacts(networks, w, k);
    }
  }

  /** 0.0.0.0/24 listed beside ::ffff:0:0/96: 0.0.0.0 goes to the mapped block, though the other is inside it. */
  lemma {:induction false} MappedWinsOverSmaller() returns (networks: seq<Network>)
    ensures |networks| == 2 && Winner(networks, V4_BASE) == 1 && HoldsMapped(networks, 1, V4_BASE)
    ensures Holds(networks, 0, V4_BASE) && HostBitsOf(networks, 0) == 8 && HostBitsOf(networks, 1) == 32
    ensures !Innermost(networks, Winner(networks, V4_BASE), V4_BASE)
  {
    var a := ZeroBlock(24);
    var b := MappedBlock();
    networks := [Network(1, "", Some(a), None), Network(2, "", Some(b), None)];
    assert Holds(networks, 0, V4_BASE) && Holds(networks, 1, V4_BASE);
    WinnerMeaning(networks, V4_BASE);
    assert Ones(networks, 0) == 24 && Ones(networks, 1) == 96;
  }

  /** How prefix length and host bits of a containing network relate. */
  ghost predicate PrefixFacts(networks: seq<Network>, i: int, k: nat)
    requires Holds(networks, i, k)
  {
    if HoldsMapped(networks, i, k)
    then IsV4Key(k) && Ones(networks, i) >= 96 && Ones(networks, i) + HostBitsOf(networks, i) == 128
    else Ones(networks, i) + HostBitsOf(networks, i) == if IsV4Key(k) then 32 else 128
  }

  lemma {:induction false} FamilyOfBlock(n: CIDR, k: nat)
    requires n.Has(k)
    ensures n.MappedV6() ==> IsV4Key(k) && n.HostBits() <= 32 && n.Bits() == 128
    ensures !n.MappedV6() ==> n.Bits() == if IsV4Key(k) then 32 else 128
  {
    To4IsV4Key(n.ip);
    if n.MappedV6() {
      MappedHostBits(n);
    }
  }

  /** Blocks that contain a common address are nested, so the innermost lies inside every other. */
  lemma {:induction false} InnermostIsInside(networks: seq<Network>, w: int, i: int, k: nat, j: nat)
    requires Innermost(networks, w, k) && Holds(networks, i, k) && Holds(networks, w, j)
    ensures Holds(networks, i, j)
  {
    NestedOrDisjoint(networks[w].cidr.value, networks[i].cidr.value, k, j);
  }

  // ---- The allocations of each network ----

  /** The parseable IPs of one host, in order. */
  function HostClaims(h: Host, ips: seq<Option<IP>>): seq<Allocation> {
    if ips == [] then []
    else
      var n := |ips| - 1;
      HostClaims(h, ips[..n]) + (if ips[n].Some? then [Allocation(Key(ips[n].value), h.id, h.name)] else [])
  }

  /** Every parseable host IP, in host order. */
  function Claims(hosts: seq<Host>): seq<Allocation> {
    if hosts == [] then []
    else
      var n := |hosts| - 1;
      Claims(hosts[..n]) + HostClaims(hosts[n], hosts[n].ips)
  }

  /** The elements of a list that an attribution w assigns to i, in order. */
  function Select<T>(w: T -> int, s: seq<T>, i: int): seq<T> {
    if s == [] then []
    else Select(w, s[..|s| - 1], i) + (if w(s[|s| - 1]) == i then [s[|s| - 1]] else [])
  }

  /** The attribution of claims to networks. */
  function ByWinner(networks: seq<Network>): Allocation -> int {
    (a: Allocation) => Winner(networks, a.ip)
  }

  /** The claims attributed to network i (-1: to none). */
  function Attributed(networks: seq<Network>, claims: seq<Allocation>, i: int): seq<Allocation> {
    Select(ByWinner(networks), claims, i)
  }

  lemma {:induction false} SelectStep<T>(w: T -> int, s: seq<T>, a: T, i: int)
    ensures Select(w, s + [a], i) == Select(w, s, i) + if w(a) == i then [a] else []
  {
    assert (s + [a])[..|s|] == s;
  }

  lemma {:induction false} SelectElements<T>(w: T -> int, s: seq<T>, i: int)
    ensures forall a :: a in Select(w, s, i) <==> a in s && w(a) == i
  {
    if s != [] {
      SelectElements(w, s[..|s| - 1], i);
      assert s == s[..|s| - 1] + [s[|s| - 1]];
    }
  }

  /** The positions of the elements that w assigns to i. */
  ghost function AssignedTo<T>(w: T -> int, s: seq<T>, i: int): set<nat> {
    set p | 0 <= p < |s| && w(s[p]) == i
  }

  /** Exactly the elements assigned to i, each where it stood, in order. */
  lemma {:induction false} SelectMeaning<T>(w: T -> int, s: seq<T>, i: int) returns (src: seq<nat>)
    ensures Lists(src, AssignedTo(w, s, i)) && |src| == |Select(w, s, i)|
    ensures forall p :: 0 <= p < |src| ==> src[p] < |s| && Select(w, s, i)[p] == s[src[p]]
  {
    src := [];
    if s != [] {
      var n := |s| - 1;
      var front := SelectMeaning(w, s[..n], i);
      assert forall p :: p in AssignedTo(w, s, i) <==> p in AssignedTo(w, s[..n], i) || (p == n && w(s[n]) == i);
      ListsStep(front, AssignedTo(w, s[..n], i), n, w(s[n]) == i);
      src := Extended(front, n, w(s[n]) == i);
    }
  }

  /** How often an element occurs in a list. */
  function Count<T(==)>(s: seq<T>, x: T): nat {
    multiset(s)[x]
  }

  /** How often an element occurs in the lists lo, lo+1, .., hi-1 together. */
  function CountRange<T(==)>(w: T -> int, s: seq<T>, x: T, lo: int, hi: int): nat
    decreases hi - lo
  {
    if lo >= hi then 0 else Count(Select(w, s, lo), x) + CountRange(w, s, x, lo + 1, hi)
  }

  lemma {:induction false} CountAppend<T>(s: seq<T>, t: seq<T>, x: T)
    ensures Count(s + t, x) == Count(s, x) + Count(t, x)
  {
  }

  lemma {:induction false} CountRangeStep<T>(w: T -> int, s: seq<T>, a: T, x: T, lo: int, hi: int)
    ensures CountRange(w, s + [a], x, lo, hi) ==
      CountRange(w, s, x, lo, hi) + if a == x && lo <= w(a) < hi then 1 else 0
    decreases hi - lo
  {
    if lo < hi {
      CountRangeStep(w, s, a, x, lo + 1, hi);
      SelectStep(w, s, a, lo);
      CountAppend(Select(w, s, lo), if w(a) == lo then [a] else [], x);
    }
  }

  lemma {:induction false} CountRangeEmpty<T>(w: T -> int, x: T, lo: int, hi: int)
    ensures CountRange(w, [], x, lo, hi) == 0
    decreases hi - lo
  {
    if lo < hi {
      CountRangeEmpty(w, x, lo + 1, hi);
    }
  }

  lemma {:induction false} SelectPartitions<T>(w: T -> int, s: seq<T>, x: T, lo: int, hi: int)
    requires forall a :: a in s ==> lo <= w(a) < hi
    ensures Count(s, x) == CountRange(w, s, x, lo, hi)
  {
    if s == [] {
      CountRangeEmpty(w, x, lo, hi);
    } else {
      var n := |s| - 1;
      assert s == s[..n] + [s[n]];
      SelectPartitions(w, s[..n], x, lo, hi);
      CountAppend(s[..n], [s[n]], x);
      CountRangeStep(w, s[..n], s[n], x, lo, hi);
    }
  }

  /**
    No host IP is lost and none counted twice: each occurs in the unassigned list
    (-1) and the per-network lists together exactly as often as the hosts claim it.
   */
  lemma {:induction false} AttributionPartitions(networks: seq<Network>, claims: seq<Allocation>, x: Allocation)
    ensures Count(claims, x) == CountRange(ByWinner(networks), claims, x, -1, |networks|)
  {
    forall a | a in claims ensures -1 <= ByWinner(networks)(a) < |networks| {
      WinnerMeaning(networks, a.ip);
    }
    SelectPartitions(ByWinner(networks), claims, x, -1, |networks|);
  }

  /** A network's list holds exactly the claims it won, all in its own block. */
  lemma {:induction false} AttributedInBlock(networks: seq<Network>, claims: seq<Allocation>, i: nat)
    ensures forall a :: a in Attributed(networks, claims, i) <==> a in claims && Winner(networks, a.ip) == i
    ensures forall a :: a in Attributed(networks, claims, i) ==> Holds(networks, i, a.ip)
  {
    SelectElements(ByWinner(networks), claims, i);
    forall a | a in Attributed(networks, claims, i) ensures Holds(networks, i, a.ip) {
      WinnerMeaning(networks, a.ip);
    }
  }

  // ---- Every address of every host ----

  /** Host i has a parseable IP j. */
  predicate Parses(hosts: seq<Host>, i: nat, j: nat) {
    i < |hosts| && j < |hosts[i].ips| && hosts[i].ips[j].Some?
  }

  /** IP j of host i makes the entry a: that address, under the host's id and name. */
  predicate Makes(hosts: seq<Host>, i: nat, j: nat, a: Allocation) {
    && Parses(hosts, i, j)
    && a.ip == Key(hosts[i].ips[j].value) && a.hostID == hosts[i].id && a.hostName == hosts[i].name
  }

  /** Host by host, and in each host in the order of its IPs. */
  predicate Before(p: (nat, nat), q: (nat, nat)) {
    p.0 < q.0 || (p.0 == q.0 && p.1 < q.1)
  }

  /** The host and the IP that each entry comes from: all of them, each once, in order. */
  ghost predicate Traced(hosts: seq<Host>, claims: seq<Allocation>, src: seq<(nat, nat)>) {
    && |src| == |claims|
    && (forall p :: 0 <= p < |src| ==> Makes(hosts, src[p].0, src[p].1, claims[p]))
    && (forall p, q :: 0 <= p < q < |src| ==> Before(src[p], src[q]))
    && (forall i: nat, j: nat :: Parses(hosts, i, j) ==> (i, j) in src)
  }

  /** The positions of the parseable IPs. */
  function WithSome(ips: seq<Option<IP>>): set<nat> {
    set j | 0 <= j < |ips| && ips[j].Some?
  }

  /** The entries of exactly the parseable IPs, in order. */
  ghost predicate FromIPs(h: Host, ips: seq<Option<IP>>, claims: seq<Allocation>, src: seq<nat>) {
    && |src| == |claims| && Lists(src, WithSome(ips))
    && (forall p :: 0 <= p < |src| ==> src[p] in WithSome(ips)
                                       && claims[p] == Allocation(Key(ips[src[p]].value), h.id, h.name))
  }

  lemma {:induction false} FromIPsStep(h: Host, ips: seq<Option<IP>>, ip: Option<IP>, claims: seq<Allocation>,
                                       src: seq<nat>)
    requires FromIPs(h, ips, claims, src)
    ensures FromIPs(h, ips + [ip], claims + (if ip.Some? then [Allocation(Key(ip.value), h.id, h.name)] else []),
                    Extended(src, |ips|, ip.Some?))
  {
    ListsStep(src, WithSome(ips), |ips|, ip.Some?);
    assert WithSome(ips + [ip]) == if ip.Some? then WithSome(ips) + {|ips|} else WithSome(ips);
  }

  lemma {:induction false} HostClaimsMeaning(h: Host, ips: seq<Option<IP>>) returns (src: seq<nat>)
    ensures FromIPs(h, ips, HostClaims(h, ips), src)
  {
    src := [];
    if ips != [] {
      var n := |ips| - 1;
      var front := HostClaimsMeaning(h, ips[..n]);
      FromIPsStep(h, ips[..n], ips[n], HostClaims(h, ips[..n]), front);
      src := Extended(front, n, ips[n].Some?);
      assert ips[..n] + [ips[n]] == ips;
    }
  }

  /** The claims list every parseable IP of every host, in order, each under its own host. */
  lemma {:induction false} ClaimsMeaning(hosts: seq<Host>) returns (src: seq<(nat, nat)>)
    ensures Traced(hosts, Claims(hosts), src)
  {
    if hosts == [] {
      src := [];
    } else {
      var n := |hosts| - 1;
      var front := ClaimsMeaning(hosts[..n]);
      var own := HostClaimsMeaning(hosts[n], hosts[n].ips);
      TracedStep(hosts[..n], hosts[n], Claims(hosts[..n]), front, own);
      src := front + Numbered(n, own);
      assert hosts[..n] + [hosts[n]] == hosts;
    }
  }

  /** The IPs of host n, under its number. */
  function Numbered(n: nat, own: seq<nat>): seq<(nat, nat)> {
    seq(|own|, p requires 0 <= p < |own| => (n, own[p]))
  }

  lemma {:induction false} NumberedHas(n: nat, own: seq<nat>, j: nat)
    requires j in own
    ensures (n, j) in Numbered(n, own)
  {
    var p :| 0 <= p < |own| && own[p] == j;
    assert Numbered(n, own)[p] == (n, j);
  }

  lemma {:induction false} TracedAll(hosts: seq<Host>, h: Host, claims: seq<Allocation>, front: seq<(nat, nat)>,
                                     own: seq<nat>)
    requires Traced(hosts, claims, front) && Lists(own, WithSome(h.ips))
    ensures forall i: nat, j: nat :: Parses(hosts + [h], i, j) ==> (i, j) in front + Numbered(|hosts|, own)
  {
    forall i: nat, j: nat | Parses(hosts + [h], i, j) ensures (i, j) in front + Numbered(|hosts|, own) {
      if i < |hosts| {
        assert Parses(hosts, i, j) && (i, j) in front;
      } else {
        assert j in WithSome(h.ips);
        NumberedHas(|hosts|, own, j);
      }
    }
  }

  lemma {:induction false} TracedStep(hosts: seq<Host>, h: Host, claims: seq<Allocation>, front: seq<(nat, nat)>,
                                      own: seq<nat>)
    requires Traced(hosts, claims, front) && FromIPs(h, h.ips, HostClaims(h, h.ips), own)
    ensures Traced(hosts + [h], claims + HostClaims(h, h.ips), front + Numbered(|hosts|, own))
  {
    TracedAll(hosts, h, claims, front, own);
    TracedMakes(hosts, h, claims, front, own);
    forall p | 0 <= p < |front| ensures front[p].0 < |hosts| {
      assert Makes(hosts, front[p].0, front[p].1, claims[p]);
    }
  }

  lemma {:induction false} TracedMakes(hosts: seq<Host>, h: Host, claims: seq<Allocation>, front: seq<(nat, nat)>,
                                       own: seq<nat>)
    requires Traced(hosts, claims, front) && FromIPs(h, h.ips, HostClaims(h, h.ips), own)
    ensures var (src, all) := (front + Numbered(|hosts|, own), claims + HostClaims(h, h.ips));
      |src| == |all| && forall p :: 0 <= p < |src| ==> Makes(hosts + [h], src[p].0, src[p].1, all[p])
  {
    var src, all := front + Numbered(|hosts|, own), claims + HostClaims(h, h.ips);
    forall p | 0 <= p < |src| ensures Makes(hosts + [h], src[p].0, src[p].1, all[p]) {
      if p < |front| {
        assert Makes(hosts, front[p].0, front[p].1, claims[p]);
      } else {
        var q := p - |front|;
        assert src[p] == (|hosts|, own[q]) && all[p] == HostClaims(h, h.ips)[q] && own[q] in WithSome(h.ips);
      }
    }
  }

  /** An entry is among the claims exactly when some IP of some host makes it. */
  lemma {:induction false} ClaimedExactly(hosts: seq<Host>, a: Allocation)
    ensures a in Claims(hosts) <==> exists i: nat, j: nat :: Makes(hosts, i, j, a)
  {
    var src := ClaimsMeaning(hosts);
    if a in Claims(hosts) {
      var p :| 0 <= p < |src| && Claims(hosts)[p] == a;
      assert Makes(hosts, src[p].0, src[p].1, a);
    }
    if i: nat, j: nat :| Makes(hosts, i, j, a) {
      assert (i, j) in src;
    }
  }

  /** The IPs that make an entry: equal ones of one host, or of hosts with the same id and name. */
  function Makers(hosts: seq<Host>, a: Allocation): set<(nat, nat)> {
    set i, j | 0 <= i < |hosts| && 0 <= j < |hosts[i].ips| && Makes(hosts, i, j, a) :: (i, j)
  }

  /** The sources of the occurrences of x among the first n entries. */
  function SourcesOf(claims: seq<Allocation>, src: seq<(nat, nat)>, n: nat, x: Allocation): set<(nat, nat)>
    requires n <= |src| == |claims|
  {
    set p | 0 <= p < n && claims[p] == x :: src[p]
  }

  lemma {:induction false} CountSources(claims: seq<Allocation>, src: seq<(nat, nat)>, n: nat, x: Allocation)
    requires n <= |src| == |claims| && Distinct(src)
    ensures Count(claims[..n], x) == |SourcesOf(claims, src, n, x)|
  {
    if n > 0 {
      var front := SourcesOf(claims, src, n - 1, x);
      CountSources(claims, src, n - 1, x);
      assert claims[..n] == claims[..n - 1] + [claims[n - 1]];
      CountAppend(claims[..n - 1], [claims[n - 1]], x);
      assert src[n - 1] !in front;
      assert SourcesOf(claims, src, n, x) == front + if claims[n - 1] == x then {src[n - 1]} else {};
    }
  }

  lemma {:induction false} SourcesAreMakers(hosts: seq<Host>, claims: seq<Allocation>, src: seq<(nat, nat)>,
                                            x: Allocation)
    requires Traced(hosts, claims, src)
    ensures SourcesOf(claims, src, |src|, x) == Makers(hosts, x)
  {
    forall i: nat, j: nat | (i, j) in Makers(hosts, x) ensures (i, j) in SourcesOf(claims, src, |src|, x) {
      assert Parses(hosts, i, j);
      var p :| 0 <= p < |src| && src[p] == (i, j);
      assert Makes(hosts, i, j, claims[p]);
    }
    forall p | 0 <= p < |src| && claims[p] == x ensures src[p] in Makers(hosts, x) {
      assert Makes(hosts, src[p].0, src[p].1, claims[p]);
    }
  }

  /** An entry occurs among the claims as often as IPs make it. */
  lemma {:induction false} ClaimedAsOften(hosts: seq<Host>, x: Allocation)
    ensures Count(Claims(hosts), x) == |Makers(hosts, x)|
  {
    var src := ClaimsMeaning(hosts);
    assert Claims(hosts)[..|src|] == Claims(hosts);
    CountSources(Claims(hosts), src, |src|, x);
    SourcesAreMakers(hosts, Claims(hosts), src, x);
  }

  lemma {:induction false} CountSelected<T>(w: T -> int, s: seq<T>, x: T, i: int)
    ensures Count(Select(w, s, i), x) == if w(x) == i then Count(s, x) else 0
  {
    if s != [] {
      var n := |s| - 1;
      CountSelected(w, s[..n], x, i);
      assert s == s[..n] + [s[n]];
      CountAppend(s[..n], [s[n]], x);
      CountAppend(Select(w, s[..n], i), if w(s[n]) == i then [s[n]] else [], x);
    }
  }

  /**
    No host IP is lost, none counted twice and none misplaced: an entry occurs in
    the list of its winner (-1: the unassigned) exactly as often as IPs of hosts
    make it, and in no other list; so it does in all the lists together.
   */
  lemma {:induction false} EveryHostIPOnce(networks: seq<Network>, hosts: seq<Host>, x: Allocation, i: int)
    ensures Count(Attributed(networks, Claims(hosts), i), x) ==
      if Winner(networks, x.ip) == i then |Makers(hosts, x)| else 0
    ensures CountRange(ByWinner(networks), Claims(hosts), x, -1, |networks|) == |Makers(hosts, x)|
  {
    ClaimedAsOften(hosts, x);
    CountSelected(ByWinner(networks), Claims(hosts), x, i);
    AttributionPartitions(networks, Claims(hosts), x);
  }

  /** An address stands in a network's list exactly when the network wins it and some host has it. */
  lemma {:induction false} ListedExactly(networks: seq<Network>, hosts: seq<Host>, i: int, a: Allocation)
    ensures a in Attributed(networks, Claims(hosts), i) <==>
      Winner(networks, a.ip) == i && exists h: nat, j: nat :: Makes(hosts, h, j, a)
  {
    SelectElements(ByWinner(networks), Claims(hosts), i);
    ClaimedExactly(hosts, a);
  }

  // ---- attribute ----

  function Lookup(used: map<int, seq<Allocation>>, i: int): seq<Allocation> {
    if i in used then used[i] else []
  }

  /** Each network asked for has its list, and no other. */
  ghost predicate ListsKept(networks: seq<Network>, claims: seq<Allocation>, only: int,
                            used: map<int, seq<Allocation>>) {
    && (forall i :: 0 <= i < |networks| && (only < 0 || i == only) ==>
          Lookup(used, i) == Attributed(networks, claims, i))
    && (forall i :: i in used ==> 0 <= i < |networks| && (only < 0 || i == only))
  }

  /** The tables after the claims so far; with only >= 0, just that network's list is kept. */
  ghost predicate Tables(networks: seq<Network>, claims: seq<Allocation>, only: int,
                         used: map<int, seq<Allocation>>, unassigned: seq<Allocation>) {
    ListsKept(networks, claims, only, used)
    && unassigned == if only < 0 then Attributed(networks, claims, -1) else []
  }

  lemma {:induction false} ListsKeptStep(networks: seq<Network>, claims: seq<Allocation>, only: int,
                                      used: map<int, seq<Allocation>>, a: Allocation)
    requires ListsKept(networks, claims, only, used)
    ensures var w := Winner(networks, a.ip);
      ListsKept(networks, claims + [a], only,
                if w >= 0 && (only < 0 || w == only) then used[w := Lookup(used, w) + [a]] else used)
  {
    var w := Winner(networks, a.ip);
    var used' := if w >= 0 && (only < 0 || w == only) then used[w := Lookup(used, w) + [a]] else used;
    WinnerMeaning(networks, a.ip);
    forall i | 0 <= i < |networks| && (only < 0 || i == only)
      ensures Lookup(used', i) == Attributed(networks, claims + [a], i) {
      AttributedStep(networks, claims, a, i);
      LookupStep(used, w, a, i);
    }
  }

  lemma {:induction false} LookupStep(used: map<int, seq<Allocation>>, w: int, a: Allocation, i: int)
    ensures Lookup(used[w := Lookup(used, w) + [a]], i) == if i == w then Lookup(used, w) + [a] else Lookup(used, i)
  {
  }

  lemma {:induction false} TablesLookup(networks: seq<Network>, claims: seq<Allocation>, only: int,
                                        used: map<int, seq<Allocation>>, unassigned: seq<Allocation>, i: nat)
    requires Tables(networks, claims, only, used, unassigned) && i < |networks| && (only < 0 || i == only)
    ensures Lookup(used, i) == Attributed(networks, claims, i)
  {
  }

  lemma {:induction false} TablesStep(networks: seq<Network>, claims: seq<Allocation>, only: int,
                                      used: map<int, seq<Allocation>>, unassigned: seq<Allocation>, a: Allocation)
    requires Tables(networks, claims, only, used, unassigned)
    ensures var w := Winner(networks, a.ip);
      Tables(networks, claims + [a], only,
             if w >= 0 && (only < 0 || w == only) then used[w := Lookup(used, w) + [a]] else used,
             if w < 0 && only < 0 then unassigned + [a] else unassigned)
  {
    ListsKeptStep(networks, claims, only, used, a);
    WinnerMeaning(networks, a.ip);
    AttributedStep(networks, claims, a, -1);
  }

  lemma {:induction false} AttributedStep(networks: seq<Network>, claims: seq<Allocation>, a: Allocation, i: int)
    ensures Attributed(networks, claims + [a], i) ==
      if Winner(networks, a.ip) == i then Attributed(networks, claims, i) + [a] else Attributed(networks, claims, i)
  {
    SelectStep(ByWinner(networks), claims, a, i);
  }

  /** The inner loop of `attribute`: the first parsed network with the longest containing prefix. */
  method FindBest(networks: seq<Network>, parsed: seq<ParsedNet>, ip: IP) returns (best: int)
    requires parsed == Parsed(networks)
    ensures best == Winner(networks, Key(ip))
  {
    var bestOnes: int := -1;
    best := -1;
    for i := 0 to |parsed|
      invariant (best, bestOnes) == Best(parsed[..i], Key(ip))
    {
      var p := parsed[i];
      assert parsed[..i + 1][..i] == parsed[..i];
      var inside := InNet(p.ipn, ip);
      if inside && p.ipn.ones > bestOnes {
        best, bestOnes := p.idx, p.ipn.ones;
      }
    }
    assert parsed[..|parsed|] == parsed;
  }

  method ParseNets(networks: seq<Network>) returns (parsed: seq<ParsedNet>)
    ensures parsed == Parsed(networks)
  {
    parsed := [];
    for i := 0 to |networks|
      invariant parsed == Parsed(networks[..i])
    {
      assert networks[..i + 1][..i] == networks[..i];
      if networks[i].cidr.Some? {
        parsed := parsed + [ParsedNet(i, networks[i].cidr.value)];
      }
    }
    assert networks[..|networks|] == networks;
  }

  /** `attribute`. */
  method Attribute(networks: seq<Network>, hosts: seq<Host>, onlyIdx: int)
    returns (used: map<int, seq<Allocation>>, unassigned: seq<Allocation>)
    ensures Tables(networks, Claims(hosts), onlyIdx, used, unassigned)
  {
    var parsed := ParseNets(networks);
    used, unassigned := map[], [];
    for i := 0 to |hosts|
      invariant Tables(networks, Claims(hosts[..i]), onlyIdx, used, unassigned)
    {
      assert hosts[..i + 1][..i] == hosts[..i];
      used, unassigned := AttributeHost(networks, parsed, hosts[i], onlyIdx, used, unassigned, Claims(hosts[..i]));
    }
    assert hosts[..|hosts|] == hosts;
  }

  lemma {:induction false} ClaimsStep(h: Host, i: nat, before: seq<Allocation>)
    requires i < |h.ips|
    ensures before + HostClaims(h, h.ips[..i + 1]) == before + HostClaims(h, h.ips[..i])
              + (if h.ips[i].Some? then [Allocation(Key(h.ips[i].value), h.id, h.name)] else [])
  {
    assert h.ips[..i + 1][..i] == h.ips[..i];
  }

  /** The loop of `attribute` over one host's IPs. */
  method AttributeHost(networks: seq<Network>, parsed: seq<ParsedNet>, h: Host, onlyIdx: int,
                       used0: map<int, seq<Allocation>>, unassigned0: seq<Allocation>, ghost before: seq<Allocation>)
    returns (used: map<int, seq<Allocation>>, unassigned: seq<Allocation>)
    requires parsed == Parsed(networks)
    requires Tables(networks, before, onlyIdx, used0, unassigned0)
    ensures Tables(networks, before + HostClaims(h, h.ips), onlyIdx, used, unassigned)
  {
    used, unassigned := used0, unassigned0;
    ghost var done := before;
    for i := 0 to |h.ips|
      invariant done == before + HostClaims(h, h.ips[..i])
      invariant Tables(networks, done, onlyIdx, used, unassigned)
    {
      ClaimsStep(h, i, before);
      if h.ips[i].None? {
        continue;
      }
      var a := Allocation(Key(h.ips[i].value), h.id, h.name);
      var best := FindBest(networks, parsed, h.ips[i].value);
      used, unassigned := Record(networks, best, a, onlyIdx, used, unassigned, done);
      done := done + [a];
    }
    assert h.ips[..|h.ips|] == h.ips;
  }

  /** Files one address under its network, or as unassigned, unless `onlyIdx` discards it. */
  method Record(networks: seq<Network>, best: int, a: Allocation, onlyIdx: int,
                used0: map<int, seq<Allocation>>, unassigned0: seq<Allocation>, ghost done: seq<Allocation>)
    returns (used: map<int, seq<Allocation>>, unassigned: seq<Allocation>)
    requires best == Winner(networks, a.ip)
    requires Tables(networks, done, onlyIdx, used0, unassigned0)
    ensures Tables(networks, done + [a], onlyIdx, used, unassigned)
  {
    used, unassigned := used0, unassigned0;
    TablesStep(networks, done, onlyIdx, used, unassigned, a);
    if best < 0 {
      if onlyIdx < 0 {
        unassigned := unassigned + [a];
      }
      return;
    }
    if onlyIdx < 0 || best == onlyIdx {
      used := used[best := Lookup(used, best) + [a]];
    }
  }
}
