/**
  The per-network occupancy report (`buildUsage`, `BuildIPAM` and
  `BuildNetworkUsage` in `internal/domain/ipam.go`) and its accounting.
 */
module Usage {
  import opened Wrappers
  import opened Bytes
  import opened Address
  import opened Listing
  import opened Sorting
  import opened Ipam
  import opened Attribution

  // ---- sortAllocs ----

  /** Order by address, then by host name. */
  predicate AllocLess(a: Allocation, b: Allocation) {
    a.ip < b.ip || (a.ip == b.ip && StringLess(a.hostName, b.hostName))
  }

  /** Entry a may stand before entry b. */
  predicate InReportOrder(a: Allocation, b: Allocation) {
    a.ip <= b.ip && (a.ip == b.ip ==> a.hostName == b.hostName || StringLess(a.hostName, b.hostName))
  }

  lemma {:induction false} AllocLessIsStrictWeak()
    ensures StrictWeak(AllocLess)
  {
    StringLessIsStrictTotal();
  }

  function SortAllocs(s: seq<Allocation>): seq<Allocation> {
    Sort(s, AllocLess)
  }

  /** Sorting the allocations keeps them all and orders them by address, and by host name where addresses collide. */
  lemma {:induction false} SortAllocsCorrect(s: seq<Allocation>)
    ensures multiset(SortAllocs(s)) == multiset(s)
    ensures forall i, j :: 0 <= i < j < |SortAllocs(s)| ==> InReportOrder(SortAllocs(s)[i], SortAllocs(s)[j])
    ensures forall a :: a in SortAllocs(s) <==> a in s
  {
    AllocLessIsStrictWeak();
    SortCorrect(s, AllocLess);
    var r := SortAllocs(s);
    forall i, j | 0 <= i < j < |r| ensures InReportOrder(r[i], r[j]) {
      assert !AllocLess(r[j], r[i]);
      StringLessIsStrictTotal();
    }
    forall a ensures a in r <==> a in s {
      assert a in multiset(r) <==> a in multiset(s);
    }
  }

  /** Entries with one address and one host name stay in the order of their hosts. */
  lemma {:induction false} SortAllocsStable(s: seq<Allocation>, a: Allocation)
    ensures Alike(SortAllocs(s), a) == Alike(s, a)
  {
    AllocLessIsStrictWeak();
    SortStable(s, a, AllocLess);
    AlikeTies(s, a);
    AlikeTies(SortAllocs(s), a);
  }

  /** The entries with the address and host name of a, in order. */
  function Alike(s: seq<Allocation>, a: Allocation): seq<Allocation> {
    if s == [] then []
    else
      var x := s[|s| - 1];
      Alike(s[..|s| - 1], a) + (if x.ip == a.ip && x.hostName == a.hostName then [x] else [])
  }

  lemma {:induction false} AlikeTies(s: seq<Allocation>, a: Allocation)
    ensures Alike(s, a) == Ties(s, a, AllocLess)
  {
    if s != [] {
      AlikeTies(s[..|s| - 1], a);
      StringLessIsStrictTotal();
    }
  }

  // ---- Grouping by address ----

  function ByIP(): Allocation -> int {
    (a: Allocation) => a.ip
  }

  /** The allocations of one address, in order. */
  function Group(used: seq<Allocation>, ip: nat): seq<Allocation> {
    Select(ByIP(), used, ip)
  }

  function KeysOf(used: seq<Allocation>): set<nat> {
    set a | a in used :: a.ip
  }

  /** The distinct addresses, in order of first appearance. */
  function Order(used: seq<Allocation>): seq<nat> {
    if used == [] then []
    else
      var n := |used| - 1;
      Order(used[..n]) + (if used[n].ip in KeysOf(used[..n]) then [] else [used[n].ip])
  }

  /** The groups of two or more, in the given order. */
  function ConflictsIn(order: seq<nat>, used: seq<Allocation>): seq<seq<Allocation>> {
    if order == [] then []
    else
      var n := |order| - 1;
      ConflictsIn(order[..n], used) + (if |Group(used, order[n])| >= 2 then [Group(used, order[n])] else [])
  }

  /** The order lists exactly the addresses used. */
  lemma {:induction false} OrderMembers(used: seq<Allocation>, k: nat)
    ensures k in Order(used) <==> k in KeysOf(used)
  {
    if used != [] {
      var n := |used| - 1;
      OrderMembers(used[..n], k);
      assert used[..n] + [used[n]] == used;
    }
  }

  lemma {:induction false} OrderDistinct(used: seq<Allocation>)
    ensures Distinct(Order(used))
  {
    if used != [] {
      var n := |used| - 1;
      OrderDistinct(used[..n]);
      OrderMembers(used[..n], used[n].ip);
      if used[n].ip !in KeysOf(used[..n]) {
      }
    }
  }

  lemma {:induction false} DistinctSize(s: seq<nat>, keys: set<nat>)
    requires Distinct(s) && forall k :: k in s <==> k in keys
    ensures |s| == |keys|
  {
    if s != [] {
      var n := |s| - 1;
      forall k ensures k in s[..n] <==> k in keys - {s[n]} {
        assert k in s <==> k in s[..n] || k == s[n];
      }
      DistinctSize(s[..n], keys - {s[n]});
      assert s[n] in s;
    } else {
      assert keys == {};
    }
  }

  /** The order lists each address once: its length is the number of distinct addresses. */
  lemma {:induction false} OrderMeaning(used: seq<Allocation>)
    ensures forall k :: k in Order(used) <==> k in KeysOf(used)
    ensures forall i, j :: 0 <= i < j < |Order(used)| ==> Order(used)[i] != Order(used)[j]
    ensures |Order(used)| == |KeysOf(used)|
  {
    OrderDistinct(used);
    forall k ensures k in Order(used) <==> k in KeysOf(used) {
      OrderMembers(used, k);
    }
    DistinctSize(Order(used), KeysOf(used));
  }

  lemma {:induction false} ConflictsMeaning(order: seq<nat>, used: seq<Allocation>)
    ensures forall g :: g in ConflictsIn(order, used) <==>
      exists k :: k in order && g == Group(used, k) && |g| >= 2
  {
    if order != [] {
      var n := |order| - 1;
      ConflictsMeaning(order[..n], used);
      forall g ensures g in ConflictsIn(order, used) <==>
          exists k :: k in order && g == Group(used, k) && |g| >= 2 {
        if g in ConflictsIn(order[..n], used) {
          var k :| k in order[..n] && g == Group(used, k) && |g| >= 2;
          assert k in order;
        } else if g in ConflictsIn(order, used) {
          assert order[n] in order;
        }
        if k :| k in order && g == Group(used, k) && |g| >= 2 {
          assert k in order[..n] || k == order[n];
        }
      }
    }
  }

  /** An address is in conflict exactly when two or more entries share it. */
  lemma {:induction false} ConflictsComplete(used: seq<Allocation>, ip: nat)
    ensures |Group(used, ip)| >= 2 <==> Group(used, ip) in ConflictsIn(Order(used), used)
  {
    ConflictsMeaning(Order(used), used);
    OrderMeaning(used);
    if |Group(used, ip)| >= 2 {
      NonEmptyGroup(used, ip);
    }
  }

  /** Every conflict lists two or more allocations, all of one address. */
  lemma {:induction false} ConflictsSound(used: seq<Allocation>, g: seq<Allocation>)
    requires g in ConflictsIn(Order(used), used)
    ensures |g| >= 2 && forall a :: a in g <==> a in used && a.ip == g[0].ip
  {
    ConflictsMeaning(Order(used), used);
    var k :| k in Order(used) && g == Group(used, k) && |g| >= 2;
    SelectElements(ByIP(), used, k);
    assert g[0] in g;
  }

  /** Entry i is the first of its address. */
  predicate FirstUse(used: seq<Allocation>, i: nat) {
    i < |used| && forall j :: 0 <= j < i ==> used[j].ip != used[i].ip
  }

  /** The addresses stand in the order of their first entries. */
  ghost predicate ByFirstUse(used: seq<Allocation>, order: seq<nat>, src: seq<nat>) {
    && |src| == |order|
    && (forall p :: 0 <= p < |src| ==> FirstUse(used, src[p]) && order[p] == used[src[p]].ip)
  }

  function Firsts(used: seq<Allocation>): set<nat> {
    set i | 0 <= i < |used| && FirstUse(used, i)
  }

  lemma {:induction false} OrderByFirstUse(used: seq<Allocation>) returns (src: seq<nat>)
    ensures Lists(src, Firsts(used)) && ByFirstUse(used, Order(used), src)
  {
    src := [];
    if used != [] {
      var n := |used| - 1;
      var front := OrderByFirstUse(used[..n]);
      var more := used[n].ip !in KeysOf(used[..n]);
      FirstUseStep(used, n);
      assert Firsts(used) == if more then Firsts(used[..n]) + {n} else Firsts(used[..n]);
      ListsStep(front, Firsts(used[..n]), n, more);
      src := Extended(front, n, more);
    }
  }

  lemma {:induction false} FirstUseStep(used: seq<Allocation>, n: nat)
    requires n + 1 == |used|
    ensures forall i :: 0 <= i < n ==> (FirstUse(used, i) <==> FirstUse(used[..n], i))
    ensures FirstUse(used, n) <==> used[n].ip !in KeysOf(used[..n])
  {
    if used[n].ip !in KeysOf(used[..n]) {
      forall j | 0 <= j < n ensures used[j].ip != used[n].ip {
        assert used[..n][j] in used[..n];
      }
    }
  }

  /** Entry i is the first of an address that a later entry has too. */
  predicate Contested(used: seq<Allocation>, i: nat) {
    FirstUse(used, i) && exists j :: i < j < |used| && used[j].ip == used[i].ip
  }

  /** A conflict is every entry with the address of entry i, in order. */
  ghost predicate AllOf(g: seq<Allocation>, used: seq<Allocation>, i: nat)
    requires i < |used|
  {
    exists own: seq<nat> :: |own| == |g| && Lists(own, set j | 0 <= j < |used| && used[j].ip == used[i].ip)
      && forall q :: 0 <= q < |g| ==> own[q] < |used| && g[q] == used[own[q]]
  }

  lemma {:induction false} GroupIsAll(used: seq<Allocation>, i: nat)
    requires i < |used|
    ensures AllOf(Group(used, used[i].ip), used, i)
    ensures FirstUse(used, i) ==> (|Group(used, used[i].ip)| >= 2 <==> Contested(used, i))
  {
    var own := SelectMeaning(ByIP(), used, used[i].ip);
    var all := set j | 0 <= j < |used| && used[j].ip == used[i].ip;
    assert AssignedTo(ByIP(), used, used[i].ip) == all;
    if FirstUse(used, i) {
      TwoListed(own, all, i);
      if j :| j in all && i < j {
        assert used[j].ip == used[i].ip;
      }
      if Contested(used, i) {
        var j :| i < j < |used| && used[j].ip == used[i].ip;
        assert j in all;
      }
    }
  }

  /** A listing has two or more positions exactly when one follows its least. */
  lemma {:induction false} TwoListed(own: seq<nat>, all: set<nat>, i: nat)
    requires Lists(own, all) && i in all && forall j :: j in all ==> i <= j
    ensures |own| >= 2 <==> exists j :: j in all && i < j
  {
    assert i in own;
    if |own| >= 2 {
      assert own[0] in own && own[1] in own;
    }
  }

  /** Each listed entry has its own conflict, with all the entries of its address. */
  ghost predicate ConflictsFrom(used: seq<Allocation>, conflicts: seq<seq<Allocation>>, src: seq<nat>) {
    |src| == |conflicts| && forall p :: 0 <= p < |src| ==> src[p] < |used| && AllOf(conflicts[p], used, src[p])
  }

  /** The conflicts are the contested addresses in the order of their first entries, each with all its entries. */
  lemma {:induction false} ConflictsInOrder(n: Network, used: seq<Allocation>, rs: seq<Reservation>)
    returns (src: seq<nat>)
    ensures Lists(src, set i | 0 <= i < |used| && Contested(used, i))
    ensures ConflictsFrom(used, UsageOf(n, used, rs).conflicts, src)
  {
    var first := OrderByFirstUse(used);
    src := ContestedAmong(used, Order(used), first);
    assert ContestedOf(used, first) == set i | 0 <= i < |used| && Contested(used, i);
  }

  lemma {:induction false} ContestedAmong(used: seq<Allocation>, order: seq<nat>, first: seq<nat>)
    returns (src: seq<nat>)
    requires |order| == |first| && Rising(first)
    requires forall p :: 0 <= p < |first| ==> FirstUse(used, first[p]) && order[p] == used[first[p]].ip
    ensures Lists(src, ContestedOf(used, first)) && ConflictsFrom(used, ConflictsIn(order, used), src)
  {
    src := [];
    if order != [] {
      var n := |order| - 1;
      var front := ContestedAmong(used, order[..n], first[..n]);
      assert first == first[..n] + [first[n]];
      ContestedStep(used, front, first[..n], first[n]);
      ConflictsStep(used, ConflictsIn(order[..n], used), front, first[n]);
      src := Extended(front, first[n], Contested(used, first[n]));
    }
  }

  function ContestedOf(used: seq<Allocation>, first: seq<nat>): set<nat> {
    set j | j in first && Contested(used, j)
  }

  lemma {:induction false} ContestedStep(used: seq<Allocation>, src: seq<nat>, first: seq<nat>, i: nat)
    requires Rising(first + [i]) && Lists(src, ContestedOf(used, first))
    ensures Lists(Extended(src, i, Contested(used, i)), ContestedOf(used, first + [i]))
  {
    forall j | j in first ensures j < i {
      var p :| 0 <= p < |first| && first[p] == j;
      assert (first + [i])[p] == j && (first + [i])[|first|] == i;
    }
    ListsStep(src, ContestedOf(used, first), i, Contested(used, i));
    assert ContestedOf(used, first + [i]) ==
      if Contested(used, i) then ContestedOf(used, first) + {i} else ContestedOf(used, first);
  }

  lemma {:induction false} ConflictsStep(used: seq<Allocation>, conflicts: seq<seq<Allocation>>, src: seq<nat>, i: nat)
    requires FirstUse(used, i) && ConflictsFrom(used, conflicts, src)
    ensures var g := Group(used, used[i].ip);
      ConflictsFrom(used, conflicts + (if |g| >= 2 then [g] else []), Extended(src, i, Contested(used, i)))
  {
    GroupIsAll(used, i);
    if Contested(used, i) {
      FromAppend(used, conflicts, src, Group(used, used[i].ip), i);
    } else {
      assert conflicts + [] == conflicts;
    }
  }

  lemma {:induction false} FromAppend(used: seq<Allocation>, conflicts: seq<seq<Allocation>>, src: seq<nat>,
                                      g: seq<Allocation>, i: nat)
    requires i < |used| && AllOf(g, used, i) && ConflictsFrom(used, conflicts, src)
    ensures ConflictsFrom(used, conflicts + [g], src + [i])
  {
    var c, e := conflicts + [g], src + [i];
    forall p | 0 <= p < |e| ensures e[p] < |used| && AllOf(c[p], used, e[p]) {
      if p < |src| {
        assert e[p] == src[p] && c[p] == conflicts[p];
      }
    }
  }

  lemma {:induction false} NonEmptyGroup(used: seq<Allocation>, ip: nat)
    requires Group(used, ip) != []
    ensures ip in KeysOf(used)
  {
    SelectElements(ByIP(), used, ip);
    var a := Group(used, ip)[0];
    assert a in Group(used, ip);
  }

  // ---- buildUsage ----

  function GatewayKeys(n: Network): set<nat> {
    if n.cidr.Some? && n.gateway.Some? && n.cidr.value.Has(Key(n.gateway.value))
    then {Key(n.gateway.value)} else {}
  }

  function TotalUsable(c: CIDR): nat
    requires c.HostBits() < 31
  {
    UsableHi(c) - UsableLo(c)
  }

  function Clamp(x: int): nat {
    if x < 0 then 0 else x
  }

  /** The capacity of a network whose hosts use the addresses `keys`. */
  ghost function CapacityOf(n: Network, keys: set<nat>, rs: seq<Reservation>): Capacity {
    if n.cidr.None? then Capacity(0, 0, false, None, 0)
    else if n.cidr.value.HostBits() >= 31 then Capacity(0, 0, true, None, 0)
    else
      var c := n.cidr.value;
      var extra := |ReservedSet(c, rs) - keys|;
      Capacity(TotalUsable(c), Clamp(TotalUsable(c) - |keys| - extra), false,
               LowestFree(c, keys + GatewayKeys(n) + ReservedSet(c, rs)), extra)
  }

  /** The whole report entry of a network. */
  ghost function UsageOf(n: Network, used: seq<Allocation>, rs: seq<Reservation>): NetworkUsage {
    NetworkUsage(n, used, ConflictsIn(Order(used), used), |KeysOf(used)|, rs, CapacityOf(n, KeysOf(used), rs))
  }

  /** The table of groups. */
  function Groups(used: seq<Allocation>): map<nat, seq<Allocation>> {
    map k | k in KeysOf(used) :: Group(used, k)
  }

  lemma {:induction false} GroupsStep(used: seq<Allocation>, a: Allocation)
    ensures Groups(used + [a]) ==
      Groups(used)[a.ip := if a.ip in Groups(used) then Groups(used)[a.ip] + [a] else [a]]
  {
    var m := Groups(used)[a.ip := if a.ip in Groups(used) then Groups(used)[a.ip] + [a] else [a]];
    assert Groups(used + [a]).Keys == m.Keys;
    forall k | k in m ensures m[k] == Group(used + [a], k) {
      SelectStep(ByIP(), used, a, k);
      if k !in KeysOf(used) {
        EmptyGroup(used, k);
      }
    }
  }

  lemma {:induction false} OrderStep(used: seq<Allocation>, a: Allocation)
    ensures Order(used + [a]) == if a.ip in Groups(used) then Order(used) else Order(used) + [a.ip]
  {
    assert (used + [a])[..|used|] == used;
  }

  method GroupByIP(used: seq<Allocation>) returns (byIP: map<nat, seq<Allocation>>, order: seq<nat>)
    ensures order == Order(used) && byIP == Groups(used)
  {
    byIP, order := map[], [];
    for i := 0 to |used|
      invariant order == Order(used[..i]) && byIP == Groups(used[..i])
    {
      var a := used[i];
      assert used[..i + 1] == used[..i] + [a];
      GroupsStep(used[..i], a);
      OrderStep(used[..i], a);
      if a.ip !in byIP {
        order := order + [a.ip];
        byIP := byIP[a.ip := [a]];
      } else {
        byIP := byIP[a.ip := byIP[a.ip] + [a]];
      }
    }
    assert used[..|used|] == used;
  }

  lemma {:induction false} EmptyGroup(used: seq<Allocation>, ip: nat)
    requires ip !in KeysOf(used)
    ensures Group(used, ip) == []
  {
    if Group(used, ip) != [] {
      NonEmptyGroup(used, ip);
    }
  }

  method CollectConflicts(byIP: map<nat, seq<Allocation>>, order: seq<nat>, ghost used: seq<Allocation>)
    returns (conflicts: seq<seq<Allocation>>)
    requires order == Order(used)
    requires byIP == Groups(used)
    ensures conflicts == ConflictsIn(order, used)
  {
    OrderMeaning(used);
    conflicts := [];
    for i := 0 to |order|
      invariant conflicts == ConflictsIn(order[..i], used)
    {
      assert order[..i + 1][..i] == order[..i];
      assert order[i] in Order(used);
      var g := byIP[order[i]];
      if |g| >= 2 {
        conflicts := conflicts + [g];
      }
    }
    assert order[..|order|] == order;
  }

  lemma {:induction false} OneMore(done: set<nat>, ip: nat, keys: set<nat>)
    requires ip !in done
    ensures |(done + {ip}) - keys| == |done - keys| + if ip in keys then 0 else 1
  {
    if ip in keys {
      assert (done + {ip}) - keys == done - keys;
    } else {
      assert (done + {ip}) - keys == (done - keys) + {ip};
    }
  }

  /** Counts the reserved addresses no host uses, adding every one to `taken`. */
  method CountReserved(reserved: set<nat>, usedKeys: set<nat>, taken0: set<nat>) returns (taken: set<nat>, count: nat)
    ensures taken == taken0 + reserved && count == |reserved - usedKeys|
  {
    taken, count := taken0, 0;
    var todo := reserved;
    ghost var done: set<nat> := {};
    while todo != {}
      invariant done + todo == reserved && done !! todo
      invariant taken == taken0 + done && count == |done - usedKeys|
      decreases todo
    {
      var ip :| ip in todo;
      OneMore(done, ip, usedKeys);
      todo, done := todo - {ip}, done + {ip};
      taken := taken + {ip};
      if ip !in usedKeys {
        count := count + 1;
      }
    }
  }

  /** The `TotalUsable` cases of `buildUsage`. */
  method CountUsable(ipn: CIDR) returns (total: nat)
    requires ipn.HostBits() < 31
    ensures total == TotalUsable(ipn)
  {
    if ReservesEnds(ipn.ones, ipn.Bits()) {
      EndsApart(ipn);
      total := Pow2(ipn.HostBits()) - 2;
    } else {
      total := Pow2(ipn.HostBits());
    }
  }

  /** The gateway counts as taken when it lies in the network. */
  method TakeGateway(n: Network, ipn: CIDR, keys: set<nat>) returns (taken: set<nat>)
    requires n.cidr == Some(ipn)
    ensures taken == keys + GatewayKeys(n)
  {
    taken := keys;
    if n.gateway.Some? {
      var inside := InNet(ipn, n.gateway.value);
      if inside {
        taken := taken + {Key(n.gateway.value)};
      }
    }
  }

  /** The capacity half of `buildUsage`. */
  method Measure(n: Network, keys: set<nat>, usedCount: nat, reservations: seq<Reservation>) returns (c: Capacity)
    requires usedCount == |keys|
    ensures c == CapacityOf(n, keys, reservations)
  {
    if n.cidr.None? {
      return Capacity(0, 0, false, None, 0);
    }
    var ipn := n.cidr.value;
    if ipn.Bits() - ipn.ones >= 31 {
      return Capacity(0, 0, true, None, 0);
    }
    var total := CountUsable(ipn);
    var taken := TakeGateway(n, ipn, keys);
    var reserved := ReservedAddrs(ipn, reservations);
    var reservedCount;
    taken, reservedCount := CountReserved(reserved, keys, taken);
    var next := NextFree(ipn, taken);
    c := Capacity(total, Clamp(total - usedCount - reservedCount), false, next, reservedCount);
  }

  /** `buildUsage`. */
  method BuildUsage(n: Network, used: seq<Allocation>, reservations: seq<Reservation>) returns (u: NetworkUsage)
    ensures u == UsageOf(n, used, reservations)
  {
    var byIP, order := GroupByIP(used);
    var conflicts := CollectConflicts(byIP, order, used);
    OrderMeaning(used);
    assert byIP.Keys == KeysOf(used);
    var c := Measure(n, byIP.Keys, |order|, reservations);
    u := NetworkUsage(n, used, conflicts, |order|, reservations, c);
  }

  // ---- What the numbers mean ----

  /** The usable addresses neither used nor reserved. */
  ghost function FreeSet(c: CIDR, x: set<nat>): set<nat> {
    Keys(UsableLo(c), UsableHi(c)) - x
  }

  /** The network and broadcast address of a block that keeps them. */
  ghost function Ends(c: CIDR): set<nat> {
    if ExcludesEnds(c) then {c.Lo(), c.Lo() + c.Size() - 1} else {}
  }

  lemma {:induction false} UsableAndEnds(c: CIDR)
    ensures UsableLo(c) <= UsableHi(c)
    ensures Block(c) == Keys(UsableLo(c), UsableHi(c)) + Ends(c)
    ensures Keys(UsableLo(c), UsableHi(c)) !! Ends(c)
    ensures |Ends(c)| <= 2
  {
    if ExcludesEnds(c) {
      EndsApart(c);
      TwoEnds(c.Lo(), c.Lo() + c.Size() - 1);
    }
  }

  lemma {:induction false} TwoEnds(lo: nat, hi: nat)
    requires lo < hi
    ensures Keys(lo, hi + 1) == Keys(lo + 1, hi) + {lo, hi}
    ensures Keys(lo + 1, hi) !! {lo, hi}
    ensures |{lo, hi}| == 2
  {
  }

  lemma {:induction false} SplitSize(x: set<nat>, a: set<nat>, b: set<nat>)
    requires x <= a + b && a !! b
    ensures |x| == |x * a| + |x * b|
    ensures |a - x| == |a| - |x * a|
  {
    assert x == (x * a) + (x * b);
    assert a == (a - x) + (x * a);
  }

  /**
    Capacity numbers against the set x of used or reserved addresses.  Used and
    reserved together count used-or-reserved addresses once each.  The free count
    is the number of usable addresses not in x, less the members of x on the ends,
    clamped at 0: at most two short, and exact when nothing sits on the ends.
   */
  ghost predicate Balanced(usable: set<nat>, ends: set<nat>, x: set<nat>, usedCount: nat, c: Capacity) {
    && usedCount + c.reservedCount == |x|
    && c.totalUsable == |usable|
    && c.freeCount == Clamp(|usable - x| - |x * ends|)
    && |usable - x| - 2 <= c.freeCount <= |usable - x|
    && (x !! ends ==> c.freeCount == |usable - x|)
  }

  /** The counting itself, over any block split into usable addresses and ends. */
  lemma {:induction false} Balance(used: set<nat>, reserved: set<nat>, usable: set<nat>, ends: set<nat>, c: Capacity)
    requires used + reserved <= usable + ends && usable !! ends && |ends| <= 2
    requires c.totalUsable == |usable| && c.reservedCount == |reserved - used|
    requires c.freeCount == Clamp(c.totalUsable - |used| - c.reservedCount)
    ensures Balanced(usable, ends, used + reserved, |used|, c)
  {
    var x := used + reserved;
    assert x == used + (reserved - used);
    SplitSize(x, usable, ends);
    SubsetSize(x * ends, ends);
    if x !! ends {
      assert x * ends == {};
    }
  }

  /** The numbers of a report entry, for the set x of used or reserved addresses. */
  ghost predicate CapacityMeans(c: CIDR, x: set<nat>, u: NetworkUsage) {
    Balanced(Keys(UsableLo(c), UsableHi(c)), Ends(c), x, u.usedCount, u.capacity)
  }

  lemma {:induction false} InBlock(c: CIDR, used: seq<Allocation>)
    requires forall a :: a in used ==> c.Has(a.ip)
    ensures KeysOf(used) <= Block(c)
  {
  }

  lemma {:induction false} ReservedInBlock(c: CIDR, rs: seq<Reservation>)
    ensures ReservedSet(c, rs) <= Block(c)
  {
  }

  /** The numbers balance over the reserved addresses that were collected. */
  lemma {:induction false} CollectedBalance(n: Network, used: seq<Allocation>, rs: seq<Reservation>)
    requires n.cidr.Some? && n.cidr.value.HostBits() < 31
    requires forall a :: a in used ==> n.cidr.value.Has(a.ip)
    ensures CapacityMeans(n.cidr.value, KeysOf(used) + ReservedSet(n.cidr.value, rs), UsageOf(n, used, rs))
  {
    var c := n.cidr.value;
    var keys, reserved, cap := KeysOf(used), ReservedSet(c, rs), CapacityOf(n, KeysOf(used), rs);
    UsableAndEnds(c);
    KeysSize(UsableLo(c), UsableHi(c));
    InBlock(c, used);
    ReservedInBlock(c, rs);
    Balance(keys, reserved, Keys(UsableLo(c), UsableHi(c)), Ends(c), cap);
  }

  /** The numbers of an entry account for its used and all its reserved addresses. */
  ghost predicate AccountsFor(n: Network, used: seq<Allocation>, rs: seq<Reservation>, u: NetworkUsage)
    requires n.cidr.Some?
  {
    CapacityMeans(n.cidr.value, KeysOf(used) + AllReserved(n.cidr.value, rs), u)
  }

  /** A block too large to enumerate, with a reserved address that no host uses. */
  ghost predicate ReservedUnseen(c: CIDR, used: seq<Allocation>, rs: seq<Reservation>) {
    c.HostBits() > MAX_ENUMERABLE_HOST_BITS && !(AllReserved(c, rs) <= KeysOf(used))
  }

  /**
    The accounting of a bounded network, over all its reserved addresses, holds
    exactly when the block is small enough to enumerate or hosts use every reserved
    address: reservations of larger blocks are not counted.
   */
  lemma {:induction false} AccountingExactly(n: Network, used: seq<Allocation>, rs: seq<Reservation>)
    requires n.cidr.Some? && n.cidr.value.HostBits() < 31
    requires forall a :: a in used ==> n.cidr.value.Has(a.ip)
    ensures AccountsFor(n, used, rs, UsageOf(n, used, rs)) <==> !ReservedUnseen(n.cidr.value, used, rs)
  {
    var c, keys, all := n.cidr.value, KeysOf(used), AllReserved(n.cidr.value, rs);
    CollectedBalance(n, used, rs);
    if c.HostBits() > MAX_ENUMERABLE_HOST_BITS {
      assert keys + ReservedSet(c, rs) == keys;
      if all <= keys {
        assert keys + all == keys;
      } else {
        BiggerUnion(keys, all);
      }
    }
  }

  lemma {:induction false} BiggerUnion(a: set<nat>, b: set<nat>)
    requires !(b <= a)
    ensures |a + b| > |a|
  {
    assert a + b == a + (b - a);
    assert b - a != {};
  }

  /** A whole /8 reserved, no host in it: nothing is counted as reserved and everything as free. */
  lemma {:induction false} LargeBlockUnseen() returns (n: Network, rs: seq<Reservation>)
    ensures n.cidr.Some? && n.cidr.value.HostBits() == 24 && AllReserved(n.cidr.value, rs) == Block(n.cidr.value)
    ensures var u := UsageOf(n, [], rs);
      u.capacity.reservedCount == 0 && u.capacity.freeCount == u.capacity.totalUsable && !AccountsFor(n, [], rs, u)
  {
    var c := ZeroBlock(8);
    n := Network(1, "", Some(c), None);
    var last: IP := [255, 255, 255, 255];
    rs := [Reservation(1, Some(c.ip), Some(last))];
    LastV4(last);
    WholeReserved(c, rs);
    UnseenWhenWhole(n, rs);
  }

  lemma {:induction false} UnseenWhenWhole(n: Network, rs: seq<Reservation>)
    requires n.cidr.Some? && MAX_ENUMERABLE_HOST_BITS < n.cidr.value.HostBits() < 31
    requires AllReserved(n.cidr.value, rs) == Block(n.cidr.value)
    ensures var u := UsageOf(n, [], rs);
      u.capacity.reservedCount == 0 && u.capacity.freeCount == u.capacity.totalUsable && !AccountsFor(n, [], rs, u)
  {
    NotEmpty(n.cidr.value);
    NothingCounted(n, rs);
    AccountingExactly(n, [], rs);
  }

  lemma {:induction false} LastV4(ip: IP)
    requires ip == [255, 255, 255, 255]
    ensures Key(ip) == V4_BASE + V4_SIZE - 1
  {
    KeyOfV4(ip);
    ValueOf4(ip);
  }

  lemma {:induction false} NotEmpty(c: CIDR)
    ensures c.Lo() in Block(c)
  {
    assert Between(c.Lo(), c.Lo(), c.Lo() + c.Size());
  }

  /** A reservation from the base to the end of the block or beyond reserves all of it. */
  lemma {:induction false} WholeReserved(c: CIDR, rs: seq<Reservation>)
    requires c.HostBits() <= 32 && |rs| == 1 && rs[0].start == Some(c.ip)
    requires rs[0].end.Some? && Key(rs[0].end.value) >= c.Lo() + c.Size() - 1
    ensures AllReserved(c, rs) == Block(c)
  {
    forall k | k in Block(c) ensures c.Has(k) && Reserved(rs, k) {
      SmallBlockOneFamily(c, k);
      assert Covers(rs[0], k) && rs[0] in rs;
    }
  }

  lemma {:induction false} NothingCounted(n: Network, rs: seq<Reservation>)
    requires n.cidr.Some? && MAX_ENUMERABLE_HOST_BITS < n.cidr.value.HostBits() < 31
    ensures var u := UsageOf(n, [], rs); u.capacity.reservedCount == 0 && u.capacity.freeCount == u.capacity.totalUsable
  {
    UsableAndEnds(n.cidr.value);
    assert KeysOf([]) == {};
  }

  /** A host may take the address: in the block, and not the first or last of an IPv4 block above a /31. */
  predicate HostAddress(c: CIDR, k: nat) {
    c.Has(k) && (|c.ip| == 4 && c.HostBits() >= 2 ==> k != c.Lo() && k != c.Lo() + c.Size() - 1)
  }

  /** Some reservation has the address in its range. */
  predicate SetAside(rs: seq<Reservation>, k: nat) {
    exists r :: r in rs && r.start.Some? && r.end.Some? && Key(r.start.value) <= k <= Key(r.end.value)
  }

  /** Some host has the address. */
  predicate InUse(used: seq<Allocation>, k: nat) {
    exists a :: a in used && a.ip == k
  }

  /** An address that may be suggested: for hosts, and not in use, not the gateway and not set aside. */
  predicate Open(n: Network, used: seq<Allocation>, rs: seq<Reservation>, k: nat)
    requires n.cidr.Some?
  {
    && HostAddress(n.cidr.value, k)
    && !InUse(used, k) && !SetAside(rs, k)
    && (n.gateway.Some? ==> k != Key(n.gateway.value))
  }

  lemma {:induction false} HostAddressesUsable(c: CIDR, k: nat)
    requires c.HostBits() <= 32
    ensures HostAddress(c, k) <==> Usable(c, k)
  {
    if ExcludesEnds(c) {
      EndsApart(c);
    }
    if Usable(c, k) {
      SmallBlockOneFamily(c, k);
    }
  }

  lemma {:induction false} SetAsideReserved(c: CIDR, rs: seq<Reservation>, k: nat)
    ensures k in AllReserved(c, rs) <==> c.Has(k) && SetAside(rs, k)
  {
    if SetAside(rs, k) {
      var r :| r in rs && r.start.Some? && r.end.Some? && Key(r.start.value) <= k <= Key(r.end.value);
      assert Covers(r, k);
    }
    if Reserved(rs, k) {
      var r :| r in rs && Covers(r, k);
      assert Key(r.start.value) <= k <= Key(r.end.value);
    }
    assert c.Has(k) ==> Between(c.Lo(), k, c.Lo() + c.Size());
  }

  /** What may be suggested is what is left of the usable addresses. */
  lemma {:induction false} OpenExactly(n: Network, used: seq<Allocation>, rs: seq<Reservation>, k: nat)
    requires n.cidr.Some? && n.cidr.value.HostBits() <= 16
    ensures Open(n, used, rs, k) <==>
      Usable(n.cidr.value, k) && k !in KeysOf(used) + GatewayKeys(n) + ReservedSet(n.cidr.value, rs)
  {
    HostAddressesUsable(n.cidr.value, k);
    SetAsideReserved(n.cidr.value, rs, k);
  }

  /**
    In a block of at most 16 host bits, nothing is suggested exactly when no address
    is open, and a suggestion is the least open address; in a larger block nothing is
    suggested.  An open address is one for hosts that no host has, that no
    reservation sets aside and that is not the gateway's.
   */
  lemma {:induction false} NextFreeMeaning(n: Network, used: seq<Allocation>, rs: seq<Reservation>)
    requires n.cidr.Some?
    ensures var next := UsageOf(n, used, rs).capacity.nextFree;
      if n.cidr.value.HostBits() > 16 then next.None?
      else match next
        case None => forall k :: !Open(n, used, rs, k)
        case Some(k) => Open(n, used, rs, k) && forall j :: Open(n, used, rs, j) ==> k <= j
  {
    var c := n.cidr.value;
    if c.HostBits() <= 16 {
      LowestFreeMeaning(c, KeysOf(used) + GatewayKeys(n) + ReservedSet(c, rs));
      forall k ensures Open(n, used, rs, k) <==>
          Usable(c, k) && k !in KeysOf(used) + GatewayKeys(n) + ReservedSet(c, rs) {
        OpenExactly(n, used, rs, k);
      }
    }
  }

  /** Neither the gateway nor an address that is in use or set aside is ever suggested. */
  lemma {:induction false} NeverSuggested(n: Network, used: seq<Allocation>, rs: seq<Reservation>, k: nat)
    requires n.cidr.Some?
    requires (n.gateway.Some? && k == Key(n.gateway.value)) || InUse(used, k) || SetAside(rs, k)
    ensures UsageOf(n, used, rs).capacity.nextFree != Some(k)
  {
    NextFreeMeaning(n, used, rs);
  }

  /** The addresses of the block that hosts have. */
  function UsedIn(c: CIDR, used: seq<Allocation>): set<nat> {
    set k: nat | c.Lo() <= k < c.Lo() + c.Size() && InUse(used, k)
  }

  /** The addresses of the block that are set aside and that no host has. */
  function SetAsideIn(c: CIDR, used: seq<Allocation>, rs: seq<Reservation>): set<nat> {
    set k: nat | c.Lo() <= k < c.Lo() + c.Size() && SetAside(rs, k) && !InUse(used, k)
  }

  /** The addresses of the block for hosts. */
  function HostAddresses(c: CIDR): set<nat> {
    set k: nat | c.Lo() <= k < c.Lo() + c.Size() && HostAddress(c, k)
  }

  lemma {:induction false} UsedInExactly(c: CIDR, used: seq<Allocation>)
    requires forall a :: a in used ==> c.Has(a.ip)
    ensures KeysOf(used) == UsedIn(c, used)
  {
    forall k: nat ensures k in KeysOf(used) <==> k in UsedIn(c, used) {
      assert k in KeysOf(used) <==> InUse(used, k);
    }
  }

  lemma {:induction false} SetAsideInExactly(c: CIDR, used: seq<Allocation>, rs: seq<Reservation>)
    requires c.HostBits() <= 16
    ensures ReservedSet(c, rs) - KeysOf(used) == SetAsideIn(c, used, rs)
  {
    forall k: nat ensures k in ReservedSet(c, rs) - KeysOf(used) <==> k in SetAsideIn(c, used, rs) {
      SetAsideReserved(c, rs, k);
      assert k in KeysOf(used) <==> InUse(used, k);
      if c.Lo() <= k < c.Lo() + c.Size() {
        SmallBlockOneFamily(c, k);
      }
    }
  }

  lemma {:induction false} HostAddressesSize(c: CIDR)
    requires c.HostBits() < 31
    ensures TotalUsable(c) == |HostAddresses(c)|
  {
    UsableAndEnds(c);
    KeysSize(UsableLo(c), UsableHi(c));
    forall k: nat ensures k in Keys(UsableLo(c), UsableHi(c)) <==> k in HostAddresses(c) {
      HostAddressesUsable(c, k);
      assert k in Keys(UsableLo(c), UsableHi(c)) <==> Usable(c, k);
    }
    assert Keys(UsableLo(c), UsableHi(c)) == HostAddresses(c);
  }

  /**
    The numbers, each counted over the addresses of the block: the used, the usable,
    and in a block of at most 16 host bits the set aside that no host uses; the free
    are what remains of the usable, at least 0.
   */
  lemma {:induction false} NumbersMeaning(n: Network, used: seq<Allocation>, rs: seq<Reservation>)
    requires n.cidr.Some? && n.cidr.value.HostBits() < 31
    requires forall a :: a in used ==> n.cidr.value.Has(a.ip)
    ensures var (c, u) := (n.cidr.value, UsageOf(n, used, rs));
      var rest := u.capacity.totalUsable - u.usedCount - u.capacity.reservedCount;
      && u.usedCount == |UsedIn(c, used)| && u.capacity.totalUsable == |HostAddresses(c)|
      && u.capacity.reservedCount == (if c.HostBits() <= 16 then |SetAsideIn(c, used, rs)| else 0)
      && u.capacity.freeCount == if rest < 0 then 0 else rest
  {
    var c := n.cidr.value;
    UsedInExactly(c, used);
    HostAddressesSize(c);
    if c.HostBits() <= 16 {
      SetAsideInExactly(c, used, rs);
    } else {
      assert ReservedSet(c, rs) - KeysOf(used) == {};
    }
  }

  /** A network is unbounded exactly from 31 host bits on, and then, as without a CIDR, nothing is counted. */
  lemma {:induction false} UnboundedExactly(n: Network, used: seq<Allocation>, rs: seq<Reservation>)
    ensures var c := UsageOf(n, used, rs).capacity;
      && (c.unbounded <==> n.cidr.Some? && n.cidr.value.ones + 31 <= 8 * |n.cidr.value.ip|)
      && (c.unbounded || n.cidr.None? ==>
            c.totalUsable == 0 && c.freeCount == 0 && c.reservedCount == 0 && c.nextFree.None?)
  {
    if n.cidr.Some? && !UsageOf(n, used, rs).capacity.unbounded {
      assert n.cidr.value.HostBits() < 31;
    }
  }

  // ---- BuildIPAM and BuildNetworkUsage ----

  function ReservationsFor(id: int, rs: seq<Reservation>): seq<Reservation> {
    if rs == [] then []
    else
      var n := |rs| - 1;
      ReservationsFor(id, rs[..n]) + (if rs[n].networkID == id then [rs[n]] else [])
  }

  method FilterReservations(id: int, rs: seq<Reservation>) returns (out: seq<Reservation>)
    ensures out == ReservationsFor(id, rs)
  {
    out := [];
    for i := 0 to |rs|
      invariant out == ReservationsFor(id, rs[..i])
    {
      assert rs[..i + 1][..i] == rs[..i];
      if rs[i].networkID == id {
        out := out + [rs[i]];
      }
    }
    assert rs[..|rs|] == rs;
  }

  /** The positions of a network's own reservations. */
  function OwnOf(id: int, rs: seq<Reservation>): set<nat> {
    set i | 0 <= i < |rs| && rs[i].networkID == id
  }

  function ByNetwork(): Reservation -> int {
    (r: Reservation) => r.networkID
  }

  lemma {:induction false} ReservationsSelected(id: int, rs: seq<Reservation>)
    ensures ReservationsFor(id, rs) == Select(ByNetwork(), rs, id)
  {
    if rs != [] {
      ReservationsSelected(id, rs[..|rs| - 1]);
    }
  }

  /** Exactly the network's own reservations, in order. */
  lemma {:induction false} ReservationsMeaning(id: int, rs: seq<Reservation>) returns (src: seq<nat>)
    ensures Lists(src, OwnOf(id, rs)) && |src| == |ReservationsFor(id, rs)|
    ensures forall p :: 0 <= p < |src| ==> src[p] < |rs| && ReservationsFor(id, rs)[p] == rs[src[p]]
  {
    src := SelectMeaning(ByNetwork(), rs, id);
    ReservationsSelected(id, rs);
    assert AssignedTo(ByNetwork(), rs, id) == OwnOf(id, rs);
  }

  /** The entry of network i in the full report. */
  ghost function EntryOf(networks: seq<Network>, hosts: seq<Host>, rs: seq<Reservation>, i: nat): NetworkUsage
    requires i < |networks|
  {
    UsageOf(networks[i], SortAllocs(Attributed(networks, Claims(hosts), i)), ReservationsFor(networks[i].id, rs))
  }

  method BuildEntry(networks: seq<Network>, hosts: seq<Host>, reservations: seq<Reservation>, i: nat,
                    allocs: seq<Allocation>) returns (u: NetworkUsage)
    requires i < |networks| && allocs == Attributed(networks, Claims(hosts), i)
    ensures u == EntryOf(networks, hosts, reservations, i)
  {
    var rs := FilterReservations(networks[i].id, reservations);
    u := BuildUsage(networks[i], SortAllocs(allocs), rs);
  }

  /** The first k entries of the full report. */
  ghost function Entries(networks: seq<Network>, hosts: seq<Host>, rs: seq<Reservation>, k: nat): seq<NetworkUsage>
    requires k <= |networks|
  {
    if k == 0 then [] else Entries(networks, hosts, rs, k - 1) + [EntryOf(networks, hosts, rs, k - 1)]
  }

  /** Each network has its own entry, in order. */
  lemma {:induction false} EntriesInOrder(networks: seq<Network>, hosts: seq<Host>, rs: seq<Reservation>, k: nat,
                                          i: nat)
    requires i < k <= |networks|
    ensures |Entries(networks, hosts, rs, k)| == k
    ensures Entries(networks, hosts, rs, k)[i] == EntryOf(networks, hosts, rs, i)
  {
    var e := EntryOf(networks, hosts, rs, k - 1);
    var front := Entries(networks, hosts, rs, k - 1);
    assert Entries(networks, hosts, rs, k) == front + [e];
    if k > 1 {
      EntriesInOrder(networks, hosts, rs, k - 1, if i < k - 1 then i else 0);
    }
  }

  /** The loop of `BuildIPAM`. */
  method BuildEntries(networks: seq<Network>, hosts: seq<Host>, reservations: seq<Reservation>,
                      used: map<int, seq<Allocation>>, ghost unassigned: seq<Allocation>)
    returns (entries: seq<NetworkUsage>)
    requires Tables(networks, Claims(hosts), -1, used, unassigned)
    ensures entries == Entries(networks, hosts, reservations, |networks|)
  {
    entries := [];
    for i := 0 to |networks|
      invariant entries == Entries(networks, hosts, reservations, i)
    {
      TablesLookup(networks, Claims(hosts), -1, used, unassigned, i);
      var u := BuildEntry(networks, hosts, reservations, i, Lookup(used, i));
      entries := entries + [u];
    }
  }

  /** `BuildIPAM`. */
  method BuildIPAM(networks: seq<Network>, hosts: seq<Host>, reservations: seq<Reservation>)
    returns (report: IPAMReport)
    ensures report.networks == Entries(networks, hosts, reservations, |networks|)
    ensures report.unassigned == SortAllocs(Attributed(networks, Claims(hosts), -1))
  {
    var used, unassigned := Attribute(networks, hosts, -1);
    var entries := BuildEntries(networks, hosts, reservations, used, unassigned);
    report := IPAMReport(entries, SortAllocs(unassigned));
  }

  /** Index i is the first network with an id. */
  predicate FirstWith(networks: seq<Network>, id: int, i: int) {
    0 <= i < |networks| && networks[i].id == id && forall j :: 0 <= j < i ==> networks[j].id != id
  }

  /** `BuildNetworkUsage`: the first network with the id, and exactly its entry in the full report. */
  method BuildNetworkUsage(targetID: int, networks: seq<Network>, hosts: seq<Host>, reservations: seq<Reservation>)
    returns (r: Option<NetworkUsage>)
    ensures r.None? <==> forall j :: 0 <= j < |networks| ==> networks[j].id != targetID
    ensures forall i :: FirstWith(networks, targetID, i) ==> r == Some(EntryOf(networks, hosts, reservations, i))
  {
    var targetIdx := -1;
    for i := 0 to |networks|
      invariant targetIdx == -1
      invariant forall j :: 0 <= j < i ==> networks[j].id != targetID
    {
      if networks[i].id == targetID {
        targetIdx := i;
        break;
      }
    }
    if targetIdx < 0 {
      return None;
    }
    var used, _ := Attribute(networks, hosts, targetIdx);
    var u := BuildEntry(networks, hosts, reservations, targetIdx, Lookup(used, targetIdx));
    r := Some(u);
  }

  /** In every report, a bounded network's numbers account for its own used and reserved addresses exactly then. */
  lemma {:induction false} ReportAccountingExactly(networks: seq<Network>, hosts: seq<Host>, rs: seq<Reservation>,
                                                   i: nat)
    requires i < |networks| && networks[i].cidr.Some? && networks[i].cidr.value.HostBits() < 31
    ensures var n, mine := networks[i], Attributed(networks, Claims(hosts), i);
      var own := ReservationsFor(n.id, rs);
      AccountsFor(n, mine, own, EntryOf(networks, hosts, rs, i)) <==> !ReservedUnseen(n.cidr.value, mine, own)
  {
    var mine := Attributed(networks, Claims(hosts), i);
    AttributedInBlock(networks, Claims(hosts), i);
    SortAllocsCorrect(mine);
    assert KeysOf(SortAllocs(mine)) == KeysOf(mine);
    AccountingExactly(networks[i], SortAllocs(mine), ReservationsFor(networks[i].id, rs));
  }

  /**
    A network's entry is its usage by what the hosts make of the addresses it wins, as
    often as they make it and nothing else, ordered by address and host name, and by
    its own reservations.
   */
  lemma {:induction false} EntryMeaning(networks: seq<Network>, hosts: seq<Host>, rs: seq<Reservation>, i: nat)
    requires i < |networks|
    ensures var e := EntryOf(networks, hosts, rs, i);
      && e.network == networks[i] && e.reservations == ReservationsFor(networks[i].id, rs)
      && e == UsageOf(networks[i], e.used, e.reservations)
      && (forall x :: Count(e.used, x) == if Winner(networks, x.ip) == i then |Makers(hosts, x)| else 0)
      && (forall p, q :: 0 <= p < q < |e.used| ==> InReportOrder(e.used[p], e.used[q]))
  {
    var mine := Attributed(networks, Claims(hosts), i);
    SortAllocsCorrect(mine);
    forall x ensures Count(SortAllocs(mine), x) == if Winner(networks, x.ip) == i then |Makers(hosts, x)| else 0 {
      EveryHostIPOnce(networks, hosts, x, i);
    }
  }

  /** The unassigned list: what hosts make of addresses in no network, as often as they make it, in the same order. */
  lemma {:induction false} UnassignedMeaning(networks: seq<Network>, hosts: seq<Host>)
    ensures var r := SortAllocs(Attributed(networks, Claims(hosts), -1));
      && (forall x :: Count(r, x) == if Winner(networks, x.ip) == -1 then |Makers(hosts, x)| else 0)
      && (forall p, q :: 0 <= p < q < |r| ==> InReportOrder(r[p], r[q]))
  {
    var none := Attributed(networks, Claims(hosts), -1);
    SortAllocsCorrect(none);
    forall x ensures Count(SortAllocs(none), x) == if Winner(networks, x.ip) == -1 then |Makers(hosts, x)| else 0 {
      EveryHostIPOnce(networks, hosts, x, -1);
    }
  }
}
