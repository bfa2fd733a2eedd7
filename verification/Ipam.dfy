/**
  IP occupancy of networks (`internal/domain/ipam.go`): attribution of host IPs by
  longest prefix, the next free address, the reserved set and the capacity counts.
  Parsed addresses and CIDR blocks are inputs; a map key `ip.String()` is the
  address's 128-bit key.
 */
module Ipam {
  import opened Wrappers
  import opened Bytes
  import opened Masks
  import opened Address

  /** `maxEnumerableHostBits`. */
  const MAX_ENUMERABLE_HOST_BITS := 16

  datatype Network = Network(id: int, name: string, cidr: Option<CIDR>, gateway: Option<IP>)

  datatype Host = Host(id: int, name: string, ips: seq<Option<IP>>)

  datatype Reservation = Reservation(networkID: int, start: Option<IP>, end: Option<IP>)

  datatype Allocation = Allocation(ip: nat, hostID: int, hostName: string)

  /** The capacity fields of `NetworkUsage`. */
  datatype Capacity = Capacity(totalUsable: nat, freeCount: nat, unbounded: bool, nextFree: Option<nat>,
                               reservedCount: nat)

  datatype NetworkUsage = NetworkUsage(
    network: Network, used: seq<Allocation>, conflicts: seq<seq<Allocation>>, usedCount: nat,
    reservations: seq<Reservation>, capacity: Capacity)

  datatype IPAMReport = IPAMReport(networks: seq<NetworkUsage>, unassigned: seq<Allocation>)

  // ---- Usable addresses ----

  /** IPv4 blocks larger than a /31 keep their first and last address (section 2.1 of RFC 3021). */
  predicate ReservesEnds(ones: nat, bits: nat) {
    bits == 32 && bits - ones >= 2
  }

  predicate ExcludesEnds(n: CIDR) {
    ReservesEnds(n.ones, n.Bits())
  }

  function UsableLo(n: CIDR): nat {
    if ExcludesEnds(n) then n.Lo() + 1 else n.Lo()
  }

  function UsableHi(n: CIDR): nat {
    if ExcludesEnds(n) then n.Lo() + n.Size() - 1 else n.Lo() + n.Size()
  }

  /** The addresses a host can have in a block of at most 32 host bits. */
  predicate Usable(n: CIDR, k: nat) {
    UsableLo(n) <= k < UsableHi(n)
  }

  lemma {:induction false} EndsApart(n: CIDR)
    requires ExcludesEnds(n)
    ensures n.Size() >= 4 && UsableLo(n) < UsableHi(n)
  {
    Pow2Monotone(2, n.HostBits());
    Pow2Small();
  }

  // ---- nextFree ----

  /** The least number of lo..hi-1 not in `taken`. */
  ghost function FirstFree(lo: nat, hi: nat, taken: set<nat>): Option<nat>
    decreases hi - lo
  {
    if lo >= hi then None
    else if lo !in taken then Some(lo)
    else FirstFree(lo + 1, hi, taken)
  }

  ghost function LowestFree(n: CIDR, taken: set<nat>): Option<nat> {
    if n.HostBits() > MAX_ENUMERABLE_HOST_BITS then None
    else FirstFree(UsableLo(n), UsableHi(n), taken)
  }

  lemma {:induction false} FirstFreeMeaning(lo: nat, hi: nat, taken: set<nat>)
    ensures match FirstFree(lo, hi, taken)
      case Some(k) => lo <= k < hi && k !in taken && forall j :: lo <= j < k ==> j in taken
      case None => forall j :: lo <= j < hi ==> j in taken
    decreases hi - lo
  {
    if lo < hi && lo in taken {
      FirstFreeMeaning(lo + 1, hi, taken);
    }
  }

  /** The suggestion is the numerically least usable address not taken; none exactly when all are. */
  lemma {:induction false} LowestFreeMeaning(n: CIDR, taken: set<nat>)
    requires n.HostBits() <= MAX_ENUMERABLE_HOST_BITS
    ensures LowestFree(n, taken).None? <==> forall k :: Usable(n, k) ==> k in taken
    ensures LowestFree(n, taken).Some? ==>
      var k := LowestFree(n, taken).value;
      Usable(n, k) && k !in taken && n.Has(k) && forall j :: Usable(n, j) && j !in taken ==> k <= j
  {
    FirstFreeMeaning(UsableLo(n), UsableHi(n), taken);
    if LowestFree(n, taken).Some? {
      var k := LowestFree(n, taken).value;
      if ExcludesEnds(n) { EndsApart(n); }
      SmallBlockOneFamily(n, k);
      assert Usable(n, k);
    }
  }

  // ---- Walking a block in place ----

  /** The address s is the k-th key of the walk over the block, or has just left it. */
  ghost predicate At(n: CIDR, s: seq<Byte>, k: nat) {
    && |s| == |n.ip| && n.Lo() <= k <= n.Lo() + n.Size()
    && (k < n.Lo() + n.Size() ==> Key(s) == k)
    && (k == n.Lo() + n.Size() ==> !n.Has(Key(s)))
  }

  lemma {:induction false} WalkStep(n: CIDR, s: IP, k: nat)
    requires n.HostBits() < 32 && At(n, s, k) && k < n.Lo() + n.Size()
    ensures At(n, Incremented(s), k + 1)
  {
    SmallBlockOneFamily(n, k);
    StepInBlock(n, s);
  }

  /** The loop condition of every walk: still inside the block. */
  lemma {:induction false} WalkGuard(n: CIDR, s: IP, k: nat)
    requires n.HostBits() < 32 && At(n, s, k)
    ensures n.Has(Key(s)) <==> k < n.Lo() + n.Size()
  {
    if k < n.Lo() + n.Size() {
      SmallBlockOneFamily(n, k);
    }
  }

  /** Comparing with `base | ^mask` finds the last key of the block. */
  lemma {:induction false} WalkLast(n: CIDR, s: IP, k: nat)
    requires At(n, s, k) && k < n.Lo() + n.Size()
    ensures To16(s) == To16(OrNot(n.ip, Mask(n.ones, |n.ip|))) <==> k == n.Lo() + n.Size() - 1
  {
    var last: IP := OrNot(n.ip, Mask(n.ones, |n.ip|));
    LastValue(n.ip, n.ones, n.HostBits());
    KeyOffset(last, n.ip);
    if Key(s) == Key(last) {
      KeyInjective(s, last);
    }
  }

  /** `make(net.IP, len(base)); copy(cur, base)`. */
  method Copy(base: IP) returns (cur: array<Byte>)
    ensures fresh(cur) && cur.Length == |base| && cur[..] == base
  {
    cur := new Byte[|base|](i requires 0 <= i < |base| => base[i]);
  }

  /** `incIP(cur)` inside a walk: one key further, or out of the block. */
  method Advance(n: CIDR, cur: array<Byte>, ghost k: nat)
    requires n.HostBits() < 32 && At(n, cur[..], k) && k < n.Lo() + n.Size()
    modifies cur
    ensures At(n, cur[..], k + 1)
    ensures n.Has(Key(cur[..])) <==> k + 1 < n.Lo() + n.Size()
  {
    WalkStep(n, cur[..], k);
    IncIP(cur);
    WalkGuard(n, cur[..], k + 1);
  }

  /** `nextFree`: walks the block in place and stops at the first hole. */
  method NextFree(ipn: CIDR, taken: set<nat>) returns (r: Option<nat>)
    ensures r == LowestFree(ipn, taken)
  {
    var ones, bits := ipn.ones, ipn.Bits();
    if bits - ones > MAX_ENUMERABLE_HOST_BITS {
      return None;
    }
    var base := MaskedBase(ipn);
    var cur := Copy(base);
    var excludeEnds := ReservesEnds(ones, bits);
    var broadcast: IP := OrNot(base, Mask(ones, |base|));
    ghost var k := ipn.Lo();
    if excludeEnds {
      EndsApart(ipn);
      Advance(ipn, cur, k);
      k := k + 1;
    }
    r := ScanFree(ipn, cur, excludeEnds, broadcast, taken, k);
  }

  /** `ipn.IP.Mask(ipn.Mask)`: a parsed base is already masked. */
  function MaskedBase(n: CIDR): (base: IP)
    ensures base == n.ip
  {
    And(n.ip, Mask(n.ones, |n.ip|))
  }

  /** The scan loop of `nextFree`. */
  method ScanFree(ipn: CIDR, cur: array<Byte>, excludeEnds: bool, broadcast: IP, taken: set<nat>, ghost k0: nat)
    returns (r: Option<nat>)
    requires ipn.HostBits() <= MAX_ENUMERABLE_HOST_BITS
    requires excludeEnds == ExcludesEnds(ipn) && broadcast == OrNot(ipn.ip, Mask(ipn.ones, |ipn.ip|))
    requires k0 == UsableLo(ipn) <= UsableHi(ipn) && At(ipn, cur[..], k0)
    modifies cur
    ensures r == FirstFree(k0, UsableHi(ipn), taken)
  {
    ghost var k, hi := k0, ipn.Lo() + ipn.Size();
    WalkGuard(ipn, cur[..], k);
    var inside := InNet(ipn, cur[..]);
    while inside
      invariant At(ipn, cur[..], k) && k <= UsableHi(ipn)
      invariant inside <==> k < hi
      invariant FirstFree(k0, UsableHi(ipn), taken) == FirstFree(k, UsableHi(ipn), taken)
      decreases hi - k
    {
      var s: IP := cur[..];
      WalkLast(ipn, s, k);
      if excludeEnds && To16(s) == To16(broadcast) {
        return None;
      }
      if Key(s) !in taken {
        return Some(Key(s));
      }
      Advance(ipn, cur, k);
      k := k + 1;
      inside := InNet(ipn, cur[..]);
    }
    r := None;
  }

  // ---- reservedAddrs ----

  /** An address lies in a reservation's inclusive range, in 128-bit order. */
  predicate Covers(r: Reservation, k: nat) {
    r.start.Some? && r.end.Some? && Key(r.start.value) <= k <= Key(r.end.value)
  }

  predicate Reserved(rs: seq<Reservation>, k: nat) {
    exists r :: r in rs && Covers(r, k)
  }

  predicate Between(lo: nat, k: nat, hi: nat) {
    lo <= k < hi
  }

  function Keys(lo: nat, hi: nat): set<nat> {
    set k: nat | lo <= k < hi && Between(lo, k, hi)
  }

  lemma {:induction false} KeysSize(lo: nat, hi: nat)
    requires lo <= hi
    ensures |Keys(lo, hi)| == hi - lo
    decreases hi
  {
    if lo < hi {
      KeysSize(lo, hi - 1);
      assert Keys(lo, hi) == Keys(lo, hi - 1) + {hi - 1};
    } else {
      assert Keys(lo, hi) == {};
    }
  }

  function Block(n: CIDR): set<nat> {
    Keys(n.Lo(), n.Lo() + n.Size())
  }

  /** Exactly the addresses of the block that lie in some reservation. */
  ghost function AllReserved(n: CIDR, rs: seq<Reservation>): set<nat> {
    set k | k in Block(n) && n.Has(k) && Reserved(rs, k)
  }

  /** The addresses `reservedAddrs` collects: nothing in a block too large to enumerate. */
  ghost function ReservedSet(n: CIDR, rs: seq<Reservation>): set<nat> {
    if n.HostBits() > MAX_ENUMERABLE_HOST_BITS then {} else AllReserved(n, rs)
  }

  /** `incIP(cur)` below some other 16-byte address: no wrap. */
  method BumpBelow(cur: array<Byte>, e: IP, ghost v: nat)
    requires cur.Length == |e| == 16 && Value(cur[..]) == v < Value(e)
    modifies cur
    ensures Value(cur[..]) == v + 1
  {
    IncrementedValue(cur[..]);
    ValueBound(e);
    IncIP(cur);
  }

  /** `if ipn.Contains(cur) { set[cur.String()] = true }`. */
  method Collect(ipn: CIDR, s: IP, res0: set<nat>, ghost v: nat) returns (res: set<nat>)
    requires |s| == 16 && Value(s) == v
    ensures res == res0 + if ipn.Has(v) then {v} else {}
  {
    res := res0;
    var inside := InNet(ipn, s);
    if inside {
      res := res + {Key(s)};
    }
  }

  /** A set together with the keys of the block from lo up to but not including hi. */
  ghost function Span(n: CIDR, acc: set<nat>, lo: nat, hi: nat): set<nat>
    decreases hi
  {
    if hi <= lo then acc
    else Span(n, acc, lo, hi - 1) + (if n.Has(hi - 1) then {hi - 1} else {})
  }

  lemma {:induction false} SpanMeaning(n: CIDR, acc: set<nat>, lo: nat, hi: nat)
    requires n.HostBits() <= 32
    ensures forall k :: k in Span(n, acc, lo, hi) <==> k in acc || (lo <= k < hi && n.Has(k))
    decreases hi
  {
    if lo < hi {
      SpanMeaning(n, acc, lo, hi - 1);
    }
  }

  /** Clamping the start to the base of the block loses nothing. */
  lemma {:induction false} SpanClamped(n: CIDR, acc: set<nat>, lo: nat, hi: nat)
    requires n.HostBits() <= 32
    ensures Span(n, acc, lo, hi) == Span(n, acc, if lo < n.Lo() then n.Lo() else lo, hi)
  {
    SpanMeaning(n, acc, lo, hi);
    SpanMeaning(n, acc, if lo < n.Lo() then n.Lo() else lo, hi);
  }

  /** Past the end of the block a walk adds nothing: the cap on its length is harmless. */
  lemma {:induction false} SpanFull(n: CIDR, acc: set<nat>, lo: nat, mid: nat, hi: nat)
    requires n.HostBits() <= 32
    requires n.Lo() <= lo && lo + n.Size() <= mid <= hi
    ensures Span(n, acc, lo, mid) == Span(n, acc, lo, hi)
  {
    SpanMeaning(n, acc, lo, mid);
    SpanMeaning(n, acc, lo, hi);
  }

  /** The start of one walk: max(start, base) as 16 bytes. */
  method ClampToBase(start: IP, base: IP) returns (cur: array<Byte>)
    requires |start| == |base| == 16
    ensures fresh(cur) && cur.Length == 16
    ensures Value(cur[..]) == if Value(start) < Value(base) then Value(base) else Value(start)
  {
    cur := Copy(start);
    var c := CompareBytes(cur[..], base);
    if c < 0 {
      forall i | 0 <= i < 16 { cur[i] := base[i]; }
      assert cur[..] == base;
    }
  }

  /** One reservation's walk: from max(start, base) up to its end, at most limit+1 addresses. */
  method ReserveOne(ipn: CIDR, start: IP, end: IP, set0: set<nat>) returns (res: set<nat>)
    requires ipn.HostBits() <= MAX_ENUMERABLE_HOST_BITS
    ensures res == Span(ipn, set0, Key(start), Key(end) + 1)
  {
    var limit := ipn.Size();
    var cur := ClampToBase(To16(start), To16(MaskedBase(ipn)));
    ghost var c0 := Value(cur[..]);
    SpanClamped(ipn, set0, Key(start), Key(end) + 1);
    var c := CompareBytes(cur[..], To16(end));
    if c > 0 {
      return set0;
    }
    ghost var k;
    res, k := ScanReserved(ipn, cur, To16(end), limit, set0, c0, Key(end));
    if k <= Key(end) {
      SpanFull(ipn, set0, c0, k, Key(end) + 1);
    }
  }

  /** The loop of `reservedAddrs` over one range, from key c0: it stops before key k, past the end e or at the cap. */
  method ScanReserved(ipn: CIDR, cur: array<Byte>, endB: IP, limit: nat, set0: set<nat>, ghost c0: nat, ghost e: nat)
    returns (res: set<nat>, ghost k: nat)
    requires ipn.HostBits() <= MAX_ENUMERABLE_HOST_BITS
    requires cur.Length == |endB| == 16 && c0 == Value(cur[..]) <= e == Value(endB)
    modifies cur
    ensures res == Span(ipn, set0, c0, k)
    ensures k == e + 1 || c0 + limit < k <= e
  {
    res, k := set0, c0;
    var i := 0;
    while i <= limit
      invariant 0 <= i <= limit + 1 && k == c0 + i
      invariant Value(cur[..]) == k <= e
      invariant res == Span(ipn, set0, c0, k)
    {
      var done;
      res, done := ScanOne(ipn, cur, endB, res, k, e);
      k := k + 1;
      if done {
        return;
      }
      i := i + 1;
    }
  }

  /** One turn of that loop, at key k: collect it, and step on unless it is the last. */
  method ScanOne(ipn: CIDR, cur: array<Byte>, endB: IP, res0: set<nat>, ghost k: nat, ghost e: nat)
    returns (res: set<nat>, done: bool)
    requires ipn.HostBits() <= MAX_ENUMERABLE_HOST_BITS
    requires cur.Length == |endB| == 16 && Value(cur[..]) == k <= e == Value(endB)
    modifies cur
    ensures res == res0 + (if ipn.Has(k) then {k} else {})
    ensures done <==> k == e
    ensures !done ==> Value(cur[..]) == k + 1
  {
    res := Collect(ipn, cur[..], res0, k);
    var c := CompareBytes(cur[..], endB);
    done := c >= 0;
    if !done {
      BumpBelow(cur, endB, k);
    }
  }

  lemma {:induction false} ReservedStep(n: CIDR, rs: seq<Reservation>, r: Reservation)
    requires n.HostBits() <= MAX_ENUMERABLE_HOST_BITS
    ensures ReservedSet(n, rs + [r]) ==
      if r.start.Some? && r.end.Some?
      then Span(n, ReservedSet(n, rs), Key(r.start.value), Key(r.end.value) + 1)
      else ReservedSet(n, rs)
  {
    if r.start.Some? && r.end.Some? {
      SpanMeaning(n, ReservedSet(n, rs), Key(r.start.value), Key(r.end.value) + 1);
    }
    forall k ensures Reserved(rs + [r], k) <==> Reserved(rs, k) || Covers(r, k) {
      if Reserved(rs, k) {
        var q :| q in rs && Covers(q, k);
        assert q in rs + [r];
      }
      if Covers(r, k) {
        assert r in rs + [r];
      }
    }
  }

  /** `reservedAddrs`. */
  method ReservedAddrs(ipn: CIDR, reservations: seq<Reservation>) returns (res: set<nat>)
    ensures res == ReservedSet(ipn, reservations)
  {
    res := {};
    if ipn.HostBits() > MAX_ENUMERABLE_HOST_BITS {
      return;
    }
    for i := 0 to |reservations|
      invariant res == ReservedSet(ipn, reservations[..i])
    {
      var r := reservations[i];
      assert reservations[..i + 1] == reservations[..i] + [r];
      if r.start.Some? && r.end.Some? {
        res := ReserveOne(ipn, r.start.value, r.end.value, res);
      }
      ReservedStep(ipn, reservations[..i], r);
    }
    assert reservations[..|reservations|] == reservations;
  }
}
