/**
  IP addresses as Go's `net` package holds them: byte slices of length 4 or 16,
  with `net.IPNet` a masked base plus a prefix length.  Masked membership and the
  steps of a walk are related here, once, to ranges of 128-bit keys; every other
  IPAM module reasons about keys.
 */
module Address {
  import opened Wrappers
  import opened Bytes
  import opened Masks

  // ---- IP addresses ----

  /** `net.IP`: 4 bytes, or 16 bytes. */
  type IP = s: seq<Byte> | |s| == 4 || |s| == 16 witness [0, 0, 0, 0]

  /** The IPv4-mapped prefix, section 2.5.5.2 of RFC 4291. */
  const V4_IN_V6: seq<Byte> := [0, 0, 0, 0, 0, 0, 0, 0, 0, 0, 0xff, 0xff]

  const V4_BASE: nat := 0xffff_0000_0000
  const V4_SIZE: nat := 0x1_0000_0000

  /** `IP.To4`: the 4-byte form of an IPv4 or IPv4-mapped address. */
  function To4(ip: IP): Option<IP> {
    if |ip| == 4 then Some(ip)
    else if ip[..12] == V4_IN_V6 then Some(ip[12..])
    else None
  }

  /** `IP.To16`. */
  function To16(ip: IP): (r: IP)
    ensures |r| == 16
  {
    if |ip| == 4 then V4_IN_V6 + ip else ip
  }

  /**
    The canonical form of an address.  `IP.String` prints a 4-byte address and its
    mapped form alike and distinct 16-byte forms differently, so this number
    stands for the string wherever the program uses it as a map key.
   */
  function Key(ip: IP): nat {
    Value(To16(ip))
  }

  predicate IsV4Key(k: nat) {
    V4_BASE <= k < V4_BASE + V4_SIZE
  }

  lemma {:induction false} MappedPrefixValue()
    ensures Value(V4_IN_V6) == 0xffff
  {
    var z: seq<Byte> := [0, 0, 0, 0, 0, 0, 0, 0];
    var t: seq<Byte> := [0, 0, 0xff, 0xff];
    ZeroValue(z);
    assert V4_IN_V6 == z + t;
    ValueAppend4(z, t);
    ValueOf4(t);
  }

  lemma {:induction false} KeyOfV4(ip: IP)
    requires |ip| == 4
    ensures Key(ip) == V4_BASE + Value(ip) && Value(ip) < V4_SIZE
  {
    ValueBound(ip);
    Pow2Large();
    MappedPrefixValue();
    ValueAppend4(V4_IN_V6, ip);
  }

  /** The key determines the address: distinct 16-byte forms have distinct keys. */
  lemma {:induction false} KeyInjective(a: IP, b: IP)
    requires Key(a) == Key(b)
    ensures To16(a) == To16(b)
  {
    ValueInjective(To16(a), To16(b));
  }

  /** An address has a 4-byte form exactly when its key lies in the mapped block. */
  lemma {:induction false} To4IsV4Key(ip: IP)
    ensures To4(ip).Some? <==> IsV4Key(Key(ip))
    ensures To4(ip).Some? ==> Key(ip) == V4_BASE + Value(To4(ip).value)
  {
    if |ip| == 4 {
      KeyOfV4(ip);
    } else {
      var p, t := ip[..12], ip[12..];
      assert ip == p + t;
      ValueAppend4(p, t);
      ValueBound(t);
      Pow2Large();
      MappedPrefixValue();
      if Value(p) == 0xffff {
        ValueInjective(p, V4_IN_V6);
      }
    }
  }

  /** Keys of same-length strings differ as their values do. */
  lemma {:induction false} KeyOffset(a: IP, b: IP)
    requires |a| == |b|
    ensures Key(a) - Key(b) == Value(a) - Value(b)
  {
    if |a| == 4 {
      KeyOfV4(a);
      KeyOfV4(b);
    }
  }

  // ---- CIDR blocks ----

  /** `net.IPNet` as `net.ParseCIDR` returns it: a masked base and a prefix length. */
  datatype IPNet = IPNet(ip: IP, ones: nat) {
    /** `Mask.Size()` returns (ones, Bits()). */
    function Bits(): nat { 8 * |ip| }

    /** What every parsed CIDR satisfies: a prefix in range, a base with no host bits. */
    predicate Valid() {
      ones <= Bits() && And(ip, Mask(ones, |ip|)) == ip
    }

    function HostBits(): nat
      requires ones <= Bits()
    {
      Bits() - ones
    }

    function Lo(): nat { Key(ip) }

    function Size(): nat
      requires ones <= Bits()
    {
      Pow2(HostBits())
    }

    /** The addresses of the block, as keys of one family. */
    predicate Has(k: nat)
      requires ones <= Bits()
    {
      Lo() <= k < Lo() + Size() && (IsV4Key(k) <==> IsV4Key(Lo()))
    }

    /** An IPv6 CIDR written inside the IPv4-mapped block. */
    predicate MappedV6() {
      |ip| == 16 && To4(ip).Some?
    }
  }

  lemma {:induction false} ZeroMasked(ones: int)
    ensures Masked([0, 0, 0, 0], ones)
  {
    AppendZeros([], ones, 4);
    assert [] + Zeros(4) == [0, 0, 0, 0];
  }

  lemma {:induction false} ZeroBlockValid()
    ensures IPNet([0, 0, 0, 0], 0).Valid()
  {
    ZeroMasked(0);
  }

  /** A block as parsed. */
  type CIDR = n: IPNet | n.Valid() witness (ZeroBlockValid(); IPNet([0, 0, 0, 0], 0))

  /** `IPNet.Contains`: masked bytes agree, after both sides are brought to 4-byte form. */
  predicate Contains(n: IPNet, ip: IP)
    requires n.ones <= n.Bits()
  {
    var mask := Mask(n.ones, |n.ip|);
    var nn := if To4(n.ip).Some? then To4(n.ip).value else n.ip;
    var m := if |nn| < |mask| then mask[12..] else mask;
    var x := if To4(ip).Some? then To4(ip).value else ip;
    |x| == |nn| && And(nn, m) == And(x, m)
  }

  lemma {:induction false} ValueAligned(n: CIDR)
    ensures Aligned(Value(n.ip), n.Size())
  {
    MaskedValue(n.ip, n.ones, n.HostBits());
  }

  lemma {:induction false} V4BaseAligned(h: nat)
    requires h <= 32
    ensures Aligned(V4_BASE, Pow2(h))
  {
    Pow2Large();
    AlignedBase(0xffff);
    AlignedPow2(V4_BASE, 32, h);
  }

  lemma {:induction false} AlignedBase(k: nat)
    ensures Aligned(k * 0x1_0000_0000, 0x1_0000_0000)
  {
    if k > 0 {
      AlignedBase(k - 1);
    }
  }

  /** A block starts at a multiple of its size, also as a range of 128-bit keys. */
  lemma {:induction false} BlockAligned(n: CIDR)
    ensures Aligned(n.Lo(), n.Size())
  {
    ValueAligned(n);
    if |n.ip| == 4 {
      KeyOfV4(n.ip);
      V4BaseAligned(n.HostBits());
      RoundShift(V4_BASE, Value(n.ip), n.Size());
    }
  }

  /** A mapped base leaves room for at most 32 host bits. */
  lemma {:induction false} MappedHostBits(n: CIDR)
    requires To4(n.ip).Some?
    ensures n.HostBits() <= 32
  {
    if |n.ip| == 16 && n.HostBits() > 32 {
      To4IsV4Key(n.ip);
      BlockAligned(n);
      AlignedPow2(n.Lo(), n.HostBits(), 33);
      Pow2Large();
      assert Pow2(33) == 0x2_0000_0000;
      AlignedDouble(0x7fff);
      AlignedGap(0x7fff * 0x2_0000_0000, n.Lo(), 0x2_0000_0000);
      assert false;
    }
  }

  lemma {:induction false} AlignedDouble(k: nat)
    ensures Aligned(k * 0x2_0000_0000, 0x2_0000_0000)
  {
    if k > 0 {
      AlignedDouble(k - 1);
    }
  }

  /** Strings agree under a mask exactly when their values lie in the same aligned block. */
  lemma {:induction false} MaskedAgree(a: seq<Byte>, b: seq<Byte>, ones: nat)
    requires |a| == |b| && ones <= 8 * |a|
    ensures var m := Pow2(8 * |a| - ones);
      And(a, Mask(ones, |a|)) == And(b, Mask(ones, |a|)) <==> RoundDown(Value(a), m) == RoundDown(Value(b), m)
  {
    var ma, mb := And(a, Mask(ones, |a|)), And(b, Mask(ones, |a|));
    MaskedValue(a, ones, 8 * |a| - ones);
    MaskedValue(b, ones, 8 * |a| - ones);
    if Value(ma) == Value(mb) {
      ValueInjective(ma, mb);
    }
  }

  /** The IPv4 mask of a block, whether it was written with 4 or with 16 bytes. */
  lemma {:induction false} ContainsV4Bytes(n: CIDR, ip: IP)
    requires To4(n.ip).Some? && To4(ip).Some?
    ensures n.HostBits() <= 32
    ensures var m := Mask(32 - n.HostBits(), 4);
      Contains(n, ip) <==> And(To4(n.ip).value, m) == And(To4(ip).value, m)
  {
    MappedHostBits(n);
    if |n.ip| == 16 {
      MaskSuffix(n.ones, 12, 16);
    }
  }

  lemma {:induction false} ContainsV4(n: CIDR, ip: IP)
    requires To4(n.ip).Some? && To4(ip).Some?
    ensures Contains(n, ip) <==> n.Lo() <= Key(ip) < n.Lo() + n.Size()
  {
    var a, b, m := Value(To4(n.ip).value), Value(To4(ip).value), n.Size();
    To4IsV4Key(n.ip);
    To4IsV4Key(ip);
    MappedHostBits(n);
    BlockAligned(n);
    V4BaseAligned(n.HostBits());
    RoundShift(V4_BASE, a, m);
    RoundUnique(a, b, m);
    ContainsV4Round(n, ip);
  }

  lemma {:induction false} ContainsV4Round(n: CIDR, ip: IP)
    requires To4(n.ip).Some? && To4(ip).Some?
    ensures Contains(n, ip) <==>
      RoundDown(Value(To4(n.ip).value), n.Size()) == RoundDown(Value(To4(ip).value), n.Size())
  {
    ContainsV4Bytes(n, ip);
    V4MaskedAgree(To4(n.ip).value, To4(ip).value, n.HostBits());
  }

  lemma {:induction false} V4MaskedAgree(a: IP, b: IP, h: nat)
    requires |a| == |b| == 4 && h <= 32
    ensures And(a, Mask(32 - h, 4)) == And(b, Mask(32 - h, 4))
      <==> RoundDown(Value(a), Pow2(h)) == RoundDown(Value(b), Pow2(h))
  {
    MaskedAgree(a, b, 32 - h);
  }

  /** Membership by masked bytes is membership in a range of keys of one family. */
  lemma {:induction false} ContainsIsRange(n: CIDR, ip: IP)
    ensures Contains(n, ip) <==> n.Has(Key(ip))
  {
    To4IsV4Key(n.ip);
    To4IsV4Key(ip);
    if To4(n.ip).Some? && To4(ip).Some? {
      ContainsV4(n, ip);
    } else if To4(n.ip).None? && To4(ip).None? {
      MaskedAgree(n.ip, ip, n.ones);
      BlockAligned(n);
      RoundUnique(n.Lo(), Key(ip), n.Size());
    }
  }

  /** `IPNet.Contains` as the walks call it. */
  method InNet(n: CIDR, ip: IP) returns (b: bool)
    ensures b <==> n.Has(Key(ip))
  {
    ContainsIsRange(n, ip);
    b := Contains(n, ip);
  }

  /** Blocks of at most 32 host bits are all IPv4 or all not, so the range alone decides. */
  lemma {:induction false} SmallBlockOneFamily(n: CIDR, k: nat)
    requires n.HostBits() <= 32
    requires n.Lo() <= k < n.Lo() + n.Size()
    ensures n.Has(k)
  {
    BlockAligned(n);
    RoundUnique(n.Lo(), k, n.Size());
    RoundCoarser(k, n.Lo(), n.HostBits(), 32);
    Pow2Large();
    V4BaseAligned(32);
    RoundUnique(V4_BASE, k, V4_SIZE);
    RoundUnique(V4_BASE, n.Lo(), V4_SIZE);
  }

  /** Two aligned blocks that share an address are nested (section 3.1 of RFC 4632). */
  lemma {:induction false} NestedOrDisjoint(a: CIDR, b: CIDR, k: nat, j: nat)
    requires a.HostBits() <= b.HostBits()
    requires a.Has(k) && b.Has(k) && a.Has(j)
    ensures b.Has(j)
  {
    BlockAligned(a);
    BlockAligned(b);
    RoundUnique(a.Lo(), k, a.Size());
    RoundUnique(a.Lo(), j, a.Size());
    RoundCoarser(k, j, a.HostBits(), b.HostBits());
    RoundUnique(b.Lo(), k, b.Size());
    RoundUnique(b.Lo(), j, b.Size());
  }

  // ---- Walking a block ----

  /**
    One in-place increment inside a block of fewer than 32 host bits: it moves to
    the next key or, from the last address, out of the block.  That includes the
    wrap from the all-ones address to zero.
   */
  lemma {:induction false} StepInBlock(n: CIDR, ip: IP)
    requires n.HostBits() < 32 && |ip| == |n.ip| && n.Has(Key(ip))
    ensures n.Has(Key(Incremented(ip))) <==> Key(ip) + 1 < n.Lo() + n.Size()
    ensures n.Has(Key(Incremented(ip))) ==> Key(Incremented(ip)) == Key(ip) + 1
  {
    IncrementedValue(ip);
    KeyOffset(Incremented(ip), ip);
    KeyOffset(n.ip, ip);
    ValueBound(ip);
    BlockEnd(n);
    if Key(ip) + 1 < n.Lo() + n.Size() {
      SmallBlockOneFamily(n, Key(ip) + 1);
    }
  }

  /** A block of fewer than 32 host bits fits the byte strings of its family and does not fill them. */
  lemma {:induction false} BlockEnd(n: CIDR)
    requires n.HostBits() < 32
    ensures Value(n.ip) + n.Size() <= Pow2(8 * |n.ip|)
    ensures n.Size() < Pow2(8 * |n.ip|)
  {
    LastValue(n.ip, n.ones, n.HostBits());
    ValueBound(OrNot(n.ip, Mask(n.ones, |n.ip|)));
    Pow2Monotone(n.HostBits() + 1, 8 * |n.ip|);
  }

  // ---- Two blocks at the bottom of the IPv4 range ----

  /** 0.0.0.0 with any prefix. */
  lemma {:induction false} ZeroBlock(ones: nat) returns (n: CIDR)
    requires ones <= 32
    ensures n == IPNet([0, 0, 0, 0], ones) && n.Lo() == V4_BASE && n.HostBits() == 32 - ones && n.Bits() == 32
    ensures n.Size() <= V4_SIZE
  {
    var z: IP := [0, 0, 0, 0];
    ZeroMasked(ones);
    n := IPNet(z, ones);
    KeyOfV4(z);
    ZeroValue(z);
    Pow2Monotone(32 - ones, 32);
    Pow2Large();
  }

  /** ::ffff:0:0/96, the IPv4-mapped block. */
  lemma {:induction false} MappedBlock() returns (n: CIDR)
    ensures |n.ip| == 16 && n.ones == 96 && n.MappedV6() && n.HostBits() == 32 && n.Lo() == V4_BASE
  {
    var ip: IP := V4_IN_V6 + [0, 0, 0, 0];
    AndCovered(V4_IN_V6, 96);
    AppendZeros(V4_IN_V6, 96, 4);
    assert ip == V4_IN_V6 + Zeros(4);
    n := IPNet(ip, 96);
    var z := ZeroBlock(0);
    assert To16(z.ip) == ip;
    assert ip[..12] == V4_IN_V6;
  }
}
