/**
  Bit masks on byte strings, as Go's `net` package applies them: masking rounds a
  number down to a multiple of the block size, and the complement of the mask
  gives the end of the block.
 */
module Masks {
  import opened Bytes

  /** Bitwise conjunction of the low `bits` bits. */
  function AndBits(x: nat, y: nat, bits: nat): (r: nat)
    ensures r <= x
  {
    if bits == 0 then 0
    else 2 * AndBits(x / 2, y / 2, bits - 1) + (if x % 2 == 1 && y % 2 == 1 then 1 else 0)
  }

  /** Bitwise disjunction of the low `bits` bits. */
  function OrBits(x: nat, y: nat, bits: nat): (r: nat)
    ensures r < Pow2(bits)
  {
    if bits == 0 then 0
    else 2 * OrBits(x / 2, y / 2, bits - 1) + (if x % 2 == 1 || y % 2 == 1 then 1 else 0)
  }

  /** `x & y`, `x | y` and `^x` on bytes. */
  function And8(x: Byte, y: Byte): Byte { AndBits(x, y, 8) }

  function Or8(x: Byte, y: Byte): Byte { Pow2Small(); OrBits(x, y, 8) }

  function Not8(x: Byte): Byte { 255 - x }

  /** `0xff >> k` for k in 0..8: the low 8-k ones. */
  function LowOnes(k: nat): Byte
    requires k <= 8
  {
    Pow2Small();
    Pow2Monotone(8 - k, 8);
    Pow2(8 - k) - 1
  }

  /** Byte of a mask whose first k bits, clamped to 0..8, are ones: `^(0xff >> k)`. */
  function MaskByte(k: int): Byte {
    if k >= 8 then 0xff else if k <= 0 then 0 else Not8(LowOnes(k))
  }

  /** `net.CIDRMask(ones, 8*n)`. */
  function Mask(ones: int, n: nat): (m: seq<Byte>)
    ensures |m| == n
  {
    if n == 0 then [] else Mask(ones, n - 1) + [MaskByte(ones - 8 * (n - 1))]
  }

  /** Bytewise `s & m` for strings of one length. */
  function And(s: seq<Byte>, m: seq<Byte>): (r: seq<Byte>)
    requires |s| == |m|
    ensures |r| == |s|
  {
    if s == [] then [] else And(s[..|s| - 1], m[..|s| - 1]) + [And8(s[|s| - 1], m[|s| - 1])]
  }

  /** Bytewise `s | ^m` for strings of one length. */
  function OrNot(s: seq<Byte>, m: seq<Byte>): (r: seq<Byte>)
    requires |s| == |m|
    ensures |r| == |s|
  {
    if s == [] then [] else OrNot(s[..|s| - 1], m[..|s| - 1]) + [Or8(s[|s| - 1], Not8(m[|s| - 1]))]
  }

  /** The mask of a suffix is the mask of the bits left over. */
  lemma {:induction false} MaskSuffix(ones: int, k: nat, n: nat)
    requires k <= n
    ensures Mask(ones, n)[k..] == Mask(ones - 8 * k, n - k)
    decreases n
  {
    if k < n {
      MaskSuffix(ones, k, n - 1);
      assert ones - 8 * k - 8 * (n - k - 1) == ones - 8 * (n - 1);
      assert Mask(ones, n)[k..] == Mask(ones, n - 1)[k..] + [MaskByte(ones - 8 * (n - 1))];
    }
  }

  lemma {:induction false} AndAll(x: nat, b: nat)
    requires x < Pow2(b)
    ensures AndBits(x, Pow2(b) - 1, b) == x
  {
    if b > 0 {
      AndAll(x / 2, b - 1);
      assert (Pow2(b) - 1) / 2 == Pow2(b - 1) - 1;
    }
  }

  /** Conjunction with ones above bit j rounds down to a multiple of 2^j. */
  lemma {:induction false} AndTop(x: nat, y: nat, b: nat, j: nat)
    requires x < Pow2(b) && j <= b && y == Pow2(b) - Pow2(j)
    ensures AndBits(x, y, b) == RoundDown(x, Pow2(j))
    decreases b
  {
    if j == 0 {
      AndAll(x, b);
      RoundBounds(x, 1);
    } else {
      var half := Pow2(b - 1) - Pow2(j - 1);
      Pow2Monotone(j - 1, b - 1);
      AndTop(x / 2, half, b - 1, j - 1);
      assert y == 2 * half;
      RoundHalf(x, Pow2(j - 1));
    }
  }

  /** Disjunction of a multiple of 2^j with j low ones is their sum. */
  lemma {:induction false} OrLow(x: nat, y: nat, b: nat, j: nat)
    requires x < Pow2(b) && j <= b && Aligned(x, Pow2(j)) && y == Pow2(j) - 1
    ensures OrBits(x, y, b) == x + y
    decreases b
  {
    if b > 0 {
      if j == 0 {
        RoundBounds(x / 2, 1);
        OrLow(x / 2, 0, b - 1, 0);
      } else {
        RoundHalf(x, Pow2(j - 1));
        assert y / 2 == Pow2(j - 1) - 1;
        OrLow(x / 2, y / 2, b - 1, j - 1);
      }
    }
  }

  lemma {:induction false} AndByte(x: Byte, k: nat)
    requires k <= 8
    ensures And8(x, MaskByte(k)) == RoundDown(x, Pow2(8 - k))
  {
    assert x < Pow2(8) && MaskByte(k) == Pow2(8) - Pow2(8 - k) by {
      Pow2Small();
    }
    AndTop(x, MaskByte(k), 8, 8 - k);
  }

  lemma {:induction false} OrByte(x: Byte, k: nat)
    requires k <= 8 && And8(x, MaskByte(k)) == x
    ensures Or8(x, Not8(MaskByte(k))) == x + Pow2(8 - k) - 1
  {
    assert x < Pow2(8) && Not8(MaskByte(k)) == Pow2(8 - k) - 1 by {
      Pow2Small();
    }
    AndByte(x, k);
    OrLow(x, Not8(MaskByte(k)), 8, 8 - k);
  }

  /** A byte wholly under the mask, and a byte wholly outside it. */
  lemma {:induction false} AndWholeByte(x: Byte)
    ensures And8(x, 0xff) == x && And8(x, 0) == 0
  {
    Pow2Small();
    AndByte(x, 8);
    AndByte(x, 0);
    RoundBounds(x, 1);
  }

  lemma {:induction false} OrWholeByte(x: Byte)
    ensures Or8(x, Not8(0xff)) == x && Or8(0, Not8(0)) == 0xff
  {
    Pow2Small();
    AndWholeByte(x);
    AndWholeByte(0);
    OrByte(x, 8);
    OrByte(0, 0);
  }

  /** A mask that covers a string whole changes nothing. */
  lemma {:induction false} AndCovered(s: seq<Byte>, ones: nat)
    requires ones >= 8 * |s|
    ensures And(s, Mask(ones, |s|)) == s && OrNot(s, Mask(ones, |s|)) == s
  {
    if s != [] {
      var n := |s| - 1;
      AndCovered(s[..n], ones);
      AndWholeByte(s[n]);
      OrWholeByte(s[n]);
    }
  }

  /** The last byte of a masked string, and what comes before it. */
  lemma {:induction false} AndLast(s: seq<Byte>, ones: int)
    requires s != []
    ensures var n := |s| - 1;
      Value(And(s, Mask(ones, |s|)))
      == Value(And(s[..n], Mask(ones, n))) * 256 + And8(s[n], MaskByte(ones - 8 * n)) as nat
  {
    var n := |s| - 1;
    ValueAppend(And(s[..n], Mask(ones, n)), And8(s[n], MaskByte(ones - 8 * n)));
  }

  /** Masking rounds a value down to a multiple of the block size. */
  lemma {:induction false} MaskedValue(s: seq<Byte>, ones: nat, h: nat)
    requires ones + h == 8 * |s|
    ensures Value(And(s, Mask(ones, |s|))) == RoundDown(Value(s), Pow2(h))
  {
    if s == [] {
      RoundBounds(0, 1);
    } else if h >= 8 {
      MaskedValue(s[..|s| - 1], ones, h - 8);
      MaskedWhole(s, ones, h);
    } else {
      MaskedInside(s, ones, h);
    }
  }

  lemma {:induction false} MaskedWhole(s: seq<Byte>, ones: nat, h: nat)
    requires s != [] && ones + h == 8 * |s| && h >= 8
    requires var p := s[..|s| - 1]; Value(And(p, Mask(ones, |p|))) == RoundDown(Value(p), Pow2(h - 8))
    ensures Value(And(s, Mask(ones, |s|))) == RoundDown(Value(s), Pow2(h))
  {
    var n := |s| - 1;
    AndLast(s, ones);
    MaskedStepWhole(s[n], ones - 8 * n, Value(s[..n]), h);
  }

  lemma {:induction false} MaskedInside(s: seq<Byte>, ones: nat, h: nat)
    requires s != [] && ones + h == 8 * |s| && h < 8
    ensures Value(And(s, Mask(ones, |s|))) == RoundDown(Value(s), Pow2(h))
  {
    var n := |s| - 1;
    AndLast(s, ones);
    AndCovered(s[..n], ones);
    assert And(s[..n], Mask(ones, n)) == s[..n];
    MaskedStepInside(s[n], ones - 8 * n, Value(s[..n]), h);
    assert Value(s) == Value(s[..n]) * 256 + s[n];
  }

  lemma {:induction false} MaskedStepWhole(x: Byte, k: int, p: nat, h: nat)
    requires k <= 0 && h >= 8
    ensures RoundDown(p, Pow2(h - 8)) * 256 + And8(x, MaskByte(k)) as nat == RoundDown(p * 256 + x, Pow2(h))
  {
    AndWholeByte(x);
    Pow2Byte(h - 8);
    RoundScale(p, x, Pow2(h - 8));
  }

  lemma {:induction false} MaskedStepInside(x: Byte, k: nat, p: nat, h: nat)
    requires k + h == 8
    ensures p * 256 + And8(x, MaskByte(k)) as nat == RoundDown(p * 256 + x, Pow2(h))
  {
    AndByte(x, k);
    RoundLastByte(p, x, h);
  }

  /** `base | ^mask` is the last address of the block. */
  lemma {:induction false} LastValue(s: seq<Byte>, ones: nat, h: nat)
    requires ones + h == 8 * |s| && And(s, Mask(ones, |s|)) == s
    ensures Value(OrNot(s, Mask(ones, |s|))) == Value(s) + Pow2(h) - 1
  {
    if s != [] {
      if h >= 8 {
        LastValue(s[..|s| - 1], ones, h - 8);
        LastWhole(s, ones, h);
      } else {
        LastInside(s, ones, h);
      }
    }
  }

  lemma {:induction false} LastWhole(s: seq<Byte>, ones: nat, h: nat)
    requires s != [] && ones + h == 8 * |s| && h >= 8 && And(s, Mask(ones, |s|)) == s
    requires var p := s[..|s| - 1]; Value(OrNot(p, Mask(ones, |p|))) == Value(p) + Pow2(h - 8) - 1
    ensures Value(OrNot(s, Mask(ones, |s|))) == Value(s) + Pow2(h) - 1
  {
    var n := |s| - 1;
    LastStepWhole(s[n], ones - 8 * n);
    Pow2Byte(h - 8);
  }

  lemma {:induction false} LastInside(s: seq<Byte>, ones: nat, h: nat)
    requires s != [] && ones + h == 8 * |s| && h < 8 && And(s, Mask(ones, |s|)) == s
    ensures Value(OrNot(s, Mask(ones, |s|))) == Value(s) + Pow2(h) - 1
  {
    var n := |s| - 1;
    AndCovered(s[..n], ones);
    OrByte(s[n], ones - 8 * n);
  }

  lemma {:induction false} LastStepWhole(x: Byte, k: int)
    requires k <= 0 && And8(x, MaskByte(k)) == x
    ensures x == 0 && Or8(x, Not8(MaskByte(k))) == 0xff
  {
    AndWholeByte(x);
    OrWholeByte(x);
  }

  // ---- Zero bytes ----

  function Zeros(n: nat): (z: seq<Byte>)
    ensures |z| == n && forall i :: 0 <= i < n ==> z[i] == 0
  {
    if n == 0 then [] else Zeros(n - 1) + [0]
  }

  lemma {:induction false} AndAppend(s: seq<Byte>, x: Byte, ones: int)
    ensures And(s + [x], Mask(ones, |s| + 1)) == And(s, Mask(ones, |s|)) + [And8(x, MaskByte(ones - 8 * |s|))]
  {
    assert (s + [x])[..|s|] == s;
  }

  /** Whether masking with a prefix length changes a string. */
  predicate Masked(s: seq<Byte>, ones: int) {
    And(s, Mask(ones, |s|)) == s
  }

  /** Zero bytes after a masked string stay masked. */
  lemma {:induction false} AppendZeros(s: seq<Byte>, ones: int, n: nat)
    requires Masked(s, ones)
    ensures Masked(s + Zeros(n), ones)
    decreases n
  {
    if n == 0 {
      assert s + Zeros(0) == s;
    } else {
      AppendZeros(s, ones, n - 1);
      AppendZero(s + Zeros(n - 1), ones);
      assert s + Zeros(n) == s + Zeros(n - 1) + [0];
    }
  }

  lemma {:induction false} AppendZero(t: seq<Byte>, ones: int)
    requires Masked(t, ones)
    ensures Masked(t + [0], ones)
  {
    var m := MaskByte(ones - 8 * |t|);
    AndAppend(t, 0, ones);
    assert And8(0, m) == 0;
  }
}
