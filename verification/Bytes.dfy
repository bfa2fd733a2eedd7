/**
  Byte strings as big-endian numbers: powers of two and rounding, numeric value,
  lexicographic comparison, and the in-place increment of `incIP`
  (`internal/domain/ipam.go`, `internal/discovery/network.go`).
 */
module Bytes {
  // ---- Powers of two ----

  function Pow2(n: nat): (r: nat)
    ensures r >= 1
  {
    if n == 0 then 1 else 2 * Pow2(n - 1)
  }

  lemma {:induction false} Pow2Monotone(m: nat, n: nat)
    requires m <= n
    ensures Pow2(m) <= Pow2(n)
    decreases n
  {
    if m < n {
      Pow2Monotone(m, n - 1);
    }
  }

  lemma {:induction false} Pow2Small()
    ensures Pow2(0) == 1 && Pow2(1) == 2 && Pow2(2) == 4 && Pow2(3) == 8 && Pow2(4) == 16
    ensures Pow2(5) == 32 && Pow2(6) == 64 && Pow2(7) == 128 && Pow2(8) == 256
  {
  }

  /** Eight more bits multiply by 256. */
  lemma {:induction false} Pow2Byte(n: nat)
    ensures Pow2(n + 8) == 256 * Pow2(n)
  {
    assert Pow2(n + 4) == 16 * Pow2(n) by {
      assert Pow2(n + 2) == 4 * Pow2(n);
    }
    assert Pow2(n + 6) == 64 * Pow2(n);
  }

  lemma {:induction false} Pow2Large()
    ensures Pow2(16) == 0x1_0000
    ensures Pow2(32) == 0x1_0000_0000
  {
    Pow2Small();
    Pow2Byte(8);
    Pow2Byte(16);
    Pow2Byte(24);
  }

  // ---- Rounding down to a block size ----

  /** The largest multiple of m that is at most a. */
  function RoundDown(a: nat, m: nat): nat
    requires m > 0
  {
    if a < m then 0 else m + RoundDown(a - m, m)
  }

  predicate Aligned(a: nat, m: nat)
    requires m > 0
  {
    RoundDown(a, m) == a
  }

  lemma {:induction false} RoundBounds(a: nat, m: nat)
    requires m > 0
    ensures RoundDown(a, m) <= a < RoundDown(a, m) + m
    ensures Aligned(RoundDown(a, m), m)
  {
    if a >= m {
      RoundBounds(a - m, m);
    }
  }

  /** The aligned block that holds x starts at the only aligned number it can. */
  lemma {:induction false} RoundUnique(lo: nat, x: nat, m: nat)
    requires m > 0 && Aligned(lo, m)
    ensures RoundDown(x, m) == lo <==> lo <= x < lo + m
    decreases x
  {
    if x < m {
      RoundBounds(lo, m);
    } else if lo < m {
      RoundBounds(x, m);
    } else {
      RoundUnique(lo - m, x - m, m);
    }
  }

  lemma {:induction false} RoundShift(a: nat, b: nat, m: nat)
    requires m > 0 && Aligned(a, m)
    ensures RoundDown(a + b, m) == a + RoundDown(b, m)
    decreases a
  {
    if a >= m {
      RoundShift(a - m, b, m);
    }
  }

  /** Aligned numbers are at least one block apart. */
  lemma {:induction false} AlignedGap(a: nat, b: nat, m: nat)
    requires m > 0 && Aligned(a, m) && Aligned(b, m) && a < b
    ensures a + m <= b
  {
    RoundUnique(a, b, m);
  }

  lemma {:induction false} RoundScale(a: nat, x: nat, m: nat)
    requires m > 0 && x < 256
    ensures RoundDown(a * 256 + x, m * 256) == RoundDown(a, m) * 256
    decreases a
  {
    if a >= m {
      RoundScale(a - m, x, m);
    }
  }

  lemma {:induction false} RoundHalf(x: nat, m: nat)
    requires m > 0
    ensures RoundDown(x, 2 * m) == 2 * RoundDown(x / 2, m)
  {
    if x >= 2 * m {
      RoundHalf(x - 2 * m, m);
    }
  }

  /** Rounding to a block twice as large needs only the smaller block. */
  lemma {:induction false} RoundCoarse(x: nat, m: nat)
    requires m > 0
    ensures RoundDown(RoundDown(x, m), 2 * m) == RoundDown(x, 2 * m)
  {
    if x >= 2 * m {
      RoundCoarse(x - 2 * m, m);
      assert RoundDown(x, m) == 2 * m + RoundDown(x - 2 * m, m);
    }
  }

  lemma {:induction false} AlignedFiner(a: nat, m: nat)
    requires m > 0 && Aligned(a, 2 * m)
    ensures Aligned(a, m)
  {
    if a >= 2 * m {
      AlignedFiner(a - 2 * m, m);
      assert RoundDown(a, m) == 2 * m + RoundDown(a - 2 * m, m);
    }
  }

  lemma {:induction false} AlignedPow2(a: nat, big: nat, small: nat)
    requires small <= big && Aligned(a, Pow2(big))
    ensures Aligned(a, Pow2(small))
    decreases big
  {
    if small < big {
      AlignedFiner(a, Pow2(big - 1));
      AlignedPow2(a, big - 1, small);
    }
  }

  /** Numbers in one small block are in one large block. */
  lemma {:induction false} RoundCoarser(x: nat, y: nat, small: nat, big: nat)
    requires small <= big && RoundDown(x, Pow2(small)) == RoundDown(y, Pow2(small))
    ensures RoundDown(x, Pow2(big)) == RoundDown(y, Pow2(big))
    decreases big
  {
    if small < big {
      RoundCoarser(x, y, small, big - 1);
      RoundCoarse(x, Pow2(big - 1));
      RoundCoarse(y, Pow2(big - 1));
    }
  }

  /** Rounding inside the last byte leaves the bytes above it alone. */
  lemma {:induction false} RoundLastByte(p: nat, x: nat, h: nat)
    requires h <= 8
    ensures RoundDown(p * 256 + x, Pow2(h)) == p * 256 + RoundDown(x, Pow2(h))
  {
    AlignedBytes(p);
    Pow2Small();
    AlignedPow2(p * 256, 8, h);
    RoundShift(p * 256, x, Pow2(h));
  }

  lemma {:induction false} AlignedBytes(p: nat)
    ensures Aligned(p * 256, 256)
  {
    if p > 0 {
      AlignedBytes(p - 1);
    }
  }

  // ---- Values of byte strings ----

  type Byte = b: int | 0 <= b < 256

  /** The big-endian number a byte string spells. */
  function Value(s: seq<Byte>): nat {
    if s == [] then 0 else Value(s[..|s| - 1]) * 256 + s[|s| - 1]
  }

  lemma {:induction false} ValueBound(s: seq<Byte>)
    ensures Value(s) < Pow2(8 * |s|)
  {
    if s != [] {
      ValueBound(s[..|s| - 1]);
      Pow2Byte(8 * (|s| - 1));
    }
  }

  lemma {:induction false} ValueInjective(a: seq<Byte>, b: seq<Byte>)
    requires |a| == |b| && Value(a) == Value(b)
    ensures a == b
  {
    if a != [] {
      var n := |a| - 1;
      assert a[n] == b[n] && Value(a[..n]) == Value(b[..n]);
      ValueInjective(a[..n], b[..n]);
      assert a == a[..n] + [a[n]] && b == b[..n] + [b[n]];
    }
  }

  /** `bytes.Compare`: lexicographic order of byte strings. */
  function Compare(a: seq<Byte>, b: seq<Byte>): int {
    if a == [] then (if b == [] then 0 else -1)
    else if b == [] then 1
    else if a[0] < b[0] then -1
    else if a[0] > b[0] then 1
    else Compare(a[1..], b[1..])
  }

  lemma {:induction false} CompareLast(a: seq<Byte>, b: seq<Byte>, x: Byte, y: Byte)
    requires |a| == |b|
    ensures Compare(a + [x], b + [y]) ==
      if Compare(a, b) != 0 then Compare(a, b) else if x < y then -1 else if x > y then 1 else 0
  {
    if a == [] {
      assert a + [x] == [x] && b + [y] == [y];
      assert [x][1..] == [] && [y][1..] == [];
    } else {
      assert (a + [x])[1..] == a[1..] + [x] && (b + [y])[1..] == b[1..] + [y];
      CompareLast(a[1..], b[1..], x, y);
    }
  }

  /** On strings of one length, lexicographic order is numeric order. */
  lemma {:induction false} CompareIsNumeric(a: seq<Byte>, b: seq<Byte>)
    requires |a| == |b|
    ensures Compare(a, b) < 0 <==> Value(a) < Value(b)
    ensures Compare(a, b) > 0 <==> Value(a) > Value(b)
  {
    if a != [] {
      var n := |a| - 1;
      CompareIsNumeric(a[..n], b[..n]);
      CompareLast(a[..n], b[..n], a[n], b[n]);
      assert a == a[..n] + [a[n]] && b == b[..n] + [b[n]];
    }
  }

  /** Appending four bytes. */
  lemma {:induction false} ValueAppend4(p: seq<Byte>, t: seq<Byte>)
    requires |t| == 4
    ensures Value(p + t) == Value(p) * 0x1_0000_0000 + Value(t)
  {
    ValueAppend(p, t[0]);
    ValueAppend(p + [t[0]], t[1]);
    ValueAppend(p + [t[0], t[1]], t[2]);
    ValueAppend(p + [t[0], t[1], t[2]], t[3]);
    assert p + [t[0]] + [t[1]] == p + [t[0], t[1]];
    assert p + [t[0], t[1]] + [t[2]] == p + [t[0], t[1], t[2]];
    assert p + [t[0], t[1], t[2]] + [t[3]] == p + t;
    ValueOf4(t);
  }

  /** `bytes.Compare` as the walks call it, on strings of one length. */
  method CompareBytes(a: seq<Byte>, b: seq<Byte>) returns (c: int)
    requires |a| == |b|
    ensures c < 0 <==> Value(a) < Value(b)
    ensures c > 0 <==> Value(a) > Value(b)
  {
    CompareIsNumeric(a, b);
    c := Compare(a, b);
  }

  lemma {:induction false} ValueAppend(p: seq<Byte>, x: Byte)
    ensures Value(p + [x]) == Value(p) * 256 + x
  {
    assert (p + [x])[..|p|] == p;
  }

  lemma {:induction false} ValueOf4(t: seq<Byte>)
    requires |t| == 4
    ensures Value(t) == t[0] as nat * 0x100_0000 + t[1] as nat * 0x1_0000 + t[2] as nat * 0x100 + t[3] as nat
  {
    ValueAppend([], t[0]);
    ValueAppend([t[0]], t[1]);
    ValueAppend([t[0], t[1]], t[2]);
    ValueAppend([t[0], t[1], t[2]], t[3]);
    assert [] + [t[0]] == [t[0]] && [t[0]] + [t[1]] == [t[0], t[1]];
    assert [t[0], t[1]] + [t[2]] == [t[0], t[1], t[2]];
    assert [t[0], t[1], t[2]] + [t[3]] == t;
  }

  lemma {:induction false} ZeroValue(s: seq<Byte>)
    requires forall i :: 0 <= i < |s| ==> s[i] == 0
    ensures Value(s) == 0
  {
    if s != [] {
      ZeroValue(s[..|s| - 1]);
    }
  }

  // ---- In-place increment ----

  /** The byte string after one big-endian increment with carry, dropping the last carry. */
  function Incremented(s: seq<Byte>): (r: seq<Byte>)
    ensures |r| == |s|
  {
    if s == [] then []
    else if s[|s| - 1] != 255 then s[..|s| - 1] + [s[|s| - 1] + 1]
    else Incremented(s[..|s| - 1]) + [0]
  }

  /** The carry refines +1 modulo 256^|s|. */
  lemma {:induction false} IncrementedValue(s: seq<Byte>)
    ensures Value(Incremented(s)) == if Value(s) + 1 == Pow2(8 * |s|) then 0 else Value(s) + 1
  {
    if s != [] {
      var n := |s| - 1;
      var r := Incremented(s);
      Pow2Byte(8 * n);
      ValueBound(s[..n]);
      if s[n] != 255 {
        assert r[..n] == s[..n] && r[n] == s[n] + 1;
      } else {
        IncrementedValue(s[..n]);
        assert r[..n] == Incremented(s[..n]) && r[n] == 0;
      }
    }
  }

  /** `incIP` (both copies): bumps the bytes from the right until one does not wrap. */
  method IncIP(ip: array<Byte>)
    modifies ip
    ensures ip[..] == Incremented(old(ip[..]))
  {
    ghost var was := ip[..];
    var i := ip.Length;
    assert was[..i] == was && ip[..] == ip[..i] + ip[i..];
    while i > 0
      invariant 0 <= i <= ip.Length
      invariant ip[..i] == was[..i]
      invariant Incremented(was) == Incremented(was[..i]) + ip[i..]
    {
      i := i - 1;
      assert was[..i + 1][..i] == was[..i];
      ghost var tail := ip[i + 1..];
      ip[i] := if ip[i] == 255 then 0 else ip[i] + 1;
      assert ip[i + 1..] == tail;
      assert ip[i..] == [ip[i]] + tail;
      if ip[i] != 0 {
        assert was[..i + 1][i] != 255;
        assert ip[..] == ip[..i] + ip[i..];
        assert Incremented(was) == was[..i] + [ip[i]] + tail;
        return;
      }
      assert Incremented(was[..i + 1]) == Incremented(was[..i]) + [0];
    }
    assert ip[..] == ip[i..];
  }
}
