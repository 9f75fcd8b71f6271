/** Bytes, fixed-width unsigned integers, their little-endian form, and single-bit
    updates. Widths are explicit: `ToLE(n, w)` keeps `n` modulo 256^w, exactly what
    Rust's `(n as uW).to_le_bytes()` keeps. */
module Bytes {
  type byte = x: int | 0 <= x < 0x100
  type u32 = x: int | 0 <= x < 0x1_0000_0000
  type u64 = x: int | 0 <= x < 0x1_0000_0000_0000_0000

  const U64_MAX: u64 := 0xFFFF_FFFF_FFFF_FFFF

  /** `u64::saturating_add`. */
  function SatAdd(a: u64, b: u64): (r: u64)
  {
    if a + b > U64_MAX then U64_MAX else a + b
  }

  /** `u64::saturating_sub`. */
  function SatSub(a: nat, b: nat): (r: nat)
  {
    if a < b then 0 else a - b
  }

  function Min(a: int, b: int): (r: int) { if a <= b then a else b }

  function Max(a: int, b: int): (r: int) { if a >= b then a else b }

  function ToLE(n: nat, width: nat): (b: seq<byte>)
    ensures |b| == width
  {
    if width == 0 then [] else [n % 0x100] + ToLE(n / 0x100, width - 1)
  }

  function FromLE(b: seq<byte>): (n: nat)
  {
    if b == [] then 0 else b[0] + 0x100 * FromLE(b[1..])
  }

  function Pow256(w: nat): (p: nat)
    ensures p > 0
  {
    if w == 0 then 1 else 0x100 * Pow256(w - 1)
  }

  /** A value survives the little-endian trip exactly when it fits the width. */
  lemma {:induction false} LERoundTrip(n: nat, w: nat)
    ensures FromLE(ToLE(n, w)) == n <==> n < Pow256(w)
    ensures FromLE(ToLE(n, w)) < Pow256(w)
  {
    if w != 0 {
      LERoundTrip(n / 0x100, w - 1);
      var b := ToLE(n, w);
      assert b[1..] == ToLE(n / 0x100, w - 1);
    }
  }

  lemma LE4(n: nat)
    ensures FromLE(ToLE(n, 4)) == n <==> n < 0x1_0000_0000
    ensures FromLE(ToLE(n, 4)) < 0x1_0000_0000
  {
    LERoundTrip(n, 4);
    assert Pow256(1) == 0x100;
    assert Pow256(2) == 0x1_0000;
    assert Pow256(3) == 0x100_0000;
  }

  lemma LE8(n: nat)
    ensures FromLE(ToLE(n, 8)) == n <==> n <= U64_MAX
  {
    LERoundTrip(n, 8);
    assert Pow256(1) == 0x100;
    assert Pow256(2) == 0x1_0000;
    assert Pow256(3) == 0x100_0000;
    assert Pow256(4) == 0x1_0000_0000;
    assert Pow256(5) == 0x100_0000_0000;
    assert Pow256(6) == 0x1_0000_0000_0000;
    assert Pow256(7) == 0x100_0000_0000_0000;
  }

  lemma {:induction false} FromLEBound(b: seq<byte>)
    ensures FromLE(b) < Pow256(|b|)
  {
    if b != [] {
      FromLEBound(b[1..]);
    }
  }

  lemma FromLE4Bound(b: seq<byte>)
    requires |b| == 4
    ensures FromLE(b) < 0x1_0000_0000
  {
    FromLEBound(b);
    assert Pow256(1) == 0x100;
    assert Pow256(2) == 0x1_0000;
    assert Pow256(3) == 0x100_0000;
  }

  lemma FromLE8Bound(b: seq<byte>)
    requires |b| == 8
    ensures FromLE(b) <= U64_MAX
  {
    FromLEBound(b);
    assert Pow256(4) == 0x1_0000_0000 by {
      assert Pow256(1) == 0x100;
      assert Pow256(2) == 0x1_0000;
      assert Pow256(3) == 0x100_0000;
    }
    assert Pow256(5) == 0x100_0000_0000;
    assert Pow256(6) == 0x1_0000_0000_0000;
    assert Pow256(7) == 0x100_0000_0000_0000;
  }

  /** Bit `k` of `n`. */
  predicate TestBit(n: nat, k: nat)
  {
    if k == 0 then n % 2 == 1 else TestBit(n / 2, k - 1)
  }

  /** `n | (1 << k)`. */
  function SetBit(n: nat, k: nat): (r: nat)
  {
    if k == 0 then n - n % 2 + 1 else 2 * SetBit(n / 2, k - 1) + n % 2
  }

  function Pow2(w: nat): (p: nat)
    ensures p > 0
  {
    if w == 0 then 1 else 2 * Pow2(w - 1)
  }

  /** Setting a bit sets that bit and no other. */
  lemma {:induction false} SetBitSetsOneBit(n: nat, k: nat, j: nat)
    ensures TestBit(SetBit(n, k), j) <==> j == k || TestBit(n, j)
  {
    if k != 0 && j != 0 {
      SetBitSetsOneBit(n / 2, k - 1, j - 1);
    }
  }

  lemma {:induction false} SetBitStaysInWidth(n: nat, k: nat, w: nat)
    requires n < Pow2(w) && k < w
    ensures SetBit(n, k) < Pow2(w)
  {
    if k != 0 {
      SetBitStaysInWidth(n / 2, k - 1, w - 1);
    }
  }

  lemma Pow2At64()
    ensures Pow2(64) == 0x1_0000_0000_0000_0000
  {
    assert Pow2(8) == 0x100;
    assert Pow2(16) == 0x1_0000;
    assert Pow2(24) == 0x100_0000;
    assert Pow2(32) == 0x1_0000_0000;
    assert Pow2(40) == 0x100_0000_0000;
    assert Pow2(48) == 0x1_0000_0000_0000;
    assert Pow2(56) == 0x100_0000_0000_0000;
  }
}
