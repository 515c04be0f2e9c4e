/** Byte strings and little-endian scalars (ReadScalar and WriteScalar of base.h). */
module Bytes {

  type byte = x: int | 0 <= x < 256

  const TWO_8 := 0x100
  const TWO_16 := 0x1_0000
  const TWO_31 := 0x8000_0000
  const TWO_32 := 0x1_0000_0000
  const TWO_63 := 0x8000_0000_0000_0000
  const TWO_64 := 0x1_0000_0000_0000_0000

  /** 256 to the power n: the number of values an n-byte scalar can hold. */
  function Pow256(n: nat): (r: nat)
    ensures r >= 1
  {
    if n == 0 then 1 else 256 * Pow256(n - 1)
  }

  lemma Pow256Values()
    ensures Pow256(1) == TWO_8 && Pow256(2) == TWO_16 && Pow256(4) == TWO_32 && Pow256(8) == TWO_64
  {
    assert Pow256(2) == 256 * Pow256(1);
    assert Pow256(4) == 256 * (256 * Pow256(2));
    assert Pow256(6) == 256 * (256 * Pow256(4));
    assert Pow256(8) == 256 * (256 * Pow256(6));
  }

  /** The n little-endian bytes of v; higher bytes of v are cut off, as a C++ cast does. */
  function LE(v: nat, n: nat): (s: seq<byte>)
    ensures |s| == n
    decreases n
  {
    if n == 0 then [] else [v % 256] + LE(v / 256, n - 1)
  }

  function FromLE(s: seq<byte>): (v: nat)
  {
    if s == [] then 0 else s[0] + 256 * FromLE(s[1..])
  }

  lemma {:induction false} FromLEBound(s: seq<byte>)
    ensures FromLE(s) < Pow256(|s|)
  {
    if s != [] {
      FromLEBound(s[1..]);
    }
  }

  lemma {:induction false} ModSplit(v: nat, m: nat)
    requires m > 0
    ensures v % (256 * m) == v % 256 + 256 * (v / 256 % m)
  {
    var q, r := v / 256 / m, v / 256 % m;
    assert v / 256 == m * q + r;
    assert v == 256 * (v / 256) + v % 256;
    assert v == (256 * m) * q + (256 * r + v % 256) by {
      assert 256 * (m * q) == (256 * m) * q;
    }
    ModUnique(v, 256 * m, q, 256 * r + v % 256);
  }

  lemma ModUnique(v: int, m: int, q: int, r: int)
    requires m > 0 && 0 <= r < m && v == m * q + r
    ensures v % m == r && v / m == q
  {
    var d := v / m - q;
    assert m * (v / m) + v % m == v;
    assert m * (v / m) - m * q == m * d;
    assert r - v % m == m * d;
    MulSign(m, d);
  }

  lemma MulSign(m: int, d: int)
    requires m > 0
    ensures d > 0 ==> m * d >= m
    ensures d < 0 ==> m * d <= -m
  {
  }

  /** Reading back a written scalar yields the value truncated to the scalar's width. */
  lemma {:induction false} ReadsBack(v: nat, n: nat)
    ensures FromLE(LE(v, n)) == v % Pow256(n)
    decreases n
  {
    if n > 0 {
      var s := LE(v, n);
      assert s[1..] == LE(v / 256, n - 1);
      ReadsBack(v / 256, n - 1);
      ModSplit(v, Pow256(n - 1));
    }
  }

  /** A written scalar determines its bytes: the reverse direction of ReadsBack. */
  lemma {:induction false} WritesBack(s: seq<byte>)
    ensures LE(FromLE(s), |s|) == s
  {
    if s != [] {
      WritesBack(s[1..]);
      assert FromLE(s) / 256 == FromLE(s[1..]);
      assert FromLE(s) % 256 == s[0];
      assert s == [s[0]] + s[1..];
    }
  }

  function Zeros(n: nat): (s: seq<byte>)
    ensures |s| == n && forall i :: 0 <= i < n ==> s[i] == 0
  {
    seq(n, i => 0)
  }

  /** A value that fits in n bytes is read back unchanged. */
  lemma ReadsBackExactly(v: nat, n: nat)
    requires v < Pow256(n)
    ensures FromLE(LE(v, n)) == v
  {
    ReadsBack(v, n);
    ModUnique(v, Pow256(n), 0, v);
  }

  /** static_cast to a 16-bit unsigned integer. */
  function Wrap16(v: nat): (r: nat)
    ensures r < TWO_16
    ensures v < TWO_16 ==> r == v
  {
    v % 0x1_0000
  }

  /** static_cast to a 32-bit unsigned integer. */
  function Wrap32(v: int): (r: nat)
    ensures r < TWO_32
  {
    v % 0x1_0000_0000
  }

  /** static_cast to a 64-bit unsigned integer, and subtraction of sizes. */
  function Wrap64(v: int): (r: nat)
    ensures r < TWO_64
    ensures 0 <= v < TWO_64 ==> r == v
    ensures -TWO_63 <= v < 0 ==> r >= TWO_63
  {
    v % 0x1_0000_0000_0000_0000
  }

  /** static_cast of a 32-bit unsigned integer to a signed one. */
  function Signed32(v: nat): int {
    if v < TWO_31 then v else v - TWO_32
  }

  lemma Signed32OfWrap32(v: int)
    requires -TWO_31 <= v < TWO_31
    ensures Signed32(Wrap32(v)) == v
  {
    ModUnique(v, 0x1_0000_0000, if v < 0 then -1 else 0, if v < 0 then v + 0x1_0000_0000 else v);
  }
}
