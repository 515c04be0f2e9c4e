/** Alignment arithmetic of base.h, at the level of bits. */
module Alignment {
  import opened Bytes

  const MAX_ALIGNMENT := 32

  /** Bitwise `&` on unsigned integers. */
  function BitAnd(x: nat, y: nat): nat
  {
    if x == 0 || y == 0 then 0 else (if x % 2 == 1 && y % 2 == 1 then 1 else 0) + 2 * BitAnd(x / 2, y / 2)
  }

  /** Bitwise `~` on size_t. */
  function Complement64(x: nat): nat
  {
    TWO_64 - 1 - x % TWO_64
  }

  /** VerifyAlignmentRequirements: at most MAX_ALIGNMENT, and a single bit set. */
  predicate VerifyAlignmentRequirements(align: nat)
  {
    1 <= align && align <= MAX_ALIGNMENT && BitAnd(align, align - 1) == 0
  }

  function PaddingBytes(bufSize: nat, scalarSize: nat): nat
    requires scalarSize > 0
  {
    BitAnd((Complement64(bufSize) + 1) % TWO_64, scalarSize - 1)
  }

  predicate IsAlignment(s: nat)
  {
    s == 1 || s == 2 || s == 4 || s == 8 || s == 16 || s == 32
  }

  /** The alignments the assertion lets through are exactly the powers of two up to 32. */
  lemma AlignmentsArePowersOfTwo(align: nat)
    requires align > 0
    ensures VerifyAlignmentRequirements(align) <==> IsAlignment(align)
  {
    if align <= MAX_ALIGNMENT && !IsAlignment(align) {
      SharedBit(align);
    }
    assert BitAnd(2, 1) == 0 && BitAnd(4, 3) == 0 && BitAnd(8, 7) == 0;
    assert BitAnd(16, 15) == 2 * BitAnd(8, 7);
    assert BitAnd(32, 31) == 2 * BitAnd(16, 15);
  }

  /** A number between two powers of two shares its top bit with its predecessor. */
  lemma {:induction false} SharedBit(align: nat)
    requires 0 < align <= MAX_ALIGNMENT && !IsAlignment(align)
    ensures BitAnd(align, align - 1) != 0
    decreases align
  {
    if align % 2 == 1 {
      assert BitAnd(align, align - 1) == 2 * BitAnd(align / 2, (align - 1) / 2);
      SelfAnd(align / 2);
    } else {
      SharedBit(align / 2);
      assert (align - 1) / 2 == align / 2 - 1;
    }
  }

  lemma {:induction false} SelfAnd(x: nat)
    ensures BitAnd(x, x) == x
  {
    if x > 0 {
      SelfAnd(x / 2);
    }
  }

  lemma RemainderOfDouble(x: nat, h: nat)
    requires h > 0
    ensures x % (2 * h) == x % 2 + 2 * (x / 2 % h)
  {
    var q, r := x / 2 / h, x / 2 % h;
    assert x / 2 == h * q + r;
    assert x == (2 * h) * q + (2 * r + x % 2) by {
      assert 2 * (h * q) == (2 * h) * q;
    }
    ModUnique(x, 2 * h, q, 2 * r + x % 2);
  }

  // ---------- powers of two ----------

  function Pow2(k: nat): (r: nat)
    ensures r > 0
  {
    if k == 0 then 1 else 2 * Pow2(k - 1)
  }

  lemma Pow2Byte(k: nat)
    ensures Pow2(k + 8) == 256 * Pow2(k)
  {
    assert Pow2(k + 2) == 4 * Pow2(k);
    assert Pow2(k + 4) == 4 * Pow2(k + 2);
    assert Pow2(k + 6) == 4 * Pow2(k + 4);
    assert Pow2(k + 8) == 4 * Pow2(k + 6);
  }

  lemma {:induction false} Pow2Bytes(n: nat)
    ensures Pow2(8 * n) == Pow256(n)
  {
    if n > 0 {
      Pow2Bytes(n - 1);
      Pow2Byte(8 * n - 8);
    }
  }

  lemma AndUnfolds(x: nat, y: nat)
    ensures BitAnd(x, y) == (if x % 2 == 1 && y % 2 == 1 then 1 else 0) + 2 * BitAnd(x / 2, y / 2)
  {
  }

  /** Clearing the bits of m removes what m would have kept. */
  lemma {:induction false} AndWithComplement(y: nat, m: nat, k: nat)
    requires y < Pow2(k) && m < Pow2(k)
    ensures BitAnd(y, Pow2(k) - 1 - m) == y - BitAnd(y, m)
    decreases k
  {
    if k > 0 {
      var h := Pow2(k - 1);
      assert y / 2 < h && m / 2 < h;
      AndWithComplement(y / 2, m / 2, k - 1);
      var c := Pow2(k) - 1 - m;
      assert c / 2 == h - 1 - m / 2 && c % 2 == 1 - m % 2;
      AndUnfolds(y, c);
      AndUnfolds(y, m);
    }
  }

  lemma {:induction false} Pow2Monotone(a: nat, b: nat)
    requires a <= b
    ensures Pow2(a) <= Pow2(b)
    decreases b
  {
    if a < b {
      Pow2Monotone(a, b - 1);
    }
  }

  /** Masking with a power of two minus one is the remainder. */
  lemma {:induction false} LowBits(x: nat, k: nat)
    ensures BitAnd(x, Pow2(k) - 1) == x % Pow2(k)
    decreases k
  {
    if k > 0 {
      var h := Pow2(k - 1);
      LowBits(x / 2, k - 1);
      RemainderOfDouble(x, h);
      AndUnfolds(x, 2 * h - 1);
      assert (2 * h - 1) / 2 == h - 1;
    }
  }

  /** Every alignment is a power of two. */
  lemma AlignmentIsPower(s: nat) returns (k: nat)
    requires IsAlignment(s)
    ensures k < 6 && s == Pow2(k)
  {
    k := if s == 1 then 0 else if s == 2 then 1 else if s == 4 then 2 else if s == 8 then 3 else if s == 16 then 4 else 5;
    assert Pow2(2) == 4 && Pow2(3) == 8 && Pow2(4) == 2 * Pow2(3) && Pow2(5) == 2 * Pow2(4);
  }

  lemma MaskIsRemainder(x: nat, s: nat)
    requires IsAlignment(s)
    ensures BitAnd(x, s - 1) == x % s
  {
    var k := AlignmentIsPower(s);
    LowBits(x, k);
  }

  // ---------- padding ----------

  predicate Aligned(x: int, s: nat)
    requires s > 0
  {
    x % s == 0
  }

  /** For every power of two that a size can be, PaddingBytes is the least padding that makes the size divisible by it. */
  lemma PaddingIsLeast(size: nat, k: nat)
    requires k < 64
    ensures var s := Pow2(k);
            && PaddingBytes(size, s) < s
            && Aligned(size + PaddingBytes(size, s), s)
            && forall t :: size <= t < size + PaddingBytes(size, s) ==> !Aligned(t, s)
  {
    hide BitAnd, Pow2, Aligned;
    var s, negated := Pow2(k), (Complement64(size) + 1) % TWO_64;
    LowBits(negated, k);
    NegationModulus(size);
    DividesTwo64(k);
    NegationPads(size, s, Pow2(64 - k), (size + negated) / TWO_64, negated / s, negated % s);
  }

  /** The same for the alignments that are let through. */
  lemma PaddingOfAlignment(size: nat, s: nat)
    requires IsAlignment(s)
    ensures PaddingBytes(size, s) < s
    ensures Aligned(size + PaddingBytes(size, s), s)
    ensures forall t :: size <= t < size + PaddingBytes(size, s) ==> !Aligned(t, s)
  {
    hide PaddingBytes, Aligned, Pow2;
    var k := AlignmentIsPower(s);
    PaddingIsLeast(size, k);
  }

  lemma NegationModulus(size: nat)
    ensures (size + (Complement64(size) + 1) % TWO_64) % TWO_64 == 0
  {
  }

  lemma {:induction false} Pow2Product(a: nat, b: nat)
    ensures Pow2(a) * Pow2(b) == Pow2(a + b)
    decreases a
  {
    if a > 0 {
      Pow2Product(a - 1, b);
      assert Pow2(a) * Pow2(b) == 2 * (Pow2(a - 1) * Pow2(b));
    }
  }

  lemma DividesTwo64(k: nat)
    requires k <= 64
    ensures Pow2(k) * Pow2(64 - k) == TWO_64
  {
    hide Pow2, Pow256;
    Pow2Product(k, 64 - k);
    Pow2Bytes(8);
    Pow256Values();
  }

  /** If s divides m, adding x's negation modulo m, taken modulo s, completes x to a multiple of s. */
  lemma NegationPads(x: nat, s: nat, c: int, k: int, j: int, p: nat)
    requires 0 <= p < s && x + (s * j + p) == (s * c) * k
    ensures Aligned(x + p, s)
    ensures forall t :: x <= t < x + p ==> !Aligned(t, s)
  {
    var q := c * k - j;
    assert x + p == s * q by {
      assert (s * c) * k == s * (c * k);
      assert s * (c * k) - s * j == s * q;
    }
    ModUnique(x + p, s, q, 0);
    forall t | x <= t < x + p
      ensures !Aligned(t, s)
    {
      assert s * (q - 1) == s * q - s;
      ModUnique(t, s, q - 1, s - (x + p - t));
    }
  }

  lemma AlignedPlus(x: nat, s: nat)
    requires s > 0 && Aligned(x, s)
    ensures Aligned(x + s, s)
  {
    assert x + s == s * (x / s + 1) + 0;
    ModUnique(x + s, s, x / s + 1, 0);
  }

  /** No padding is added where the size is aligned already. */
  lemma AlignedNeedsNoPadding(size: nat, s: nat)
    requires IsAlignment(s) && Aligned(size, s)
    ensures PaddingBytes(size, s) == 0
  {
    PaddingOfAlignment(size, s);
  }
}
