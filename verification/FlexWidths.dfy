/** FlexBuffers: how many bytes a number, or an offset that is yet to be written, takes. */
module FlexWidths {
  import opened Bytes
  import opened Alignment

  /** BIT_WIDTH_8 to BIT_WIDTH_64. */
  type BitWidth = w: nat | w < 4

  /** 1 << bit_width. */
  function ByteWidth(w: BitWidth): (b: nat)
    ensures b == 1 || b == 2 || b == 4 || b == 8
  {
    if w == 0 then 1 else if w == 1 then 2 else if w == 2 then 4 else 8
  }

  function MaxWidth(a: BitWidth, b: BitWidth): BitWidth {
    if a >= b then a else b
  }

  // ---------- bits ----------

  /** The test of the macro: no bit at or above `bits` is set. */
  predicate HighBitsClear(u: nat, bits: nat) {
    BitAnd(u, Complement64(Pow2(bits) - 1)) == 0
  }

  lemma HighBitsClearMeans(u: nat, bits: nat)
    requires u < TWO_64 && bits < 64
    ensures HighBitsClear(u, bits) <==> u < Pow2(bits)
  {
    hide BitAnd, Pow2, Pow256;
    Pow2Bytes(8);
    Pow256Values();
    var m := Pow2(bits) - 1;
    Pow2Monotone(bits, 64);
    assert m < TWO_64;
    assert Complement64(m) == Pow2(64) - 1 - m by { SmallModulus(m); }
    AndWithComplement(u, m, 64);
    LowBits(u, bits);
    RemainderSmall(u, Pow2(bits));
  }

  lemma SmallModulus(m: nat)
    requires m < TWO_64
    ensures m % TWO_64 == m
  {
  }

  lemma RemainderSmall(u: nat, m: nat)
    requires m > 0
    ensures u - u % m == 0 <==> u < m
  {
    if u < m {
      ModUnique(u, m, 0, u);
    }
  }

  // ---------- the width of a number ----------

  function WidthU(u: nat): BitWidth {
    if HighBitsClear(u, 8) then 0
    else if HighBitsClear(u, 16) then 1
    else if HighBitsClear(u, 32) then 2
    else 3
  }

  function WidthI(i: int): BitWidth {
    var u := Wrap64(2 * Wrap64(i));
    WidthU(if i >= 0 then u else Complement64(u))
  }

  predicate FitsU(u: nat, w: BitWidth) {
    u < Pow256(ByteWidth(w))
  }

  predicate FitsI(i: int, w: BitWidth) {
    var half := Pow256(ByteWidth(w)) / 2;
    -half <= i < half
  }

  lemma WidthsAreBytes()
    ensures Pow2(8) == 0x100 && Pow2(16) == 0x1_0000 && Pow2(32) == 0x1_0000_0000
    ensures Pow256(1) == 0x100 && Pow256(2) == 0x1_0000 && Pow256(4) == 0x1_0000_0000 && Pow256(8) == TWO_64
  {
    Pow256Values();
    Pow2Bytes(1);
    Pow2Bytes(2);
    Pow2Bytes(4);
  }

  /** WidthU is the least width that holds the number. */
  lemma WidthUIsLeast(u: nat, w: BitWidth)
    requires u < TWO_64
    ensures FitsU(u, w) <==> WidthU(u) <= w
  {
    hide HighBitsClear, Pow2, Pow256;
    WidthsAreBytes();
    HighBitsClearMeans(u, 8);
    HighBitsClearMeans(u, 16);
    HighBitsClearMeans(u, 32);
  }

  lemma DoubledBits(i: int)
    requires -TWO_63 <= i < TWO_63
    ensures var u := Wrap64(2 * Wrap64(i));
            (if i >= 0 then u == 2 * i else Complement64(u) == -2 * i - 1)
  {
    if i >= 0 {
      ModUnique(i, TWO_64, 0, i);
      ModUnique(2 * i, TWO_64, 0, 2 * i);
    } else {
      ModUnique(i, TWO_64, -1, i + TWO_64);
      ModUnique(2 * (i + TWO_64), TWO_64, 1, 2 * i + TWO_64);
      SmallModulus(2 * i + TWO_64);
    }
  }

  /** WidthI is the least width whose sign-extended value is the number. */
  lemma WidthIIsLeast(i: int, w: BitWidth)
    requires -TWO_63 <= i < TWO_63
    ensures FitsI(i, w) <==> WidthI(i) <= w
  {
    hide WidthU, Pow256, Wrap64, Complement64;
    DoubledBits(i);
    var u := if i >= 0 then 2 * i else -2 * i - 1;
    WidthUIsLeast(u, w);
    WidthsAreBytes();
  }

  // ---------- the width of an offset ----------

  /** Where element number `elem` of a vector of this width would be written, and its distance to `target`. */
  function TrialOffset(bufSize: nat, target: nat, elem: nat, byteWidth: nat): (d: nat)
    requires target <= bufSize && byteWidth > 0
  {
    bufSize + PaddingBytes(bufSize, byteWidth) + elem * byteWidth - target
  }

  /** The width of a relative offset depends on where it is written, and that on the width. */
  predicate SelfConsistent(bufSize: nat, target: nat, elem: nat, w: BitWidth)
    requires target <= bufSize
  {
    WidthU(TrialOffset(bufSize, target, elem, ByteWidth(w))) == w
  }

  lemma PaddingOf(bufSize: nat, w: BitWidth)
    ensures PaddingBytes(bufSize, ByteWidth(w)) < ByteWidth(w)
  {
    PaddingOfAlignment(bufSize, ByteWidth(w));
  }

  /** A wider element needs at least as much padding. */
  lemma PaddingMonotone(bufSize: nat, w: BitWidth)
    requires w < 3
    ensures PaddingBytes(bufSize, ByteWidth(w)) <= PaddingBytes(bufSize, ByteWidth(w + 1))
  {
    var a, b := ByteWidth(w), ByteWidth(w + 1);
    PaddingOfAlignment(bufSize, a);
    PaddingOfAlignment(bufSize, b);
    var end := bufSize + PaddingBytes(bufSize, b);
    assert end % b == 0;
    assert end == a * (2 * (end / b));
    ModUnique(end, a, 2 * (end / b), 0);
    assert Aligned(end, a);
  }

  lemma OffsetMonotone(bufSize: nat, target: nat, elem: nat, w: BitWidth)
    requires target <= bufSize && w < 3
    ensures TrialOffset(bufSize, target, elem, ByteWidth(w)) <= TrialOffset(bufSize, target, elem, ByteWidth(w + 1))
  {
    hide PaddingBytes;
    PaddingMonotone(bufSize, w);
    assert elem * ByteWidth(w) <= elem * ByteWidth(w + 1);
  }

  lemma WidthUMonotone(a: nat, b: nat)
    requires a <= b < TWO_64
    ensures WidthU(a) <= WidthU(b)
  {
    WidthUIsLeast(a, WidthU(b));
    WidthUIsLeast(b, WidthU(b));
    hide WidthU;
  }

  /** The trial positions are 64-bit numbers. */
  predicate Addressable(bufSize: nat, elem: nat) {
    bufSize + 8 + 8 * elem < TWO_64
  }

  lemma TrialsAddressable(bufSize: nat, target: nat, elem: nat, w: BitWidth)
    requires target <= bufSize && Addressable(bufSize, elem)
    ensures TrialOffset(bufSize, target, elem, ByteWidth(w)) < TWO_64
  {
    hide PaddingBytes;
    PaddingOf(bufSize, w);
    assert elem * ByteWidth(w) <= 8 * elem;
  }

  /** The first width that agrees with itself; the code asserts that there is one. */
  function OffsetWidth(bufSize: nat, target: nat, elem: nat): BitWidth
    requires target <= bufSize
  {
    if SelfConsistent(bufSize, target, elem, 0) then 0
    else if SelfConsistent(bufSize, target, elem, 1) then 1
    else if SelfConsistent(bufSize, target, elem, 2) then 2
    else 3
  }

  lemma NextWidth(bufSize: nat, target: nat, elem: nat, w: BitWidth)
    requires target <= bufSize && Addressable(bufSize, elem) && w < 3
    requires WidthU(TrialOffset(bufSize, target, elem, ByteWidth(w))) > w
    ensures WidthU(TrialOffset(bufSize, target, elem, ByteWidth(w + 1))) > w
  {
    hide TrialOffset, WidthU;
    TrialsAddressable(bufSize, target, elem, w + 1);
    OffsetMonotone(bufSize, target, elem, w);
    WidthUMonotone(TrialOffset(bufSize, target, elem, ByteWidth(w)), TrialOffset(bufSize, target, elem, ByteWidth(w + 1)));
  }

  /** The search always succeeds: the distance, and with it the width it needs, only grows with the trial width. */
  lemma WidthSearchSucceeds(bufSize: nat, target: nat, elem: nat)
    requires target <= bufSize && Addressable(bufSize, elem)
    ensures SelfConsistent(bufSize, target, elem, OffsetWidth(bufSize, target, elem))
  {
    hide TrialOffset, WidthU;
    if !SelfConsistent(bufSize, target, elem, 0) {
      NextWidth(bufSize, target, elem, 0);
      if !SelfConsistent(bufSize, target, elem, 1) {
        NextWidth(bufSize, target, elem, 1);
        if !SelfConsistent(bufSize, target, elem, 2) {
          NextWidth(bufSize, target, elem, 2);
        }
      }
    }
  }

  /** The loop of ElemWidth over the byte widths 1, 2, 4 and 8; it never falls through. */
  method FindOffsetWidth(bufSize: nat, target: nat, elem: nat) returns (w: BitWidth)
    requires target <= bufSize && Addressable(bufSize, elem)
    ensures w == OffsetWidth(bufSize, target, elem) && SelfConsistent(bufSize, target, elem, w)
  {
    hide SelfConsistent, OffsetWidth;
    WidthSearchSucceeds(bufSize, target, elem);
    w := 0;
    while true
      invariant !(exists v: BitWidth :: v < w && SelfConsistent(bufSize, target, elem, v))
      invariant w <= OffsetWidth(bufSize, target, elem)
      decreases 4 - w
    {
      if SelfConsistent(bufSize, target, elem, w) {
        FirstConsistent(bufSize, target, elem, w);
        return;
      }
      NotConsistent(bufSize, target, elem, w);
      w := w + 1;
    }
  }

  lemma FirstConsistent(bufSize: nat, target: nat, elem: nat, w: BitWidth)
    requires target <= bufSize && SelfConsistent(bufSize, target, elem, w)
    requires forall v: BitWidth :: v < w ==> !SelfConsistent(bufSize, target, elem, v)
    ensures w == OffsetWidth(bufSize, target, elem)
  {
    hide SelfConsistent;
  }

  lemma NotConsistent(bufSize: nat, target: nat, elem: nat, w: BitWidth)
    requires target <= bufSize && !SelfConsistent(bufSize, target, elem, w)
    requires SelfConsistent(bufSize, target, elem, OffsetWidth(bufSize, target, elem))
    requires w <= OffsetWidth(bufSize, target, elem)
    ensures w < OffsetWidth(bufSize, target, elem)
  {
  }

  // ---------- widening ----------

  lemma TrialBounds(bufSize: nat, target: nat, elem: nat, w: BitWidth)
    requires target <= bufSize
    ensures elem * ByteWidth(w) <= TrialOffset(bufSize, target, elem, ByteWidth(w))
    ensures TrialOffset(bufSize, target, elem, ByteWidth(w)) < bufSize - target + ByteWidth(w) + elem * ByteWidth(w)
    ensures bufSize - target <= TrialOffset(bufSize, target, elem, ByteWidth(w))
  {
    hide PaddingBytes;
    PaddingOf(bufSize, w);
  }

  /** An offset that fits where it was tried still fits when the whole vector is made wider. */
  lemma WiderFits(bufSize: nat, target: nat, elem: nat, w: BitWidth, wider: BitWidth)
    requires target <= bufSize && Addressable(bufSize, elem) && w <= wider
    requires FitsU(TrialOffset(bufSize, target, elem, ByteWidth(w)), w)
    ensures FitsU(TrialOffset(bufSize, target, elem, ByteWidth(wider)), wider)
  {
    hide TrialOffset, Pow256;
    WidthsAreBytes();
    TrialBounds(bufSize, target, elem, w);
    TrialBounds(bufSize, target, elem, wider);
    TrialsAddressable(bufSize, target, elem, wider);
    if w < wider < 3 {
      assert elem * ByteWidth(wider) <= 4 * (elem * ByteWidth(w));
    }
  }

  /** The same offset stored at an earlier place of the vector is smaller. */
  lemma EarlierFits(bufSize: nat, target: nat, elem: nat, actual: nat, w: BitWidth)
    requires target <= bufSize && actual <= elem
    requires FitsU(TrialOffset(bufSize, target, elem, ByteWidth(w)), w)
    ensures FitsU(TrialOffset(bufSize, target, actual, ByteWidth(w)), w)
  {
    hide PaddingBytes, Pow256;
    assert actual * ByteWidth(w) <= elem * ByteWidth(w);
  }

  /**
   Whatever width at least as large as the one found for an offset the vector ends up with, and wherever at or
   before the trial index the offset is written: it fits. The assertion in WriteOffset never fails.
   */
  lemma ChosenWidthFits(bufSize: nat, target: nat, elem: nat, actual: nat, wider: BitWidth)
    requires target <= bufSize && Addressable(bufSize, elem) && actual <= elem
    requires OffsetWidth(bufSize, target, elem) <= wider
    ensures FitsU(TrialOffset(bufSize, target, actual, ByteWidth(wider)), wider)
  {
    hide OffsetWidth, TrialOffset, WidthU, FitsU;
    var w := OffsetWidth(bufSize, target, elem);
    WidthSearchSucceeds(bufSize, target, elem);
    TrialsAddressable(bufSize, target, elem, w);
    WidthUIsLeast(TrialOffset(bufSize, target, elem, ByteWidth(w)), w);
    WiderFits(bufSize, target, elem, w, wider);
    EarlierFits(bufSize, target, elem, actual, wider);
  }
}
