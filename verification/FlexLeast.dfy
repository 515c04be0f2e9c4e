/** Every vector, map and root is written with the least element width: whatever is narrower fails somewhere. */
module FlexLeast {
  import opened Wrappers
  import opened Bytes
  import opened Alignment
  import opened FlexWidths
  import opened FlexModel
  import opened FlexVectors

  // ---------- one element ----------

  /** Element number `elem` of a vector of this width starts here: behind the buffer, at a multiple of the width. */
  predicate TrialAt(bufSize: nat, elem: nat, w: BitWidth, at: int) {
    var start := at - elem * ByteWidth(w);
    bufSize <= start < bufSize + ByteWidth(w) && start % ByteWidth(w) == 0
  }

  /** The number takes exactly this width. */
  predicate Takes(u: nat, w: BitWidth) {
    FitsU(u, w) && (w > 0 ==> !FitsU(u, w - 1))
  }

  /** What rules a width out for an element: its own width, or that no offset up to it takes the width it is tried with. */
  ghost predicate TooNarrow(v: StackValue, bufSize: nat, elem: nat, w: BitWidth) {
    if IsInline(v.kind) then w < v.minWidth
    else forall u: BitWidth, at: int :: u <= w && v.bits <= at && TrialAt(bufSize, elem, u, at) ==> !Takes(at - v.bits, u)
  }

  lemma TakesIsWidthU(u: nat, w: BitWidth)
    requires u < TWO_64
    ensures Takes(u, w) <==> WidthU(u) == w
  {
    hide WidthU, FitsU;
    WidthUIsLeast(u, w);
    if w > 0 {
      WidthUIsLeast(u, w - 1);
    }
  }

  /** There is one such place for each width, and it is the one of the search. */
  lemma TrialPlace(bufSize: nat, target: nat, elem: nat, w: BitWidth, at: int)
    requires target <= bufSize
    ensures TrialAt(bufSize, elem, w, at) <==> at - target == TrialOffset(bufSize, target, elem, ByteWidth(w))
  {
    hide PaddingBytes;
    PaddingOfAlignment(bufSize, ByteWidth(w));
    var start := at - elem * ByteWidth(w);
    assert Aligned(bufSize + PaddingBytes(bufSize, ByteWidth(w)), ByteWidth(w));
    if TrialAt(bufSize, elem, w, at) {
      OneMultiple(start, bufSize + PaddingBytes(bufSize, ByteWidth(w)), ByteWidth(w), bufSize);
    }
  }

  lemma OneMultiple(a: int, b: int, m: nat, from: int)
    requires m > 0 && a % m == 0 && b % m == 0 && from <= a < from + m && from <= b < from + m
    ensures a == b
  {
    var i, j := a / m, b / m;
    assert a == m * i && b == m * j;
    assert m * i - m * j == m * (i - j);
    MulSign(m, i - j);
  }

  /** The width that an element asks for is the least that is not too narrow for it. */
  lemma ElemWidthLeast(v: StackValue, bufSize: nat, elem: nat, w: BitWidth)
    requires (!IsInline(v.kind) ==> v.bits <= bufSize) && Addressable(bufSize, elem)
    ensures w < ElemWidth(v, bufSize, elem) <==> TooNarrow(v, bufSize, elem, w)
  {
    hide TrialAt, TrialOffset, Takes, WidthU;
    if !IsInline(v.kind) {
      forall u: BitWidth, at: int | TrialAt(bufSize, elem, u, at)
        ensures at >= v.bits && (Takes(at - v.bits, u) <==> SelfConsistent(bufSize, v.bits, elem, u))
      {
        TrialPlace(bufSize, v.bits, elem, u, at);
        TrialsAddressable(bufSize, v.bits, elem, u);
        TakesIsWidthU(at - v.bits, u);
      }
      var chosen := OffsetWidth(bufSize, v.bits, elem);
      WidthSearchSucceeds(bufSize, v.bits, elem);
      var at := v.bits + TrialOffset(bufSize, v.bits, elem, ByteWidth(chosen));
      TrialPlace(bufSize, v.bits, elem, chosen, at);
      assert TrialAt(bufSize, elem, chosen, at);
    }
  }

  // ---------- vectors and maps ----------

  lemma {:induction false} ElemsWidthLeast(bufSize: nat, elems: seq<StackValue>, step: nat, prefix: nat, w: BitWidth)
    ensures w < ElemsWidth(bufSize, elems, step, prefix) <==>
            exists k :: 0 <= k < |elems| && w < ElemWidth(elems[k], bufSize, k * step + prefix)
    decreases |elems|
  {
    hide ElemWidth;
    if elems != [] {
      var n := |elems| - 1;
      ElemsWidthLeast(bufSize, elems[..n], step, prefix, w);
      assert forall k :: 0 <= k < n ==> elems[..n][k] == elems[k];
    }
  }

  /** Some element of the vector rules the width out. */
  ghost predicate SomeTooNarrow(bufSize: nat, elems: seq<StackValue>, step: nat, prefix: nat, w: BitWidth) {
    exists k :: 0 <= k < |elems| && TooNarrow(elems[k], bufSize, k * step + prefix, w)
  }

  /**
   The width of a vector is the least: a width is below it exactly when the length does not fit,
   the offset of the keys rules it out, or an element does.
   */
  lemma VectorWidthLeast(buf: seq<byte>, elems: seq<StackValue>, step: nat, keys: Option<StackValue>, w: BitWidth)
    requires 1 <= step <= 2 && |buf| < MEMORY && |elems| < MEMORY
    requires (forall v <- elems :: InBuffer(buf, v)) && (keys.Some? ==> InBuffer(buf, keys.value))
    ensures w < VectorWidth(|buf|, elems, step, keys) <==>
            || !FitsU(|elems|, w)
            || (keys.Some? && TooNarrow(keys.value, |buf|, 0, w))
            || SomeTooNarrow(|buf|, elems, step, PrefixElems(keys), w)
  {
    hide ElemWidth, ElemsWidth, TooNarrow, WidthU, FitsU;
    var prefix := PrefixElems(keys);
    WidthUIsLeast(|elems|, w);
    ElemsWidthLeast(|buf|, elems, step, prefix, w);
    if keys.Some? {
      ElemWidthLeast(keys.value, |buf|, 0, w);
    }
    forall k | 0 <= k < |elems|
      ensures w < ElemWidth(elems[k], |buf|, k * step + prefix) <==> TooNarrow(elems[k], |buf|, k * step + prefix, w)
    {
      assert InBuffer(buf, elems[k]);
      assert k * step <= 2 * k;
      ElemWidthLeast(elems[k], |buf|, k * step + prefix, w);
    }
  }

  /** Element k of the keys or values of a map is tried two places behind element k - 1, as keys and values alternate on the stack. */
  ghost predicate EveryOtherTooNarrow(bufSize: nat, elems: seq<StackValue>, prefix: nat, w: BitWidth) {
    exists k :: 0 <= k < |elems| && TooNarrow(elems[k], bufSize, k + k + prefix, w)
  }

  lemma EveryOther(bufSize: nat, elems: seq<StackValue>, prefix: nat, w: BitWidth)
    ensures SomeTooNarrow(bufSize, elems, 2, prefix, w) <==> EveryOtherTooNarrow(bufSize, elems, prefix, w)
  {
    hide TooNarrow;
    forall k | 0 <= k < |elems|
      ensures TooNarrow(elems[k], bufSize, k * 2 + prefix, w) <==> TooNarrow(elems[k], bufSize, k + k + prefix, w)
    {
      assert k * 2 + prefix == k + k + prefix;
    }
  }

  /** The two vectors of a map have the least widths for these trial places: the keys behind one number, the values behind three. */
  lemma MapWidthLeast(s: State, start: nat, w: BitWidth)
    requires CanEndMap(s, start) && |s.buf| < MEMORY && |s.stack| - start < 2 * MEMORY
    requires var ps := SortPairs(s.buf, Pairs(s.stack[start..]));
             && (forall v <- KeysOf(ps) :: InBuffer(s.buf, v)) && (forall v <- ValuesOf(ps) :: InBuffer(s.buf, v))
             && |CreateVector(s.buf, KeysOf(ps), 2, true, None).0| < MEMORY
    ensures var ps := SortPairs(s.buf, Pairs(s.stack[start..]));
            var (withKeys, keys) := CreateVector(s.buf, KeysOf(ps), 2, true, None);
            && (w < keys.minWidth <==> !FitsU(|ps|, w) || EveryOtherTooNarrow(|s.buf|, KeysOf(ps), 1, w))
            && (w < EndMap(s, start).stack[start].minWidth <==>
                  || !FitsU(|ps|, w) || TooNarrow(keys, |withKeys|, 0, w)
                  || EveryOtherTooNarrow(|withKeys|, ValuesOf(ps), 3, w))
  {
    hide SortPairs, Pairs, TooNarrow, FitsU, InBuffer, VectorWidth, VectorHeader, WriteAll, SomeTooNarrow, EveryOtherTooNarrow;
    var ps := SortPairs(s.buf, Pairs(s.stack[start..]));
    var (withKeys, keys) := CreateVector(s.buf, KeysOf(ps), 2, true, None);
    VectorWidthLeast(s.buf, KeysOf(ps), 2, None, w);
    EveryOther(|s.buf|, KeysOf(ps), 1, w);
    PrefixSplit(s.buf, withKeys);
    forall v | v in ValuesOf(ps) ensures InBuffer(withKeys, v) {
      InLonger(s.buf, withKeys, v);
    }
    KeysInBuffer(s.buf, KeysOf(ps));
    VectorWidthLeast(withKeys, ValuesOf(ps), 2, Some(keys), w);
    EveryOther(|withKeys|, ValuesOf(ps), 3, w);
  }

  lemma InLonger(buf: seq<byte>, r: seq<byte>, v: StackValue)
    requires InBuffer(buf, v) && |buf| <= |r|
    ensures InBuffer(r, v)
  {
  }

  lemma KeysInBuffer(buf: seq<byte>, elems: seq<StackValue>)
    ensures var (r, keys) := CreateVector(buf, elems, 2, true, None); InBuffer(r, keys)
  {
    hide VectorWidth, VectorHeader;
    VectorValue(buf, elems, 2, true, None);
  }

  /** The root is written with the least width, too, and its last byte says which. */
  lemma RootWidthLeast(s: State, w: BitWidth)
    requires |s.stack| == 1 && InBuffer(s.buf, s.stack[0]) && |s.buf| < MEMORY
    ensures |Finish(s)| > 0
    ensures ByteWidth(w) < Finish(s)[|Finish(s)| - 1] <==> TooNarrow(s.stack[0], |s.buf|, 0, w)
  {
    hide TooNarrow, ElemWidth, AlignTo, LE;
    ElemWidthLeast(s.stack[0], |s.buf|, 0, w);
  }

  /** The type byte of an element: its type, with the width of the vector if it is inline and of its own target otherwise. */
  lemma TypeByte(elems: seq<StackValue>, w: BitWidth, k: nat)
    requires k < |elems| && (IsInline(elems[k].kind) ==> elems[k].minWidth <= w)
    ensures PackedTypes(elems, w)[k] / 4 == elems[k].kind
    ensures PackedTypes(elems, w)[k] % 4 == if IsInline(elems[k].kind) then w else elems[k].minWidth
  {
  }

  // ---------- vectors of scalars ----------

  predicate Scalar(t: Flex) {
    t.FNull? || t.FBool? || t.FInt? || t.FUInt?
  }

  /** The number can be written in this width. */
  predicate ScalarFits(t: Flex, w: BitWidth) {
    match t
    case FInt(i) => FitsI(i, w)
    case FUInt(u) => FitsU(u, w)
    case _ => Scalar(t)
  }

  lemma {:induction false} ScalarsOnStack(s: State, t: Flex, n: nat)
    requires FlexOk(t) && t.FVector? && n <= |t.items| && forall i :: 0 <= i < |t.items| ==> Scalar(t.items[i])
    ensures var r := EmitItems(s, t, n);
            && r.buf == s.buf
            && forall k :: 0 <= k < n ==> ScalarHeld(r.stack[|s.stack| + k], t.items[k])
    decreases n
  {
    hide FlexOk, WidthU, WidthI, FitsU, FitsI;
    if n > 0 {
      var before, item := EmitItems(s, t, n - 1), t.items[n - 1];
      ScalarsOnStack(s, t, n - 1);
      ItemOk(t, n - 1);
      ScalarEmitted(before, item);
      var r := EmitItems(s, t, n);
      forall k | 0 <= k < n - 1 ensures ScalarHeld(r.stack[|s.stack| + k], t.items[k]) {
        assert r.stack[|s.stack| + k] == before.stack[|s.stack| + k];
      }
    }
  }

  lemma ItemOk(t: Flex, i: nat)
    requires FlexOk(t) && t.FVector? && i < |t.items|
    ensures FlexOk(t.items[i])
  {
  }

  /** The value on the stack asks for the least width of the number. */
  ghost predicate ScalarHeld(v: StackValue, t: Flex) {
    Scalar(t) && IsInline(v.kind) && forall w: BitWidth :: ScalarFits(t, w) <==> v.minWidth <= w
  }

  lemma ScalarEmitted(s: State, t: Flex)
    requires FlexOk(t) && Scalar(t)
    ensures var r := Emit(s, t);
            r.buf == s.buf && |r.stack| == |s.stack| + 1 && ScalarHeld(r.stack[|s.stack|], t)
  {
    hide WidthU, WidthI, FitsU, FitsI, Wrap64, ScalarFits;
    forall w: BitWidth
      ensures ScalarFits(t, w) <==> Emit(s, t).stack[|s.stack|].minWidth <= w
    {
      ScalarNeeds(t, w);
    }
  }

  lemma ScalarNeeds(t: Flex, w: BitWidth)
    requires FlexOk(t) && Scalar(t)
    ensures ScalarFits(t, w) <==> (if t.FInt? then WidthI(t.i) <= w else if t.FUInt? then WidthU(t.u) <= w else true)
  {
    hide WidthU, WidthI, FitsU, FitsI;
    if t.FInt? {
      WidthIIsLeast(t.i, w);
    } else if t.FUInt? {
      WidthUIsLeast(t.u, w);
    }
  }

  lemma VectorTop(s: State, t: Flex)
    requires FlexOk(t) && t.FVector?
    ensures var mid := EmitItems(s, t, |t.items|);
            Emit(s, t).stack[|s.stack|].minWidth == VectorWidth(|mid.buf|, mid.stack[|s.stack|..], 1, None)
  {
    hide FlexOk, VectorWidth, VectorHeader, WriteAll, EmitItems;
  }

  /** For a vector of scalars the numbers alone decide: its width holds the length and all of them, and is the least that does. */
  lemma ScalarVectorWidth(s: State, t: Flex, w: BitWidth)
    requires FlexOk(t) && t.FVector? && |s.buf| < MEMORY && |t.items| < MEMORY
    requires forall i :: 0 <= i < |t.items| ==> Scalar(t.items[i])
    ensures var r := Emit(s, t);
            r.stack[|s.stack|].minWidth <= w <==>
            FitsU(|t.items|, w) && forall i :: 0 <= i < |t.items| ==> ScalarFits(t.items[i], w)
  {
    hide FlexOk, FitsU, ScalarFits, VectorWidth, Emit, EmitItems, TooNarrow, SomeTooNarrow;
    var n := |t.items|;
    var mid := EmitItems(s, t, n);
    ScalarsOnStack(s, t, n);
    var elems := mid.stack[|s.stack|..];
    forall k | 0 <= k < n ensures ScalarHeld(elems[k], t.items[k]) {
      assert elems[k] == mid.stack[|s.stack| + k];
    }
    VectorTop(s, t);
    VectorWidthLeast(s.buf, elems, 1, None, w);
    ScalarsTooNarrow(|s.buf|, elems, t.items, w);
  }

  lemma ScalarsTooNarrow(bufSize: nat, elems: seq<StackValue>, items: seq<Flex>, w: BitWidth)
    requires |elems| == |items| && forall k :: 0 <= k < |items| ==> ScalarHeld(elems[k], items[k])
    ensures SomeTooNarrow(bufSize, elems, 1, 1, w) <==> exists k :: 0 <= k < |items| && !ScalarFits(items[k], w)
  {
    hide ScalarFits;
    forall k | 0 <= k < |items|
      ensures TooNarrow(elems[k], bufSize, k * 1 + 1, w) <==> !ScalarFits(items[k], w)
    {
      assert ScalarHeld(elems[k], items[k]);
    }
  }
}
