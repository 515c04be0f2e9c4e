/** What CreateVector writes can be read back: every element lands where the reader looks, in a width that holds it. */
module FlexVectors {
  import opened Wrappers
  import opened Bytes
  import opened Alignment
  import opened TableReader
  import opened FlexWidths
  import opened FlexModel
  import opened FlexReader

  /** No buffer reaches this size, so that 64-bit positions do not wrap around. */
  const MEMORY := 0x100_0000_0000_0000

  // ---------- values on the stack ----------

  /** A value on the stack stands for a tree. */
  ghost predicate Holds(buf: Buffer, v: StackValue, t: Flex) {
    && v.kind == KindOf(t)
    && match t
       case FNull => true
       case FBool(b) => v.bits == if b then 1 else 0
       case FInt(i) => -TWO_63 <= i < TWO_63 && v.bits == Wrap64(i) && FitsI(i, v.minWidth)
       case FUInt(u) => v.bits == u && FitsU(u, v.minWidth)
       case _ => v.bits <= |buf| && ObjectReads(buf, v.bits, ByteWidth(v.minWidth), t)
  }

  predicate HoldsKey(buf: Buffer, v: StackValue, key: seq<byte>) {
    v.kind == FBT_KEY && v.bits <= |buf| && KeyAt(buf, v.bits) == Value(key)
  }

  lemma HoldsStays(buf: Buffer, x: Buffer, v: StackValue, t: Flex)
    requires Holds(buf, v, t)
    ensures Holds(buf + x, v, t)
  {
    hide ObjectReads;
    if !IsInline(KindOf(t)) {
      ObjectStays(buf, x, v.bits, ByteWidth(v.minWidth), t);
    }
  }

  lemma HoldsKeyStays(buf: Buffer, x: Buffer, v: StackValue, key: seq<byte>)
    requires HoldsKey(buf, v, key)
    ensures HoldsKey(buf + x, v, key)
  {
    KeyStays(buf, x, v.bits);
  }

  lemma PrefixSplit(buf: Buffer, r: Buffer)
    requires buf <= r
    ensures r == buf + r[|buf|..]
  {
  }

  // ---------- scalars that were written ----------

  /** The bytes of a number of this width are at this position. */
  predicate NumberAt(buf: Buffer, pos: nat, v: nat, w: BitWidth) {
    pos + ByteWidth(w) <= |buf| && buf[pos..pos + ByteWidth(w)] == LE(v, ByteWidth(w))
  }

  lemma NumberReads(buf: Buffer, pos: nat, v: nat, w: BitWidth)
    requires NumberAt(buf, pos, v, w)
    ensures ReadScalar(buf, pos, Picked(ByteWidth(w))) == Value(v % Pow256(ByteWidth(w)))
    ensures FitsU(v, w) ==> ReadUInt64(buf, pos, ByteWidth(w)) == Value(v)
  {
    hide LE, FromLE, Pow256;
    ReadsBack(v, ByteWidth(w));
    if FitsU(v, w) {
      ReadsBackExactly(v, ByteWidth(w));
    }
  }

  /** A negative number survives being cut to a width that fits it. */
  lemma SignedReads(buf: Buffer, pos: nat, i: int, w: BitWidth)
    requires -TWO_63 <= i < TWO_63 && FitsI(i, w) && NumberAt(buf, pos, Wrap64(i), w)
    ensures ReadInt64(buf, pos, ByteWidth(w)) == Value(i)
  {
    hide NumberAt, Pow256, ReadScalar;
    NumberReads(buf, pos, Wrap64(i), w);
    CutSigned(i, w);
  }

  lemma CutSigned(i: int, w: BitWidth)
    requires -TWO_63 <= i < TWO_63 && FitsI(i, w)
    ensures SignExtended(Wrap64(i) % Pow256(ByteWidth(w)), ByteWidth(w)) == i
  {
    hide Pow256;
    WidthsAreBytes();
    var m := Pow256(ByteWidth(w));
    var u := if i < 0 then i + TWO_64 else i;
    ModUnique(i, TWO_64, if i < 0 then -1 else 0, u);
    var r := if i < 0 then i + m else i;
    WrapMultiple(w);
    assert u == m * (if i < 0 then TWO_64 / m - 1 else 0) + r;
    ModUnique(u, m, if i < 0 then TWO_64 / m - 1 else 0, r);
  }

  lemma WrapMultiple(w: BitWidth)
    ensures Pow256(ByteWidth(w)) * (TWO_64 / Pow256(ByteWidth(w))) == TWO_64
  {
    WidthsAreBytes();
  }

  /** A written value reads as the tree that it holds. */
  lemma WrittenReads(buf: Buffer, pos: nat, v: StackValue, w: BitWidth, parent: BitWidth, t: Flex)
    requires Holds(buf, v, t) && NumberAt(buf, pos, Payload(v, pos), w)
    requires if IsInline(v.kind) then v.minWidth <= w else v.bits <= pos && FitsU(pos - v.bits, w)
    ensures Reads(buf, Reference(pos, ByteWidth(w), PackedType(StoredWidth(v, parent), v.kind)), t)
  {
    hide NumberAt, ObjectReads, Pow256, ReadScalar, Wrap64, FitsI;
    WidthsAreBytes();
    NumberReads(buf, pos, Payload(v, pos), w);
    match t
    case FInt(i) =>
      WiderSigned(i, v.minWidth, w);
      SignedReads(buf, pos, i, w);
    case _ =>
  }

  lemma WiderSigned(i: int, w: BitWidth, wider: BitWidth)
    requires FitsI(i, w) && w <= wider
    ensures FitsI(i, wider)
  {
    hide Pow256;
    WidthsAreBytes();
  }

  // ---------- all elements ----------

  lemma {:induction false} ElementWritten(buf: Buffer, elems: seq<StackValue>, w: BitWidth, k: nat)
    requires k < |elems|
    ensures NumberAt(WriteAll(buf, elems, ByteWidth(w)), |buf| + k * ByteWidth(w), Payload(elems[k], |buf| + k * ByteWidth(w)), w)
    decreases |elems|
  {
    hide LE, Payload;
    var n, bw := |elems| - 1, ByteWidth(w);
    var before := WriteAll(buf, elems[..n], bw);
    if k < n {
      ElementWritten(buf, elems[..n], w, k);
      assert elems[..n][k] == elems[k];
      NumberStays(before, LE(Payload(elems[n], |before|), bw), |buf| + k * bw, Payload(elems[k], |buf| + k * bw), w);
    } else {
      JustWritten(before, Payload(elems[n], |before|), w);
    }
  }

  lemma JustWritten(buf: Buffer, v: nat, w: BitWidth)
    ensures NumberAt(buf + LE(v, ByteWidth(w)), |buf|, v, w)
  {
    hide LE;
  }

  lemma NumberStays(buf: Buffer, x: Buffer, pos: nat, v: nat, w: BitWidth)
    requires NumberAt(buf, pos, v, w)
    ensures NumberAt(buf + x, pos, v, w)
  {
    assert (buf + x)[pos..pos + ByteWidth(w)] == buf[pos..pos + ByteWidth(w)];
  }

  lemma {:induction false} ElemWidthBelow(bufSize: nat, elems: seq<StackValue>, step: nat, prefix: nat, k: nat)
    requires k < |elems|
    ensures ElemWidth(elems[k], bufSize, k * step + prefix) <= ElemsWidth(bufSize, elems, step, prefix)
    decreases |elems|
  {
    hide ElemWidth;
    if k < |elems| - 1 {
      ElemWidthBelow(bufSize, elems[..|elems| - 1], step, prefix, k);
    }
  }

  /** The offsets of the elements lie in the buffer. */
  predicate InBuffer(buf: Buffer, v: StackValue) {
    !IsInline(v.kind) ==> v.bits <= |buf|
  }

  /** The width of the vector holds what is written for element k. */
  lemma ElementFits(buf: Buffer, elems: seq<StackValue>, step: nat, keys: Option<StackValue>, k: nat)
    requires k < |elems| && 1 <= step <= 2 && InBuffer(buf, elems[k]) && |buf| < MEMORY && |elems| < MEMORY
    ensures var w, v := VectorWidth(|buf|, elems, step, keys), elems[k];
            var pos := |AlignTo(buf, w)| + (PrefixElems(keys) + k) * ByteWidth(w);
            if IsInline(v.kind) then v.minWidth <= w else v.bits <= pos && FitsU(pos - v.bits, w)
  {
    hide OffsetWidth, FitsU, WidthU, ElemsWidth, PaddingBytes;
    var w, prefix, v := VectorWidth(|buf|, elems, step, keys), PrefixElems(keys), elems[k];
    ElemWidthBelow(|buf|, elems, step, prefix, k);
    if !IsInline(v.kind) {
      assert k * step <= 2 * k && k <= k * step;
      ChosenWidthFits(|buf|, v.bits, k * step + prefix, prefix + k, w);
    }
  }

  /** Everything the reader needs to know about a vector at position p with elements of width w. */
  ghost predicate VectorAt(buf: Buffer, p: nat, w: BitWidth, elems: seq<StackValue>) {
    && ByteWidth(w) <= p && NumberAt(buf, p - ByteWidth(w), |elems|, w) && FitsU(|elems|, w)
    && forall k :: 0 <= k < |elems| ==> ElementOk(buf, p, w, elems[k], k)
  }

  predicate ElementOk(buf: Buffer, p: nat, w: BitWidth, v: StackValue, k: nat) {
    var pos := p + k * ByteWidth(w);
    && NumberAt(buf, pos, Payload(v, pos), w)
    && if IsInline(v.kind) then v.minWidth <= w else v.bits <= pos && FitsU(pos - v.bits, w)
  }

  ghost predicate TypesAt(buf: Buffer, p: nat, w: BitWidth, elems: seq<StackValue>) {
    var types := p + |elems| * ByteWidth(w);
    && types + |elems| <= |buf|
    && forall k :: 0 <= k < |elems| ==> buf[types + k] == PackedType(StoredWidth(elems[k], w), elems[k].kind)
  }

  lemma LengthFits(buf: Buffer, elems: seq<StackValue>, step: nat, keys: Option<StackValue>)
    requires |elems| < MEMORY
    ensures FitsU(|elems|, VectorWidth(|buf|, elems, step, keys))
  {
    hide WidthU, FitsU, ElemsWidth, ElemWidth;
    WidthUIsLeast(|elems|, VectorWidth(|buf|, elems, step, keys));
  }

  lemma HeaderLength(buf: Buffer, len: nat, w: BitWidth, keys: Option<StackValue>)
    ensures |VectorHeader(buf, len, w, keys)| == |AlignTo(buf, w)| + PrefixElems(keys) * ByteWidth(w)
    ensures NumberAt(VectorHeader(buf, len, w, keys), |VectorHeader(buf, len, w, keys)| - ByteWidth(w), len, w)
  {
    hide LE, AlignTo;
  }

  /** CreateVector writes a vector that can be read. */
  lemma CreateVectorLands(buf: Buffer, elems: seq<StackValue>, step: nat, typed: bool, keys: Option<StackValue>)
    requires 1 <= step <= 2 && |buf| < MEMORY && |elems| < MEMORY && forall v <- elems :: InBuffer(buf, v)
    ensures var (r, vec) := CreateVector(buf, elems, step, typed, keys);
            VectorAt(r, vec.bits, vec.minWidth, elems) && (!typed ==> TypesAt(r, vec.bits, vec.minWidth, elems))
  {
    hide VectorWidth, AlignTo, WriteKeys, VectorHeader, WriteAll, FitsU, NumberAt, InBuffer, Payload, StoredWidth;
    var w := VectorWidth(|buf|, elems, step, keys);
    var header := VectorHeader(buf, |elems|, w, keys);
    var data := WriteAll(header, elems, ByteWidth(w));
    var (r, vec) := CreateVector(buf, elems, step, typed, keys);
    HeaderLength(buf, |elems|, w, keys);
    LengthFits(buf, elems, step, keys);
    HeaderStays(header, data, r, |elems|, w);
    forall k | 0 <= k < |elems|
      ensures ElementOk(r, |header|, w, elems[k], k)
    {
      assert elems[k] in elems;
      ElementFits(buf, elems, step, keys, k);
      ElementWritten(header, elems, w, k);
      PrefixSplit(data, r);
      NumberStays(data, r[|data|..], |header| + k * ByteWidth(w), Payload(elems[k], |header| + k * ByteWidth(w)), w);
      assert |AlignTo(buf, w)| + (PrefixElems(keys) + k) * ByteWidth(w) == |header| + k * ByteWidth(w);
    }
  }

  lemma HeaderStays(header: Buffer, data: Buffer, r: Buffer, len: nat, w: BitWidth)
    requires ByteWidth(w) <= |header| && NumberAt(header, |header| - ByteWidth(w), len, w) && header <= data <= r
    ensures NumberAt(r, |header| - ByteWidth(w), len, w)
  {
    PrefixSplit(header, r);
    NumberStays(header, r[|header|..], |header| - ByteWidth(w), len, w);
  }

  // ---------- untyped vectors ----------

  lemma SizeReads(buf: Buffer, p: nat, w: BitWidth, elems: seq<StackValue>)
    requires VectorAt(buf, p, w, elems)
    ensures SizeAt(buf, p, ByteWidth(w)) == Value(|elems|)
  {
    hide NumberAt, FitsU, ElementOk;
    NumberReads(buf, p - ByteWidth(w), |elems|, w);
  }

  /** Behind the end of a vector there is no element; the source returns a null there. */
  lemma NoElementBehind(buf: Buffer, p: nat, w: BitWidth, elems: seq<StackValue>, k: nat)
    requires VectorAt(buf, p, w, elems) && k >= |elems|
    ensures ElementAt(buf, p, ByteWidth(w), k) == Value(None)
  {
    hide NumberAt, ReadScalar, FitsU;
    NumberReads(buf, p - ByteWidth(w), |elems|, w);
  }

  /** Element k of an untyped vector reads as the tree that it holds. */
  lemma ElementReads(buf: Buffer, p: nat, w: BitWidth, elems: seq<StackValue>, k: nat, t: Flex)
    requires VectorAt(buf, p, w, elems) && TypesAt(buf, p, w, elems) && k < |elems| && Holds(buf, elems[k], t)
    ensures ElementAt(buf, p, ByteWidth(w), k).Value? && ElementAt(buf, p, ByteWidth(w), k).value.Some?
    ensures Reads(buf, ElementAt(buf, p, ByteWidth(w), k).value.value, t)
  {
    hide NumberAt, FitsU, Holds, Reads, Payload, StoredWidth, SizeAt;
    SizeReads(buf, p, w, elems);
    assert ElementOk(buf, p, w, elems[k], k);
    WrittenReads(buf, p + k * ByteWidth(w), elems[k], w, w, t);
    ByteReads(buf, p + |elems| * ByteWidth(w) + k);
  }

  lemma ByteReads(buf: Buffer, pos: nat)
    requires pos < |buf|
    ensures ReadScalar(buf, pos, 1) == Value(buf[pos])
  {
    assert buf[pos..pos + 1] == [buf[pos]];
    assert FromLE([buf[pos]]) == buf[pos];
  }

  /** A vector that was created reads as the vector of what its elements hold. */
  lemma VectorReads(buf: Buffer, elems: seq<StackValue>, items: seq<Flex>)
    requires |elems| == |items| && |buf| < MEMORY && |elems| < MEMORY
    requires forall k :: 0 <= k < |elems| ==> Holds(buf, elems[k], items[k])
    ensures var (r, vec) := CreateVector(buf, elems, 1, false, None);
            Holds(r, vec, FVector(items))
  {
    hide CreateVector, Holds, VectorAt, TypesAt, InBuffer, ElementAt, Reads;
    var (r, vec) := CreateVector(buf, elems, 1, false, None);
    forall v | v in elems ensures InBuffer(buf, v) {
      var k :| 0 <= k < |elems| && elems[k] == v;
      HeldInBuffer(buf, v, items[k]);
    }
    CreateVectorLands(buf, elems, 1, false, None);
    SizeReads(r, vec.bits, vec.minWidth, elems);
    PrefixSplit(buf, r);
    forall k | 0 <= k < |elems|
      ensures ElementAt(r, vec.bits, ByteWidth(vec.minWidth), k).Value?
      ensures ElementAt(r, vec.bits, ByteWidth(vec.minWidth), k).value.Some?
      ensures Reads(r, ElementAt(r, vec.bits, ByteWidth(vec.minWidth), k).value.value, items[k])
    {
      HoldsStays(buf, r[|buf|..], elems[k], items[k]);
      ElementReads(r, vec.bits, vec.minWidth, elems, k, items[k]);
    }
    VectorValue(buf, elems, 1, false, None);
    assert ObjectReads(r, vec.bits, ByteWidth(vec.minWidth), FVector(items));
    VectorHeld(r, vec, FVector(items));
  }

  lemma VectorHeld(buf: Buffer, v: StackValue, t: Flex)
    requires v.kind == KindOf(t) && !IsInline(v.kind) && v.bits <= |buf| && ObjectReads(buf, v.bits, ByteWidth(v.minWidth), t)
    ensures Holds(buf, v, t)
  {
    hide ObjectReads;
  }

  lemma VectorValue(buf: Buffer, elems: seq<StackValue>, step: nat, typed: bool, keys: Option<StackValue>)
    ensures var (r, vec) := CreateVector(buf, elems, step, typed, keys);
            && vec.kind == (if keys.Some? then FBT_MAP else if typed then FBT_VECTOR_KEY else FBT_VECTOR)
            && vec.bits <= |r| && vec.minWidth == VectorWidth(|buf|, elems, step, keys)
            && vec.bits == |AlignTo(buf, vec.minWidth)| + PrefixElems(keys) * ByteWidth(vec.minWidth)
  {
    hide VectorWidth, AlignTo;
    HeaderLength(buf, |elems|, VectorWidth(|buf|, elems, step, keys), keys);
  }

  lemma HeldInBuffer(buf: Buffer, v: StackValue, t: Flex)
    requires Holds(buf, v, t)
    ensures InBuffer(buf, v)
  {
    hide ObjectReads;
  }
}
