/** The FlexBuffers builder as the object it is: a buffer and a stack that every call changes. */
module FlexBuilder {
  import opened Wrappers
  import opened Bytes
  import opened Alignment
  import opened StringOrder
  import opened FlexWidths
  import opened FlexModel
  import opened FlexReader
  import opened FlexVectors
  import opened FlexMaps
  import opened FlexRoundTrip

  /** k elements that are `step` places apart. */
  function Stride(k: nat, step: nat): (r: nat)
    requires 1 <= step <= 2
    ensures r == k * step
  {
    if step == 1 then k else 2 * k
  }

  /** A loop from `start` in steps to the end of the stack visits n elements. */
  predicate Covers(stack: seq<StackValue>, start: nat, step: nat, n: nat) {
    && 1 <= step <= 2
    && if n == 0 then |stack| <= start else start + Stride(n - 1, step) < |stack| <= start + Stride(n, step)
  }

  /** The elements that such a loop visits. */
  function Strided(stack: seq<StackValue>, start: nat, step: nat, n: nat): (r: seq<StackValue>)
    requires Covers(stack, start, step, n)
    ensures |r| == n
  {
    seq(n, k requires 0 <= k < n => stack[start + Stride(k, step)])
  }

  class Builder {
    var buf: seq<byte>
    var stack: seq<StackValue>
    var finished: bool
    var keyPool: seq<nat>
    var stringPool: seq<PooledString>
    const shareKeys: bool
    const shareStrings: bool

    constructor (shareKeys: bool, shareStrings: bool)
      ensures Now() == Start(shareKeys, shareStrings) && !finished
    {
      this.shareKeys, this.shareStrings := shareKeys, shareStrings;
      buf, stack, finished, keyPool, stringPool := [], [], false, [], [];
    }

    function Now(): State
      reads this
    {
      State(buf, stack, keyPool, stringPool, shareKeys, shareStrings)
    }

    // ---------- scalars ----------

    method Null()
      modifies this`stack
      ensures Now() == PushValue(old(Now()), StackValue(0, FBT_NULL, 0))
    {
      stack := stack + [StackValue(0, FBT_NULL, 0)];
    }

    method Bool(b: bool)
      modifies this`stack
      ensures Now() == Emit(old(Now()), FBool(b))
    {
      stack := stack + [StackValue(if b then 1 else 0, FBT_BOOL, 0)];
    }

    method Int(i: int)
      requires -TWO_63 <= i < TWO_63
      modifies this`stack
      ensures Now() == Emit(old(Now()), FInt(i))
    {
      stack := stack + [StackValue(Wrap64(i), FBT_INT, WidthI(i))];
    }

    method UInt(u: nat)
      requires u < TWO_64
      modifies this`stack
      ensures Now() == Emit(old(Now()), FUInt(u))
    {
      stack := stack + [StackValue(u, FBT_UINT, WidthU(u))];
    }

    // ---------- keys and strings ----------

    /** Key: writes first, then looks into the pool, and takes the bytes back if they are there already. */
    method Key(str: seq<byte>) returns (sloc: nat)
      modifies this
      ensures Now() == AddKey(old(Now()), str) && sloc == stack[|stack| - 1].bits && finished == old(finished)
    {
      hide CString;
      sloc := |buf|;
      buf := buf + str + [0];
      if shareKeys {
        var found := FindInKeys(sloc);
        if found.Some? {
          buf := buf[..sloc];
          sloc := found.value;
        } else {
          keyPool := keyPool + [sloc];
        }
      }
      stack := stack + [StackValue(sloc, FBT_KEY, 0)];
    }

    method FindInKeys(sloc: nat) returns (found: Option<nat>)
      ensures found == FindKey(buf, keyPool, CString(buf, sloc))
    {
      hide CString;
      var key := CString(buf, sloc);
      for i := 0 to |keyPool|
        invariant FindKey(buf, keyPool, key) == FindKey(buf, keyPool[i..], key)
      {
        assert keyPool[i..][0] == keyPool[i] && keyPool[i..][1..] == keyPool[i + 1..];
        if CString(buf, keyPool[i]) == key {
          return Some(keyPool[i]);
        }
      }
      return None;
    }

    method String(str: seq<byte>) returns (sloc: nat)
      modifies this
      ensures Now() == AddString(old(Now()), str) && sloc == stack[|stack| - 1].bits && finished == old(finished)
    {
      hide WriteString, WidthU;
      var resetTo := |buf|;
      var w := WidthU(|str|);
      buf := WriteString(buf, str);
      sloc := |buf| - |str| - 1;
      if shareStrings {
        var found := FindInStrings(str);
        if found.Some? {
          buf := buf[..resetTo];
          sloc := found.value;
        } else {
          stringPool := stringPool + [PooledString(sloc, |str|)];
        }
      }
      stack := stack + [StackValue(sloc, FBT_STRING, w)];
    }

    method FindInStrings(str: seq<byte>) returns (found: Option<nat>)
      ensures found == FindString(buf, stringPool, str)
    {
      for i := 0 to |stringPool|
        invariant FindString(buf, stringPool, str) == FindString(buf, stringPool[i..], str)
      {
        assert stringPool[i..][0] == stringPool[i] && stringPool[i..][1..] == stringPool[i + 1..];
        if PooledBytes(buf, stringPool[i], str) {
          return Some(stringPool[i].off);
        }
      }
      return None;
    }

    // ---------- vectors ----------

    method Align(w: BitWidth)
      modifies this`buf
      ensures buf == AlignTo(old(buf), w)
    {
      buf := buf + Zeros(PaddingBytes(|buf|, ByteWidth(w)));
    }

    method Write(v: nat, byteWidth: nat)
      modifies this`buf
      ensures buf == old(buf) + LE(v, byteWidth)
    {
      buf := buf + LE(v, byteWidth);
    }

    /** WriteAny; for an offset the code asserts that it fits. */
    method WriteValue(v: StackValue, w: BitWidth)
      requires IsInline(v.kind) || (v.bits <= |buf| && FitsU(|buf| - v.bits, w))
      modifies this`buf
      ensures buf == WriteAny(old(buf), v, ByteWidth(w))
    {
      if IsInline(v.kind) {
        Write(v.bits, ByteWidth(w));
      } else {
        Write(|buf| - v.bits, ByteWidth(w));
      }
    }

    /** ElemWidth, with its search over the byte widths. */
    method MeasureElem(v: StackValue, elem: nat) returns (w: BitWidth)
      requires InBuffer(buf, v) && Addressable(|buf|, elem)
      ensures w == ElemWidth(v, |buf|, elem)
    {
      if IsInline(v.kind) {
        w := v.minWidth;
      } else {
        w := FindOffsetWidth(|buf|, v.bits, elem);
      }
    }

    /** The first loop of CreateVector: the width that all elements need. */
    method MeasureAll(start: nat, vecLen: nat, step: nat, base: BitWidth, prefix: nat) returns (w: BitWidth)
      requires Covers(stack, start, step, vecLen) && |buf| < MEMORY && vecLen < MEMORY && prefix <= 3
      requires AllInBuffer(buf, Strided(stack, start, step, vecLen))
      ensures w == MaxWidth(base, ElemsWidth(|buf|, Strided(stack, start, step, vecLen), step, prefix))
    {
      hide ElemWidth, InBuffer;
      ghost var elems, k := Strided(stack, start, step, vecLen), 0;
      var i := start;
      w := base;
      assert elems[..0] == [];
      while i < |stack|
        invariant 0 <= k <= vecLen && i == start + Stride(k, step)
        invariant w == MaxWidth(base, ElemsWidth(|buf|, elems[..k], step, prefix))
        decreases |stack| - i
      {
        assert elems[k] == stack[i] && elems[k] in elems;
        var elemWidth := MeasureElem(stack[i], i - start + prefix);
        WidthStep(|buf|, elems, step, prefix, k);
        w := MaxWidth(w, elemWidth);
        i := i + step;
        k := k + 1;
      }
      assert elems[..k] == elems;
    }

    /** The loop that writes the elements; the assertion in WriteOffset holds for each of them. */
    method WriteElements(start: nat, vecLen: nat, step: nat, w: BitWidth, ghost header: seq<byte>)
      requires Covers(stack, start, step, vecLen) && buf == header
      requires AllWritable(|header|, Strided(stack, start, step, vecLen), w)
      modifies this`buf
      ensures buf == WriteAll(header, Strided(stack, start, step, vecLen), ByteWidth(w))
    {
      hide WriteAny;
      ghost var elems, k := Strided(stack, start, step, vecLen), 0;
      var i := start;
      assert elems[..0] == [];
      while i < |stack|
        invariant 0 <= k <= vecLen && i == start + Stride(k, step)
        invariant buf == WriteAll(header, elems[..k], ByteWidth(w))
        decreases |stack| - i
      {
        assert elems[k] == stack[i];
        assert elems[..k + 1][..k] == elems[..k];
        assert Writable(|header| + k * ByteWidth(w), elems[k], w);
        WriteValue(stack[i], w);
        i := i + step;
        k := k + 1;
      }
      assert elems[..k] == elems;
    }

    /** The loop that writes the packed types of an untyped vector. */
    method WriteTypes(start: nat, vecLen: nat, step: nat, w: BitWidth)
      requires Covers(stack, start, step, vecLen)
      modifies this`buf
      ensures buf == old(buf) + PackedTypes(Strided(stack, start, step, vecLen), w)
    {
      ghost var types, k := PackedTypes(Strided(stack, start, step, vecLen), w), 0;
      var i := start;
      while i < |stack|
        invariant 0 <= k <= vecLen && i == start + Stride(k, step)
        invariant buf == old(buf) + types[..k]
        decreases |stack| - i
      {
        buf := buf + [PackedType(StoredWidth(stack[i], w), stack[i].kind)];
        i := i + step;
        k := k + 1;
      }
      assert types[..k] == types;
    }

    /** CreateVector: measure, align, header, elements, types. */
    method MakeVector(start: nat, vecLen: nat, step: nat, typed: bool, keys: Option<StackValue>) returns (vec: StackValue)
      requires Covers(stack, start, step, vecLen) && |buf| < MEMORY && vecLen < MEMORY
      requires AllInBuffer(buf, Strided(stack, start, step, vecLen))
      requires keys.Some? ==> keys.value.kind == FBT_VECTOR_KEY && keys.value.bits <= |buf|
      modifies this`buf
      ensures (buf, vec) == CreateVector(old(buf), Strided(stack, start, step, vecLen), step, typed, keys)
    {
      hide ElemsWidth, ElemWidth, WidthU, AlignTo, FitsU, WriteAll, InBuffer, PackedTypes;
      ghost var elems, before := Strided(stack, start, step, vecLen), buf;
      var width := WidthU(vecLen);
      var prefixElems := 1;
      if keys.Some? {
        KeysInBuffer(buf, keys.value);
        var keysWidth := MeasureElem(keys.value, 0);
        width := MaxWidth(width, keysWidth);
        prefixElems := prefixElems + 2;
      }
      width := MeasureAll(start, vecLen, step, width, prefixElems);
      assert width == VectorWidth(|before|, elems, step, keys);
      Align(width);
      if keys.Some? {
        KeysWritable(before, elems, step, keys);
        WriteValue(keys.value, width);
        Write(ByteWidth(keys.value.minWidth), ByteWidth(width));
      }
      Write(vecLen, ByteWidth(width));
      var vloc := |buf|;
      ghost var header := buf;
      assert header == VectorHeader(before, vecLen, width, keys);
      ElementsWritable(before, elems, step, keys);
      WriteElements(start, vecLen, step, width, header);
      if !typed {
        WriteTypes(start, vecLen, step, width);
      }
      vec := StackValue(vloc, if keys.Some? then FBT_MAP else if typed then FBT_VECTOR_KEY else FBT_VECTOR, width);
    }

    /** EndVector: what is on the stack from `start` on becomes one value. */
    method EndUntypedVector(start: nat) returns (off: nat)
      requires start <= |stack| && |buf| < MEMORY && |stack| - start < MEMORY && AllInBuffer(buf, stack[start..])
      modifies this
      ensures Now() == EndVector(old(Now()), start) && off == stack[|stack| - 1].bits && finished == old(finished)
    {
      hide CreateVector, InBuffer;
      StridedFrom(stack, start);
      var vec := MakeVector(start, |stack| - start, 1, false, None);
      stack := stack[..start] + [vec];
      off := vec.bits;
    }

    /** The sort of EndMap, in place on the stack. */
    method SortPairsFrom(start: nat)
      requires CanEndMap(Now(), start)
      modifies this`stack
      ensures stack == old(stack)[..start] + Interleaved(SortPairs(buf, Pairs(old(stack)[start..])))
    {
      hide PairLess, OnStack, SortPairs, InsertPair, KeysFrom;
      ghost var base, ps := stack[..start], Pairs(stack[start..]);
      PairsFromStack(stack, start);
      var i := (|stack| - start) / 2;
      assert ps[..i] + SortPairs(buf, ps[i..]) == ps by { SortsNothing(buf, ps, i); }
      while i > 0
        invariant 0 <= i <= |ps| && start <= |stack|
        invariant OnStack(stack, start, ps[..i] + SortPairs(buf, ps[i..])) && stack[..start] == base
      {
        i := i - 1;
        NextSorted(buf, ps, i);
        InsertAt(start, i, ps[..i], ps[i], SortPairs(buf, ps[i + 1..]));
      }
      assert ps[..0] + SortPairs(buf, ps[0..]) == SortPairs(buf, ps) by { assert ps[0..] == ps; }
      StackOfPairs(stack, start, SortPairs(buf, ps));
    }

    /** Moves the pair number i up until the next pair is larger. */
    method InsertAt(start: nat, i: nat, ghost done: seq<Pair>, ghost p: Pair, ghost sorted: seq<Pair>)
      requires |done| == i && OnStack(stack, start, done + [p] + sorted)
      modifies this`stack
      ensures |stack| == old(|stack|) && OnStack(stack, start, done + InsertPair(buf, sorted, p)) && stack[..start] == old(stack)[..start]
    {
      hide PairLess, OnStack, InsertPair;
      ghost var passed, rest := done, sorted;
      var at := start + 2 * i;
      PairOnStack(stack, start, passed, p, rest);
      while at + 2 < |stack| && !PairLess(buf, Pair(stack[at], stack[at + 1]), Pair(stack[at + 2], stack[at + 3]))
        invariant at == start + 2 * |passed| && |stack| == at + 2 + 2 * |rest|
        invariant OnStack(stack, start, passed + [p] + rest) && stack[..start] == old(stack)[..start]
        invariant passed + InsertPair(buf, rest, p) == done + InsertPair(buf, sorted, p)
        decreases |rest|
      {
        PairOnStack(stack, start, passed, p, rest);
        InsertPasses(buf, passed, p, rest);
        SwapOnStack(stack, start, passed, p, rest);
        stack := Swapped(stack, at);
        passed, rest := passed + [rest[0]], rest[1..];
        at := at + 2;
      }
      PairOnStack(stack, start, passed, p, rest);
      InsertStops(buf, p, rest);
      assert passed + [p] + rest == passed + ([p] + rest);
    }

    /** The key vector, and the map that refers to it. */
    method MakeMap(start: nat, ghost sorted: seq<Pair>) returns (vec: StackValue)
      requires start <= |stack| && stack[start..] == Interleaved(sorted) && |buf| < MEMORY && |sorted| < MEMORY
      requires AllInBuffer(buf, KeysOf(sorted)) && AllInBuffer(buf, ValuesOf(sorted))
      requires |MapVectors(buf, sorted).0| < MEMORY
      modifies this`buf
      ensures (buf, vec) == (MapVectors(old(buf), sorted).2, MapVectors(old(buf), sorted).3)
    {
      hide CreateVector, InBuffer, Covers, Strided;
      var len := (|stack| - start) / 2;
      StridedPairs(stack, start, sorted);
      ghost var before := buf;
      var keys := MakeVector(start, len, 2, true, None);
      VectorValue(before, KeysOf(sorted), 2, true, None);
      InLongerBuffer(before, buf, ValuesOf(sorted));
      vec := MakeVector(start + 1, len, 2, false, Some(keys));
    }

    /** EndMap. */
    method EndMapAt(start: nat) returns (off: nat)
      requires MapEndable(Now(), start)
      modifies this
      ensures Now() == EndMap(old(Now()), start) && off == stack[|stack| - 1].bits && finished == old(finished)
    {
      hide CreateVector, AllInBuffer, SortPairs, KeysFrom;
      ghost var held, s := stack[start..], Now();
      ghost var sorted := SortPairs(buf, Pairs(held));
      SortedInBuffer(buf, held, sorted);
      SortPairsFrom(start);
      assert stack[start..] == Interleaved(sorted);
      var vec := MakeMap(start, sorted);
      stack := stack[..start] + [vec];
      off := vec.bits;
      EndMapIs(s, start);
    }

    // ---------- whole trees ----------

    /** The calls that a caller makes for a tree. */
    method Add(t: Flex)
      requires FlexOk(t) && PoolsOk(Now()) && |Emit(Now(), t).buf| < MEMORY
      modifies this
      ensures Now() == Emit(old(Now()), t) && finished == old(finished)
      decreases t, 1
    {
      hide PoolsOk, Emit;
      EmitLeaf(Now(), t);
      match t {
        case FNull => Null();
        case FBool(b) => Bool(b);
        case FInt(i) => Int(i);
        case FUInt(u) => UInt(u);
        case FString(bytes) => var at := String(bytes);
        case FVector(items) => AddVector(t);
        case FMap(es) => AddMap(t);
      }
    }

    method AddVector(t: Flex)
      requires FlexOk(t) && t.FVector? && PoolsOk(Now()) && |Emit(Now(), t).buf| < MEMORY
      modifies this
      ensures Now() == Emit(old(Now()), t) && finished == old(finished)
      decreases t, 0
    {
      hide PoolsOk, Emit, EndVector, FlexOk, EmitItems, ItemsDelivered, InBuffer;
      ghost var s := Now();
      var start := |stack|;
      EmitVectorIs(s, t);
      NoItems(s, t);
      for i := 0 to |t.items|
        invariant Now() == EmitItems(s, t, i) && finished == old(finished)
      {
        NextItem(s, t, i);
        Add(t.items[i]);
      }
      VectorReady(s, t);
      var off := EndUntypedVector(start);
    }

    method AddMap(t: Flex)
      requires FlexOk(t) && t.FMap? && PoolsOk(Now()) && |Emit(Now(), t).buf| < MEMORY
      modifies this
      ensures Now() == Emit(old(Now()), t) && finished == old(finished)
      decreases t, 0
    {
      hide PoolsOk, Emit, EndMap, FlexOk, EmitEntries, EntriesDelivered, InBuffer, AddKey;
      ghost var s := Now();
      var start := |stack|;
      EmitMapIs(s, t);
      NoEntriesYet(s, t);
      for i := 0 to |t.entries|
        invariant Now() == EmitEntries(s, t, i) && finished == old(finished)
      {
        NextEntry(s, t, i);
        var at := Key(t.entries[i].key);
        Add(t.entries[i].value);
      }
      MapReady(s, t);
      EmitsMap(s, t);
      EndMapIs(Now(), start);
      var off := EndMapAt(start);
    }

    /** Finish: the root, its type and its width. */
    method FinishBuffer()
      requires |stack| == 1 && InBuffer(buf, stack[0]) && |buf| < MEMORY && !finished
      modifies this
      ensures buf == Finish(old(Now())) && finished
    {
      hide FitsU, OffsetWidth, AlignTo;
      ghost var before := buf;
      var w := MeasureElem(stack[0], 0);
      Align(w);
      RootWritable(before, stack[0]);
      WriteValue(stack[0], w);
      buf := buf + [PackedType(StoredWidth(stack[0], 0), stack[0].kind), ByteWidth(w)];
      finished := true;
    }
  }

  /** What WriteOffset asserts, for a value that is written at this position. */
  predicate Writable(pos: nat, v: StackValue, w: BitWidth) {
    IsInline(v.kind) || (v.bits <= pos && FitsU(pos - v.bits, w))
  }

  predicate AllInBuffer(buf: seq<byte>, vs: seq<StackValue>) {
    forall v <- vs :: InBuffer(buf, v)
  }

  lemma InLongerBuffer(buf: seq<byte>, longer: seq<byte>, vs: seq<StackValue>)
    requires AllInBuffer(buf, vs) && buf <= longer
    ensures AllInBuffer(longer, vs)
  {
  }

  lemma EndMapIs(s: State, start: nat)
    requires CanEndMap(s, start)
    ensures var (withKeys, keys, out, vec) := MapVectors(s.buf, SortPairs(s.buf, Pairs(s.stack[start..])));
            EndMap(s, start) == s.(buf := out, stack := s.stack[..start] + [vec])
  {
    hide CreateVector, SortPairs;
  }

  predicate AllWritable(at: nat, elems: seq<StackValue>, w: BitWidth) {
    forall k: nat :: k < |elems| ==> Writable(at + k * ByteWidth(w), elems[k], w)
  }

  lemma WidthStep(bufSize: nat, elems: seq<StackValue>, step: nat, prefix: nat, k: nat)
    requires k < |elems|
    ensures ElemsWidth(bufSize, elems[..k + 1], step, prefix) ==
            MaxWidth(ElemsWidth(bufSize, elems[..k], step, prefix), ElemWidth(elems[k], bufSize, k * step + prefix))
  {
    hide ElemWidth;
    assert elems[..k + 1][..k] == elems[..k];
  }

  lemma KeysInBuffer(buf: seq<byte>, keys: StackValue)
    requires keys.bits <= |buf|
    ensures InBuffer(buf, keys)
  {
  }

  lemma ElementsWritable(buf: seq<byte>, elems: seq<StackValue>, step: nat, keys: Option<StackValue>)
    requires 1 <= step <= 2 && |buf| < MEMORY && |elems| < MEMORY && AllInBuffer(buf, elems)
    ensures var w := VectorWidth(|buf|, elems, step, keys);
            AllWritable(|VectorHeader(buf, |elems|, w, keys)|, elems, w)
  {
    hide VectorWidth, VectorHeader, FitsU, InBuffer, AlignTo;
    var w := VectorWidth(|buf|, elems, step, keys);
    HeaderLength(buf, |elems|, w, keys);
    forall k: nat | k < |elems|
      ensures Writable(|VectorHeader(buf, |elems|, w, keys)| + k * ByteWidth(w), elems[k], w)
    {
      assert elems[k] in elems;
      ElementFits(buf, elems, step, keys, k);
      assert (PrefixElems(keys) + k) * ByteWidth(w) == PrefixElems(keys) * ByteWidth(w) + k * ByteWidth(w);
    }
  }

  lemma KeysWritable(buf: seq<byte>, elems: seq<StackValue>, step: nat, keys: Option<StackValue>)
    requires keys.Some? && keys.value.kind == FBT_VECTOR_KEY && keys.value.bits <= |buf| && |buf| < MEMORY
    ensures var w := VectorWidth(|buf|, elems, step, keys);
            Writable(|AlignTo(buf, w)|, keys.value, w)
  {
    hide OffsetWidth, FitsU, WidthU, ElemsWidth, AlignTo, PaddingBytes;
    var w := VectorWidth(|buf|, elems, step, keys);
    AlignedLength(buf, w);
    ChosenWidthFits(|buf|, keys.value.bits, 0, 0, w);
  }

  lemma StridedFrom(stack: seq<StackValue>, start: nat)
    requires start <= |stack|
    ensures Covers(stack, start, 1, |stack| - start) && Strided(stack, start, 1, |stack| - start) == stack[start..]
  {
  }

  /** Pairs laid out on the stack, key before value. */
  function Interleaved(ps: seq<Pair>): (r: seq<StackValue>)
    ensures |r| == 2 * |ps|
  {
    seq(2 * |ps|, i requires 0 <= i < 2 * |ps| => if i % 2 == 0 then ps[i / 2].key else ps[i / 2].value)
  }

  /** The stack from `start` on is these pairs. */
  predicate OnStack(stack: seq<StackValue>, start: nat, ps: seq<Pair>) {
    && |stack| == start + 2 * |ps|
    && forall k :: 0 <= k < |ps| ==> stack[start + 2 * k] == ps[k].key && stack[start + 2 * k + 1] == ps[k].value
  }

  /** The pairs at `at` and behind it, exchanged. */
  function Swapped(stack: seq<StackValue>, at: nat): (r: seq<StackValue>)
    requires at + 4 <= |stack|
    ensures |r| == |stack| && r[..at] == stack[..at]
  {
    stack[..at] + [stack[at + 2], stack[at + 3], stack[at], stack[at + 1]] + stack[at + 4..]
  }

  lemma PairsFromStack(stack: seq<StackValue>, start: nat)
    requires start <= |stack| && (|stack| - start) % 2 == 0
    ensures OnStack(stack, start, Pairs(stack[start..]))
  {
  }

  lemma StackOfPairs(stack: seq<StackValue>, start: nat, ps: seq<Pair>)
    requires OnStack(stack, start, ps)
    ensures stack == stack[..start] + Interleaved(ps)
  {
    forall i | 0 <= i < 2 * |ps| ensures stack[start + i] == Interleaved(ps)[i] {
      assert i == 2 * (i / 2) + i % 2;
      assert stack[start + 2 * (i / 2)] == ps[i / 2].key;
    }
  }

  lemma PairOnStack(stack: seq<StackValue>, start: nat, passed: seq<Pair>, p: Pair, rest: seq<Pair>)
    requires OnStack(stack, start, passed + [p] + rest)
    ensures var at := start + 2 * |passed|;
            && |stack| == at + 2 + 2 * |rest| && Pair(stack[at], stack[at + 1]) == p
            && (rest != [] ==> Pair(stack[at + 2], stack[at + 3]) == rest[0])
  {
    var all, n := passed + [p] + rest, |passed|;
    assert all[n] == p && (rest != [] ==> all[n + 1] == rest[0]);
    assert stack[start + 2 * n] == p.key;
    assert rest != [] ==> stack[start + 2 * (n + 1)] == rest[0].key;
  }

  lemma SwapOnStack(stack: seq<StackValue>, start: nat, passed: seq<Pair>, p: Pair, rest: seq<Pair>)
    requires OnStack(stack, start, passed + [p] + rest) && rest != []
    ensures var at := start + 2 * |passed|;
            at + 4 <= |stack| && OnStack(Swapped(stack, at), start, (passed + [rest[0]]) + [p] + rest[1..])
  {
    PairOnStack(stack, start, passed, p, rest);
    var at, n := start + 2 * |passed|, |passed|;
    var r, before, after := Swapped(stack, at), passed + [p] + rest, (passed + [rest[0]]) + [p] + rest[1..];
    forall k | 0 <= k < |after|
      ensures r[start + 2 * k] == after[k].key && r[start + 2 * k + 1] == after[k].value
    {
      if k != n && k != n + 1 {
        assert after[k] == before[k];
        assert stack[start + 2 * k] == before[k].key && stack[start + 2 * k + 1] == before[k].value;
      }
    }
  }

  lemma InsertPasses(buf: seq<byte>, passed: seq<Pair>, p: Pair, rest: seq<Pair>)
    requires rest != [] && !PairLess(buf, p, rest[0])
    ensures passed + InsertPair(buf, rest, p) == (passed + [rest[0]]) + InsertPair(buf, rest[1..], p)
  {
    hide PairLess;
  }

  lemma InsertStops(buf: seq<byte>, p: Pair, rest: seq<Pair>)
    requires rest == [] || PairLess(buf, p, rest[0])
    ensures InsertPair(buf, rest, p) == [p] + rest
  {
    hide PairLess;
  }

  lemma SortsNothing(buf: seq<byte>, ps: seq<Pair>, i: nat)
    requires i == |ps|
    ensures ps[..i] + SortPairs(buf, ps[i..]) == ps
  {
  }

  lemma NextSorted(buf: seq<byte>, ps: seq<Pair>, i: nat)
    requires i < |ps|
    ensures ps[..i + 1] + SortPairs(buf, ps[i + 1..]) == ps[..i] + [ps[i]] + SortPairs(buf, ps[i + 1..])
    ensures SortPairs(buf, ps[i..]) == InsertPair(buf, SortPairs(buf, ps[i + 1..]), ps[i])
  {
    hide InsertPair;
    assert ps[..i + 1] == ps[..i] + [ps[i]];
    assert ps[i..][1..] == ps[i + 1..];
  }

  lemma StridedPairs(stack: seq<StackValue>, start: nat, ps: seq<Pair>)
    requires start <= |stack| && stack[start..] == Interleaved(ps)
    ensures Covers(stack, start, 2, |ps|) && Strided(stack, start, 2, |ps|) == KeysOf(ps)
    ensures Covers(stack, start + 1, 2, |ps|) && Strided(stack, start + 1, 2, |ps|) == ValuesOf(ps)
  {
    forall k | 0 <= k < |ps|
      ensures stack[start + 2 * k] == ps[k].key && stack[start + 1 + 2 * k] == ps[k].value
    {
      assert stack[start + 2 * k] == stack[start..][2 * k];
      assert stack[start + 1 + 2 * k] == stack[start..][2 * k + 1];
    }
  }

  /** Sorting moves the pairs around; their offsets stay in the buffer. */
  lemma SortedInBuffer(buf: seq<byte>, held: seq<StackValue>, sorted: seq<Pair>)
    requires |held| % 2 == 0 && multiset(sorted) == multiset(Pairs(held)) && AllInBuffer(buf, held)
    ensures AllInBuffer(buf, KeysOf(sorted)) && AllInBuffer(buf, ValuesOf(sorted))
  {
    hide InBuffer;
    forall i | 0 <= i < |sorted|
      ensures InBuffer(buf, sorted[i].key) && InBuffer(buf, sorted[i].value)
    {
      assert sorted[i] in multiset(sorted);
      assert sorted[i] in Pairs(held);
      var j :| 0 <= j < |Pairs(held)| && Pairs(held)[j] == sorted[i];
      assert held[2 * j] in held && held[2 * j + 1] in held;
    }
  }

  lemma RootWritable(buf: seq<byte>, v: StackValue)
    requires InBuffer(buf, v) && |buf| < MEMORY
    ensures Writable(|AlignTo(buf, ElemWidth(v, |buf|, 0))|, v, ElemWidth(v, |buf|, 0))
  {
    hide OffsetWidth, FitsU, AlignTo, PaddingBytes;
    if !IsInline(v.kind) {
      AlignedLength(buf, ElemWidth(v, |buf|, 0));
      ChosenWidthFits(|buf|, v.bits, 0, 0, ElemWidth(v, |buf|, 0));
    }
  }

  // ---------- the steps of a tree ----------

  lemma EmitLeaf(s: State, t: Flex)
    requires FlexOk(t)
    ensures t.FNull? ==> Emit(s, t) == PushValue(s, StackValue(0, FBT_NULL, 0))
    ensures t.FString? ==> Emit(s, t) == AddString(s, t.bytes)
  {
    hide AddString;
  }

  lemma EmitVectorIs(s: State, t: Flex)
    requires FlexOk(t) && t.FVector?
    ensures var mid := EmitItems(s, t, |t.items|);
            Emit(s, t) == EndVector(mid, |s.stack|) && mid.buf <= Emit(s, t).buf
  {
    hide EndVector, FlexOk, EmitItems;
    EndVectorGrows(EmitItems(s, t, |t.items|), |s.stack|);
  }

  lemma EmitMapIs(s: State, t: Flex)
    requires FlexOk(t) && t.FMap?
    ensures EmitEntries(s, t, |t.entries|).buf <= Emit(s, t).buf
  {
    hide FlexOk, CreateVector, SortPairs;
    EmitsMap(s, t);
  }

  lemma NoItems(s: State, t: Flex)
    requires FlexOk(t) && t.FVector?
    ensures EmitItems(s, t, 0) == s
  {
  }

  lemma NoEntriesYet(s: State, t: Flex)
    requires FlexOk(t) && t.FMap?
    ensures EmitEntries(s, t, 0) == s
  {
  }

  lemma {:induction false} FewerItems(s: State, t: Flex, i: nat, n: nat)
    requires FlexOk(t) && t.FVector? && i <= n <= |t.items|
    ensures EmitItems(s, t, i).buf <= EmitItems(s, t, n).buf
    decreases n
  {
    hide Emit, FlexOk;
    if i < n {
      FewerItems(s, t, i, n - 1);
      ItemOk(t, n - 1);
      EmitGrows(EmitItems(s, t, n - 1), t.items[n - 1]);
    }
  }

  lemma ItemOk(t: Flex, i: nat)
    requires FlexOk(t) && t.FVector? && i < |t.items|
    ensures FlexOk(t.items[i])
  {
  }

  lemma NextItem(s: State, t: Flex, i: nat)
    requires FlexOk(t) && t.FVector? && i < |t.items| && PoolsOk(s) && |Emit(s, t).buf| < MEMORY
    ensures FlexOk(t.items[i])
    ensures var now := EmitItems(s, t, i);
            PoolsOk(now) && EmitItems(s, t, i + 1) == Emit(now, t.items[i]) && |Emit(now, t.items[i]).buf| < MEMORY
  {
    hide PoolsOk, Emit, FlexOk, Holds;
    ItemOk(t, i);
    EmitVectorIs(s, t);
    FewerItems(s, t, i, |t.items|);
    FewerItems(s, t, i + 1, |t.items|);
    ItemsDeliver(s, t, i);
  }

  /** The elements of a vector are ready to be put together. */
  lemma VectorReady(s: State, t: Flex)
    requires FlexOk(t) && t.FVector? && PoolsOk(s) && |Emit(s, t).buf| < MEMORY
    ensures var mid := EmitItems(s, t, |t.items|);
            |mid.buf| < MEMORY && |t.items| < MEMORY && AllInBuffer(mid.buf, mid.stack[|s.stack|..])
  {
    hide PoolsOk, FlexOk, Holds, InBuffer, CreateVector, Emit, EmitItems;
    var n := |t.items|;
    var mid := EmitItems(s, t, n);
    EmitVectorIs(s, t);
    VectorLength(mid.buf, mid.stack[|s.stack|..], 1, false, None);
    ItemsDeliver(s, t, n);
    forall v | v in mid.stack[|s.stack|..] ensures InBuffer(mid.buf, v) {
      var k :| 0 <= k < n && mid.stack[|s.stack|..][k] == v;
      HeldInBuffer(mid.buf, mid.stack[|s.stack| + k], t.items[k]);
    }
  }

  lemma {:induction false} FewerEntries(s: State, t: Flex, i: nat, n: nat)
    requires FlexOk(t) && t.FMap? && i <= n <= |t.entries|
    ensures EmitEntries(s, t, i).buf <= EmitEntries(s, t, n).buf
    decreases n
  {
    hide Emit, FlexOk, AddKey;
    if i < n {
      FewerEntries(s, t, i, n - 1);
      EntryOk(t, n - 1);
      var before, e := EmitEntries(s, t, n - 1), t.entries[n - 1];
      KeyGrows(before, e.key);
      EmitGrows(AddKey(before, e.key), e.value);
    }
  }

  lemma EntryOk(t: Flex, i: nat)
    requires FlexOk(t) && t.FMap? && i < |t.entries|
    ensures NulFree(t.entries[i].key) && FlexOk(t.entries[i].value)
  {
  }

  lemma OneMoreEntry(s: State, t: Flex, i: nat)
    requires FlexOk(t) && t.FMap? && i < |t.entries| && FlexOk(t.entries[i].value)
    ensures EmitEntries(s, t, i + 1) == Emit(AddKey(EmitEntries(s, t, i), t.entries[i].key), t.entries[i].value)
  {
    hide FlexOk, Emit, AddKey;
  }

  lemma NextEntry(s: State, t: Flex, i: nat)
    requires FlexOk(t) && t.FMap? && i < |t.entries| && PoolsOk(s) && |Emit(s, t).buf| < MEMORY
    ensures NulFree(t.entries[i].key) && FlexOk(t.entries[i].value)
    ensures var keyed := AddKey(EmitEntries(s, t, i), t.entries[i].key);
            && PoolsOk(keyed) && EmitEntries(s, t, i + 1) == Emit(keyed, t.entries[i].value)
            && |Emit(keyed, t.entries[i].value).buf| < MEMORY
  {
    hide PoolsOk, Emit, FlexOk, Holds, AddKey, HoldsKey, EntryHeld, EmitEntries;
    EntryOk(t, i);
    OneMoreEntry(s, t, i);
    EmitMapIs(s, t);
    FewerEntries(s, t, i, |t.entries|);
    FewerEntries(s, t, i + 1, |t.entries|);
    EntriesDeliver(s, t, i);
    KeyDelivered(EmitEntries(s, t, i), t.entries[i].key);
  }

  /** The keys and values of a map are ready to be put together. */
  lemma MapReady(s: State, t: Flex)
    requires FlexOk(t) && t.FMap? && PoolsOk(s) && |Emit(s, t).buf| < MEMORY
    ensures MapEndable(EmitEntries(s, t, |t.entries|), |s.stack|)
  {
    hide PoolsOk, FlexOk, CreateVector, Emit, EmitEntries, SortPairs, Pairs, AllInBuffer, MapVectors;
    var mid := EmitEntries(s, t, |t.entries|);
    EmitsMap(s, t);
    MapVectorsGrow(mid.buf, SortPairs(mid.buf, Pairs(mid.stack[|s.stack|..])));
    EntriesInBuffer(s, t);
  }

  /** The entries from `start` on can be ended as a map, within memory. */
  predicate MapEndable(s: State, start: nat) {
    && CanEndMap(s, start) && |s.buf| < MEMORY && |s.stack| - start < 2 * MEMORY
    && AllInBuffer(s.buf, s.stack[start..])
    && |MapVectors(s.buf, SortPairs(s.buf, Pairs(s.stack[start..]))).0| < MEMORY
  }

  lemma MapVectorsGrow(buf: seq<byte>, sorted: seq<Pair>)
    ensures |sorted| <= |MapVectors(buf, sorted).2|
  {
    hide CreateVector;
    var (withKeys, keys, out, vec) := MapVectors(buf, sorted);
    VectorLength(withKeys, ValuesOf(sorted), 2, false, Some(keys));
  }

  /** Every key and value that building a map leaves on the stack is in the buffer. */
  lemma EntriesInBuffer(s: State, t: Flex)
    requires FlexOk(t) && t.FMap? && PoolsOk(s) && |EmitEntries(s, t, |t.entries|).buf| < MEMORY
    ensures var mid := EmitEntries(s, t, |t.entries|);
            AllInBuffer(mid.buf, mid.stack[|s.stack|..])
  {
    hide PoolsOk, FlexOk, Holds, HoldsKey, InBuffer, Emit, EmitEntries;
    var n := |t.entries|;
    var mid := EmitEntries(s, t, n);
    EntriesDeliver(s, t, n);
    forall v | v in mid.stack[|s.stack|..] ensures InBuffer(mid.buf, v) {
      var i :| 0 <= i < 2 * n && mid.stack[|s.stack|..][i] == v;
      assert EntryHeld(mid.buf, mid.stack, |s.stack| + 2 * (i / 2), t.entries[i / 2]);
      if i % 2 == 0 {
        KeyInBuffer(mid.buf, v, t.entries[i / 2].key);
      } else {
        HeldInBuffer(mid.buf, v, t.entries[i / 2].value);
      }
    }
  }

  /** The bytes that a new builder hands out for a tree, and what they read as. */
  method SerializeTree(t: Flex, shareKeys: bool, shareStrings: bool) returns (buf: seq<byte>)
    requires FlexOk(t) && |Serialize(t, shareKeys, shareStrings)| < MEMORY
    ensures buf == Serialize(t, shareKeys, shareStrings)
    ensures RootReference(buf).Value? && Reads(buf, RootReference(buf).value, t)
  {
    hide FlexOk, PoolsOk, Emit, Finish, Reads, RootReference, Start, Holds, InBuffer;
    var b := new Builder(shareKeys, shareStrings);
    ghost var s := Start(shareKeys, shareStrings);
    StartPools(shareKeys, shareStrings);
    NothingOnStack(shareKeys, shareStrings);
    FinishGrows(Emit(s, t));
    EmitDelivers(s, t);
    HeldInBuffer(Emit(s, t).buf, Emit(s, t).stack[0], t);
    b.Add(t);
    b.FinishBuffer();
    buf := b.buf;
    TreeRoundTrip(t, shareKeys, shareStrings);
  }

  lemma NothingOnStack(shareKeys: bool, shareStrings: bool)
    ensures Start(shareKeys, shareStrings).stack == []
  {
  }
}
