/** Every tree that is put into a FlexBuffer is read back from its last byte, with and without sharing. */
module FlexRoundTrip {
  import opened Wrappers
  import opened Bytes
  import opened Alignment
  import opened TableReader
  import opened FlexWidths
  import opened FlexModel
  import opened FlexReader
  import opened FlexVectors
  import opened FlexMaps

  // ---------- keys ----------

  /** The pool refers to keys that can be read, no two of them equal. */
  predicate KeyPoolOk(buf: Buffer, pool: seq<nat>) {
    && (forall p <- pool :: p <= |buf| && KeyAt(buf, p).Value?)
    && (forall i, j :: 0 <= i < j < |pool| ==> KeyAt(buf, pool[i]) != KeyAt(buf, pool[j]))
  }

  lemma KeyPoolStays(buf: Buffer, x: Buffer, pool: seq<nat>)
    requires KeyPoolOk(buf, pool)
    ensures KeyPoolOk(buf + x, pool)
    ensures forall p <- pool :: KeyAt(buf + x, p) == KeyAt(buf, p)
  {
    hide KeyAt;
    forall p | p in pool ensures KeyAt(buf + x, p) == KeyAt(buf, p) {
      KeyStays(buf, x, p);
    }
    assert forall i :: 0 <= i < |pool| ==> pool[i] in pool;
  }

  lemma {:induction false} KeyWritten(a: Buffer, key: seq<byte>)
    requires NulFree(key)
    ensures KeyAt(a + key + [0], |a|) == Value(key)
    decreases |key|
  {
    var buf := a + key + [0];
    if key == [] {
      assert buf[|a|] == 0;
    } else {
      assert key[0] in key;
      assert buf == (a + [key[0]]) + key[1..] + [0];
      KeyWritten(a + [key[0]], key[1..]);
      assert key == [key[0]] + key[1..];
    }
  }

  lemma {:induction false} FindKeySearches(buf: Buffer, pool: seq<nat>, key: seq<byte>)
    ensures match FindKey(buf, pool, key)
            case Some(p) => p in pool && CString(buf, p) == key
            case None => forall p <- pool :: CString(buf, p) != key
  {
    hide CString;
    if pool != [] && CString(buf, pool[0]) != key {
      FindKeySearches(buf, pool[1..], key);
    }
  }

  lemma PooledKeyText(buf: Buffer, pool: seq<nat>, p: nat)
    requires KeyPoolOk(buf, pool) && p in pool
    ensures KeyAt(buf, p) == Value(CString(buf, p))
  {
    KeyIsCString(buf, p, KeyAt(buf, p).value);
  }

  lemma KeyPoolGrows(buf: Buffer, pool: seq<nat>, off: nat, key: seq<byte>)
    requires KeyPoolOk(buf, pool) && off <= |buf| && KeyAt(buf, off) == Value(key)
    requires forall p <- pool :: CString(buf, p) != key
    ensures KeyPoolOk(buf, pool + [off])
  {
    hide CString, KeyAt;
    forall i | 0 <= i < |pool| ensures KeyAt(buf, pool[i]) != KeyAt(buf, off) {
      PooledKeyText(buf, pool, pool[i]);
    }
  }

  /** Adding a key leaves a key on the stack; with sharing, an equal key is used again and nothing is written. */
  lemma AddKeyDelivers(s: State, key: seq<byte>)
    requires NulFree(key) && KeyPoolOk(s.buf, s.keyPool)
    ensures var r := AddKey(s, key);
            && s.buf <= r.buf && HoldsKey(r.buf, r.stack[|s.stack|], key) && KeyPoolOk(r.buf, r.keyPool)
            && if s.shareKeys && exists p <- s.keyPool :: KeyAt(s.buf, p) == Value(key)
               then r.buf == s.buf && r.stack[|s.stack|].bits in s.keyPool
               else r.buf == s.buf + key + [0] && r.stack[|s.stack|].bits == |s.buf|
  {
    hide CString, KeyAt, FindKey;
    var off, x := |s.buf|, key + [0];
    var written := s.buf + key + [0];
    assert written == s.buf + x;
    KeyWritten(s.buf, key);
    KeyIsCString(written, off, key);
    KeyPoolStays(s.buf, x, s.keyPool);
    FindKeySearches(written, s.keyPool, key);
    if s.shareKeys {
      match FindKey(written, s.keyPool, key) {
        case Some(p) =>
          PooledKeyText(written, s.keyPool, p);
        case None =>
          KeyPoolGrows(written, s.keyPool, off, key);
          NotPooled(s.buf, x, s.keyPool, key);
      }
    }
  }

  lemma NotPooled(buf: Buffer, x: Buffer, pool: seq<nat>, key: seq<byte>)
    requires KeyPoolOk(buf, pool) && forall p <- pool :: CString(buf + x, p) != key
    ensures !(exists p <- pool :: KeyAt(buf, p) == Value(key))
  {
    hide CString, KeyAt;
    KeyPoolStays(buf, x, pool);
    forall p | p in pool ensures KeyAt(buf, p) != Value(key) {
      PooledKeyText(buf + x, pool, p);
    }
  }

  // ---------- strings ----------

  /** A pool entry refers to a finished string of its length. */
  predicate PooledOk(buf: Buffer, p: PooledString) {
    && p.off + p.len < |buf| && buf[p.off + p.len] == 0
    && StringAt(buf, p.off, ByteWidth(WidthU(p.len))) == Value(buf[p.off..p.off + p.len])
  }

  predicate StringPoolOk(buf: Buffer, pool: seq<PooledString>) {
    && (forall p <- pool :: PooledOk(buf, p))
    && (forall i, j :: 0 <= i < j < |pool| ==> !SameText(buf, pool[i], pool[j]))
  }

  predicate SameText(buf: Buffer, a: PooledString, b: PooledString) {
    a.off + a.len <= |buf| && b.off + b.len <= |buf| && buf[a.off..a.off + a.len] == buf[b.off..b.off + b.len]
  }

  lemma PooledStays(buf: Buffer, x: Buffer, p: PooledString)
    requires PooledOk(buf, p)
    ensures PooledOk(buf + x, p) && (buf + x)[p.off..p.off + p.len] == buf[p.off..p.off + p.len]
  {
    hide StringAt, WidthU;
    assert (buf + x)[p.off..p.off + p.len] == buf[p.off..p.off + p.len];
    StringStays(buf, x, p.off, ByteWidth(WidthU(p.len)));
  }

  lemma StringPoolStays(buf: Buffer, x: Buffer, pool: seq<PooledString>)
    requires StringPoolOk(buf, pool)
    ensures StringPoolOk(buf + x, pool)
    ensures forall p <- pool :: (buf + x)[p.off..p.off + p.len] == buf[p.off..p.off + p.len]
  {
    hide StringAt;
    forall p | p in pool
      ensures PooledOk(buf + x, p) && (buf + x)[p.off..p.off + p.len] == buf[p.off..p.off + p.len]
    {
      PooledStays(buf, x, p);
    }
    forall i, j | 0 <= i < j < |pool| ensures !SameText(buf + x, pool[i], pool[j]) {
      assert pool[i] in pool && pool[j] in pool;
      assert !SameText(buf, pool[i], pool[j]);
    }
  }

  lemma {:induction false} FindStringSearches(buf: Buffer, pool: seq<PooledString>, str: seq<byte>)
    ensures match FindString(buf, pool, str)
            case Some(off) => PooledString(off, |str|) in pool && PooledBytes(buf, PooledString(off, |str|), str)
            case None => forall p <- pool :: !PooledBytes(buf, p, str)
  {
    hide PooledBytes;
    if pool != [] {
      if PooledBytes(buf, pool[0], str) {
        LengthOfPooled(buf, pool[0], str);
      } else {
        FindStringSearches(buf, pool[1..], str);
      }
    }
  }

  lemma LengthOfPooled(buf: Buffer, p: PooledString, str: seq<byte>)
    requires PooledBytes(buf, p, str)
    ensures p == PooledString(p.off, |str|)
  {
  }

  /** The bytes of a string, its length in front and a terminator behind. */
  lemma StringWritten(buf: Buffer, str: seq<byte>)
    requires |str| < TWO_64
    ensures var r, w := WriteString(buf, str), WidthU(|str|);
            var off := |r| - |str| - 1;
            && ByteWidth(w) <= off && r[off..off + |str|] == str && r[off + |str|] == 0
            && |buf| + ByteWidth(w) <= off < |buf| + 2 * ByteWidth(w) && off % ByteWidth(w) == 0
            && StringAt(r, off, ByteWidth(w)) == Value(str)
  {
    hide LE, AlignTo, WidthU, ReadScalar, FitsU;
    var w := WidthU(|str|);
    var aligned := AlignTo(buf, w);
    var len := LE(|str|, ByteWidth(w));
    JustWritten(aligned, |str|, w);
    NumberStays(aligned + len, str + [0], |aligned|, |str|, w);
    var r := WriteString(buf, str);
    AlignedString(buf, w);
    assert r == (aligned + len) + (str + [0]);
    WidthUIsLeast(|str|, w);
    NumberReads(r, |aligned|, |str|, w);
    assert r[|aligned| + |len|..|aligned| + |len| + |str|] == str;
  }

  lemma AlignedString(buf: Buffer, w: BitWidth)
    ensures |buf| <= |AlignTo(buf, w)| < |buf| + ByteWidth(w) && (|AlignTo(buf, w)| + ByteWidth(w)) % ByteWidth(w) == 0
  {
    hide PaddingBytes, Aligned;
    PaddingOfAlignment(|buf|, ByteWidth(w));
    AlignedPlus(|AlignTo(buf, w)|, ByteWidth(w));
    AlignedMeans(|AlignTo(buf, w)| + ByteWidth(w), ByteWidth(w));
  }

  lemma AlignedMeans(x: nat, s: nat)
    requires s > 0 && Aligned(x, s)
    ensures x % s == 0
  {
  }

  lemma StringHeld(buf: Buffer, off: nat, w: BitWidth, str: seq<byte>)
    requires off + |str| < |buf| && buf[off + |str|] == 0 && StringAt(buf, off, ByteWidth(w)) == Value(str)
    ensures Holds(buf, StackValue(off, FBT_STRING, w), FString(str))
  {
    hide StringAt;
    ByteReads(buf, off + |str|);
  }

  lemma StringPoolGrows(buf: Buffer, pool: seq<PooledString>, p: PooledString)
    requires StringPoolOk(buf, pool) && PooledOk(buf, p)
    requires forall q <- pool :: !PooledBytes(buf, q, buf[p.off..p.off + p.len])
    ensures StringPoolOk(buf, pool + [p])
  {
    hide PooledOk;
    forall i | 0 <= i < |pool| ensures !SameText(buf, pool[i], p) {
      assert pool[i] in pool;
    }
    assert forall q <- pool + [p] :: q in pool || q == p;
  }

  /** Adding a string leaves it on the stack; with sharing, an equal string is used again and nothing is written. */
  lemma AddStringDelivers(s: State, str: seq<byte>)
    requires |str| < TWO_64 && StringPoolOk(s.buf, s.stringPool)
    ensures var r := AddString(s, str);
            && s.buf <= r.buf && Holds(r.buf, r.stack[|s.stack|], FString(str)) && StringPoolOk(r.buf, r.stringPool)
            && if s.shareStrings && exists p <- s.stringPool :: PooledBytes(s.buf, p, str)
               then r.buf == s.buf
               else r.buf == WriteString(s.buf, str) && r.stack[|s.stack|].bits == |r.buf| - |str| - 1
  {
    hide StringAt, FindString, WriteString, WidthU, Holds, PooledBytes, PooledOk, StringPoolOk;
    var written, w := WriteString(s.buf, str), WidthU(|str|);
    var off := |written| - |str| - 1;
    StringWritten(s.buf, str);
    PrefixSplit(s.buf, written);
    var x := written[|s.buf|..];
    StringPoolStays(s.buf, x, s.stringPool);
    FindStringSearches(written, s.stringPool, str);
    StringHeld(written, off, w, str);
    if s.shareStrings {
      match FindString(written, s.stringPool, str) {
        case Some(found) =>
          PooledBefore(s.buf, written, s.stringPool, PooledString(found, |str|), str);
          StringShared(s.buf, x, s.stringPool, found, str);
        case None =>
          NewlyPooled(written, off, str);
          StringPoolGrows(written, s.stringPool, PooledString(off, |str|));
          StringNotPooled(s.buf, x, s.stringPool, str);
      }
    }
  }

  lemma PooledBefore(buf: seq<byte>, r: seq<byte>, pool: seq<PooledString>, p: PooledString, str: seq<byte>)
    requires StringPoolOk(buf, pool) && p in pool && buf <= r && PooledBytes(r, p, str)
    ensures PooledBytes(buf, p, str)
  {
    hide StringAt;
    assert PooledOk(buf, p);
    assert r[p.off..p.off + p.len] == buf[p.off..p.off + p.len];
  }

  lemma NewlyPooled(buf: Buffer, off: nat, str: seq<byte>)
    requires off + |str| < |buf| && buf[off..off + |str|] == str && buf[off + |str|] == 0
    requires StringAt(buf, off, ByteWidth(WidthU(|str|))) == Value(str)
    ensures PooledOk(buf, PooledString(off, |str|))
  {
  }

  lemma StringShared(buf: Buffer, x: Buffer, pool: seq<PooledString>, off: nat, str: seq<byte>)
    requires StringPoolOk(buf, pool) && PooledString(off, |str|) in pool && PooledBytes(buf + x, PooledString(off, |str|), str)
    ensures Holds(buf, StackValue(off, FBT_STRING, WidthU(|str|)), FString(str))
  {
    hide StringAt, Holds;
    var p := PooledString(off, |str|);
    assert PooledOk(buf, p);
    assert (buf + x)[off..off + |str|] == buf[off..off + |str|];
    StringHeld(buf, off, WidthU(|str|), str);
  }

  lemma StringNotPooled(buf: Buffer, x: Buffer, pool: seq<PooledString>, str: seq<byte>)
    requires forall p <- pool :: !PooledBytes(buf + x, p, str)
    ensures !(exists p <- pool :: PooledBytes(buf, p, str))
  {
    forall p | p in pool ensures !PooledBytes(buf, p, str) {
      PooledBytesStay(buf, x, p, str);
    }
  }

  lemma PooledBytesStay(buf: Buffer, x: Buffer, p: PooledString, str: seq<byte>)
    ensures PooledBytes(buf, p, str) ==> PooledBytes(buf + x, p, str)
  {
    if PooledBytes(buf, p, str) {
      assert (buf + x)[p.off..p.off + p.len] == buf[p.off..p.off + p.len];
    }
  }

  // ---------- trees ----------

  ghost predicate PoolsOk(s: State) {
    KeyPoolOk(s.buf, s.keyPool) && StringPoolOk(s.buf, s.stringPool)
  }

  /** The tree is in the buffer, and its value on top of the stack. */
  ghost predicate Delivered(s: State, r: State, t: Flex) {
    && s.buf <= r.buf && PoolsOk(r)
    && |r.stack| == |s.stack| + 1 && Holds(r.buf, r.stack[|s.stack|], t)
  }

  /** The first n elements of a vector are in the buffer and on the stack. */
  ghost predicate ItemsDelivered(s: State, r: State, items: seq<Flex>, n: nat) {
    && s.buf <= r.buf && PoolsOk(r)
    && n <= |items| && |r.stack| == |s.stack| + n
    && forall k :: 0 <= k < n ==> Holds(r.buf, r.stack[|s.stack| + k], items[k])
  }

  /** The first n entries of a map are in the buffer, each as a key and a value on the stack. */
  ghost predicate EntriesDelivered(s: State, r: State, es: seq<MapEntry>, n: nat) {
    && s.buf <= r.buf && PoolsOk(r)
    && n <= |es| && |r.stack| == |s.stack| + 2 * n
    && forall k :: 0 <= k < n ==> EntryHeld(r.buf, r.stack, |s.stack| + 2 * k, es[k])
  }

  ghost predicate EntryHeld(buf: Buffer, stack: seq<StackValue>, at: nat, e: MapEntry)
    requires at + 1 < |stack|
  {
    HoldsKey(buf, stack[at], e.key) && Holds(buf, stack[at + 1], e.value)
  }

  lemma PoolsStay(s: State, r: State)
    requires PoolsOk(s) && s.buf <= r.buf && r.keyPool == s.keyPool && r.stringPool == s.stringPool
    ensures PoolsOk(r)
  {
    hide KeyPoolOk, StringPoolOk;
    PrefixSplit(s.buf, r.buf);
    KeyPoolStays(s.buf, r.buf[|s.buf|..], s.keyPool);
    StringPoolStays(s.buf, r.buf[|s.buf|..], s.stringPool);
  }

  lemma ScalarDelivered(s: State, t: Flex)
    requires PoolsOk(s) && FlexOk(t) && IsInline(KindOf(t))
    ensures Delivered(s, Emit(s, t), t)
  {
    hide PoolsOk, FitsU, FitsI, WidthU, WidthI, Wrap64;
    PoolsStay(s, Emit(s, t));
    match t
    case FInt(i) => WidthIIsLeast(i, WidthI(i));
    case FUInt(u) => WidthUIsLeast(u, WidthU(u));
    case _ =>
  }

  lemma StringDelivered(s: State, t: Flex)
    requires PoolsOk(s) && t.FString? && |AddString(s, t.bytes).buf| < MEMORY && |t.bytes| < TWO_64
    ensures Delivered(s, Emit(s, t), t)
  {
    hide KeyPoolOk, StringPoolOk, Holds;
    AddStringDelivers(s, t.bytes);
    var r := AddString(s, t.bytes);
    PrefixSplit(s.buf, r.buf);
    KeyPoolStays(s.buf, r.buf[|s.buf|..], s.keyPool);
  }

  /** A key leaves the rest of the stack, and the pools in order. */
  lemma KeyDelivered(s: State, key: seq<byte>)
    requires PoolsOk(s) && NulFree(key)
    ensures var r := AddKey(s, key);
            && s.buf <= r.buf && PoolsOk(r) && r.stack[..|s.stack|] == s.stack
            && |r.stack| == |s.stack| + 1 && HoldsKey(r.buf, r.stack[|s.stack|], key)
  {
    hide KeyPoolOk, StringPoolOk, HoldsKey;
    AddKeyDelivers(s, key);
    KeyOnStack(s, key);
    var r := AddKey(s, key);
    PrefixSplit(s.buf, r.buf);
    StringPoolStays(s.buf, r.buf[|s.buf|..], s.stringPool);
  }

  // ---------- the buffer only grows ----------

  lemma KeyGrows(s: State, key: seq<byte>)
    ensures s.buf <= AddKey(s, key).buf
  {
    assert s.buf + key + [0] == s.buf + (key + [0]);
  }

  lemma {:induction false} EmitGrows(s: State, t: Flex)
    requires FlexOk(t)
    ensures s.buf <= Emit(s, t).buf
    decreases t, 1, 0
  {
    hide AddString, EndVector, EndMap, WidthU, WidthI, FlexOk;
    match t {
      case FString(str) => StringGrows(s, str);
      case FVector(items) =>
        ItemsGrow(s, t, |items|);
        EndVectorGrows(EmitItems(s, t, |items|), |s.stack|);
      case FMap(es) =>
        EntriesGrow(s, t, |es|);
        EndMapGrows(EmitEntries(s, t, |es|), |s.stack|);
      case _ =>
    }
  }

  lemma StringGrows(s: State, str: seq<byte>)
    ensures s.buf <= AddString(s, str).buf
  {
    hide WriteString, WidthU, FindString;
  }

  lemma EndVectorGrows(s: State, start: nat)
    requires start <= |s.stack|
    ensures s.buf <= EndVector(s, start).buf
  {
    hide CreateVector;
  }

  lemma EndMapGrows(s: State, start: nat)
    requires CanEndMap(s, start)
    ensures s.buf <= EndMap(s, start).buf
  {
    hide CreateVector, SortPairs;
  }

  lemma {:induction false} ItemsGrow(s: State, t: Flex, n: nat)
    requires FlexOk(t) && t.FVector? && n <= |t.items|
    ensures s.buf <= EmitItems(s, t, n).buf
    decreases t, 0, n
  {
    hide Emit;
    if n > 0 {
      ItemsGrow(s, t, n - 1);
      EmitGrows(EmitItems(s, t, n - 1), t.items[n - 1]);
    }
  }

  lemma {:induction false} EntriesGrow(s: State, t: Flex, n: nat)
    requires FlexOk(t) && t.FMap? && n <= |t.entries|
    ensures s.buf <= EmitEntries(s, t, n).buf
    decreases t, 0, n
  {
    hide Emit, AddKey;
    if n > 0 {
      EntriesGrow(s, t, n - 1);
      var before := EmitEntries(s, t, n - 1);
      KeyGrows(before, t.entries[n - 1].key);
      EmitGrows(AddKey(before, t.entries[n - 1].key), t.entries[n - 1].value);
    }
  }

  /** Every element of a vector takes at least a byte. */
  lemma VectorLength(buf: Buffer, elems: seq<StackValue>, step: nat, typed: bool, keys: Option<StackValue>)
    ensures |elems| <= |CreateVector(buf, elems, step, typed, keys).0|
  {
    hide VectorWidth, VectorHeader;
    var bw := ByteWidth(VectorWidth(|buf|, elems, step, keys));
    assert |elems| <= |elems| * bw;
  }

  // ---------- the induction ----------

  /** Emitting a tree delivers it. */
  lemma {:induction false} EmitDelivers(s: State, t: Flex)
    requires FlexOk(t) && PoolsOk(s) && |Emit(s, t).buf| < MEMORY
    ensures Delivered(s, Emit(s, t), t)
    decreases t, 1, 0
  {
    hide PoolsOk, AddString, Delivered, FlexOk;
    match t {
      case FString(str) =>
        StringBelow(s, str);
        StringDelivered(s, t);
      case FVector(items) => VectorDelivers(s, t);
      case FMap(es) => MapDelivers(s, t);
      case _ => ScalarDelivered(s, t);
    }
  }

  /** A string that is in the buffer is no longer than the buffer; one that is shared is no longer than what it equals. */
  lemma StringBelow(s: State, str: seq<byte>)
    requires PoolsOk(s) && |AddString(s, str).buf| < MEMORY
    ensures |str| < TWO_64
  {
    hide StringAt, WidthU, AlignTo, LE;
    FindStringSearches(WriteString(s.buf, str), s.stringPool, str);
    var found := FindString(WriteString(s.buf, str), s.stringPool, str);
    if s.shareStrings && found.Some? {
      assert PooledOk(s.buf, PooledString(found.value, |str|));
    }
  }

  lemma {:induction false} ItemsDeliver(s: State, t: Flex, n: nat)
    requires FlexOk(t) && t.FVector? && n <= |t.items| && PoolsOk(s) && |EmitItems(s, t, n).buf| < MEMORY
    ensures ItemsDelivered(s, EmitItems(s, t, n), t.items, n)
    decreases t, 0, n
  {
    hide PoolsOk, Holds, Emit;
    if n > 0 {
      var before := EmitItems(s, t, n - 1);
      EmitGrows(before, t.items[n - 1]);
      ItemsDeliver(s, t, n - 1);
      EmitDelivers(before, t.items[n - 1]);
      var r := EmitItems(s, t, n);
      PrefixSplit(before.buf, r.buf);
      forall k | 0 <= k < n
        ensures Holds(r.buf, r.stack[|s.stack| + k], t.items[k])
      {
        if k < n - 1 {
          assert r.stack[|s.stack| + k] == before.stack[|s.stack| + k];
          HoldsStays(before.buf, r.buf[|before.buf|..], before.stack[|s.stack| + k], t.items[k]);
        }
      }
    }
  }

  lemma {:induction false} EntriesDeliver(s: State, t: Flex, n: nat)
    requires FlexOk(t) && t.FMap? && n <= |t.entries| && PoolsOk(s) && |EmitEntries(s, t, n).buf| < MEMORY
    ensures EntriesDelivered(s, EmitEntries(s, t, n), t.entries, n)
    decreases t, 0, n
  {
    hide PoolsOk, Holds, HoldsKey, Emit, AddKey;
    if n > 0 {
      var before, e := EmitEntries(s, t, n - 1), t.entries[n - 1];
      var keyed := AddKey(before, e.key);
      KeyGrows(before, e.key);
      EmitGrows(keyed, e.value);
      EntriesDeliver(s, t, n - 1);
      KeyDelivered(before, e.key);
      EmitDelivers(keyed, e.value);
      EntryAdded(s, before, keyed, Emit(keyed, e.value), t.entries, n);
    }
  }

  lemma EntryAdded(s: State, before: State, keyed: State, r: State, es: seq<MapEntry>, n: nat)
    requires 0 < n <= |es| && EntriesDelivered(s, before, es, n - 1)
    requires before.buf <= keyed.buf && |keyed.stack| == |before.stack| + 1 && keyed.stack[..|before.stack|] == before.stack
    requires HoldsKey(keyed.buf, keyed.stack[|before.stack|], es[n - 1].key)
    requires Delivered(keyed, r, es[n - 1].value) && r.stack[..|keyed.stack|] == keyed.stack
    ensures EntriesDelivered(s, r, es, n)
  {
    hide PoolsOk, Holds, HoldsKey;
    PrefixSplit(before.buf, keyed.buf);
    PrefixSplit(keyed.buf, r.buf);
    PrefixSplit(before.buf, r.buf);
    forall k | 0 <= k < n
      ensures EntryHeld(r.buf, r.stack, |s.stack| + 2 * k, es[k])
    {
      var at := |s.stack| + 2 * k;
      assert r.stack[at] == keyed.stack[at];
      if k < n - 1 {
        assert EntryHeld(before.buf, before.stack, at, es[k]);
        assert r.stack[at + 1] == keyed.stack[at + 1];
        HoldsKeyStays(before.buf, r.buf[|before.buf|..], before.stack[at], es[k].key);
        HoldsStays(before.buf, r.buf[|before.buf|..], before.stack[at + 1], es[k].value);
      } else {
        HoldsKeyStays(keyed.buf, r.buf[|keyed.buf|..], keyed.stack[at], es[k].key);
      }
    }
  }

  lemma {:induction false} VectorDelivers(s: State, t: Flex)
    requires FlexOk(t) && t.FVector? && PoolsOk(s) && |Emit(s, t).buf| < MEMORY
    ensures Delivered(s, Emit(s, t), t)
    decreases t, 0, |t.items| + 1
  {
    hide PoolsOk, Holds, CreateVector, FlexOk;
    var n := |t.items|;
    var mid := EmitItems(s, t, n);
    var elems := mid.stack[|s.stack|..];
    VectorLength(mid.buf, elems, 1, false, None);
    assert mid.buf <= Emit(s, t).buf;
    ItemsDeliver(s, t, n);
    forall k | 0 <= k < n ensures Holds(mid.buf, elems[k], t.items[k]) {
      assert elems[k] == mid.stack[|s.stack| + k];
    }
    VectorReads(mid.buf, elems, t.items);
    PoolsStay(mid, Emit(s, t));
  }

  lemma PairsOnStack(s: State, mid: State, es: seq<MapEntry>)
    requires EntriesDelivered(s, mid, es, |es|) && mid.stack[..|s.stack|] == s.stack
    ensures PairsHold(mid.buf, Pairs(mid.stack[|s.stack|..]), es)
  {
    hide PoolsOk, Holds, HoldsKey;
    var ps := Pairs(mid.stack[|s.stack|..]);
    forall k | 0 <= k < |es| ensures PairHolds(mid.buf, ps[k], es[k]) {
      assert EntryHeld(mid.buf, mid.stack, |s.stack| + 2 * k, es[k]);
    }
  }

  lemma KeysDistinct(t: Flex)
    requires FlexOk(t) && t.FMap?
    ensures DistinctKeys(t.entries)
  {
  }

  lemma {:induction false} MapDelivers(s: State, t: Flex)
    requires FlexOk(t) && t.FMap? && PoolsOk(s) && |Emit(s, t).buf| < MEMORY
    ensures Delivered(s, Emit(s, t), t)
    decreases t, 0, |t.entries| + 1
  {
    hide PoolsOk, Holds, CreateVector, FlexOk, SortPairs, PairsHold, DistinctKeys;
    var n := |t.entries|;
    var mid := EmitEntries(s, t, n);
    var ps := Pairs(mid.stack[|s.stack|..]);
    var (withKeys, keys, out, vec) := MapVectors(mid.buf, SortPairs(mid.buf, ps));
    EmitsMap(s, t);
    VectorLength(withKeys, ValuesOf(SortPairs(mid.buf, ps)), 2, false, Some(keys));
    EntriesDeliver(s, t, n);
    PairsOnStack(s, mid, t.entries);
    KeysDistinct(t);
    MapReads(mid.buf, ps, t.entries);
    PoolsStay(mid, Emit(s, t));
  }

  lemma EmitsMap(s: State, t: Flex)
    requires FlexOk(t) && t.FMap?
    ensures var mid := EmitEntries(s, t, |t.entries|);
            var (withKeys, keys, out, vec) := MapVectors(mid.buf, SortPairs(mid.buf, Pairs(mid.stack[|s.stack|..])));
            && Emit(s, t) == mid.(buf := out, stack := s.stack + [vec])
            && mid.buf <= withKeys <= out
  {
    hide CreateVector, SortPairs;
  }

  // ---------- the theorem ----------

  lemma StartPools(shareKeys: bool, shareStrings: bool)
    ensures PoolsOk(Start(shareKeys, shareStrings))
  {
  }

  /** Finish: the root reads as what is on the stack. */
  lemma FinishReads(s: State, t: Flex)
    requires |s.stack| == 1 && Holds(s.buf, s.stack[0], t) && |Finish(s)| < MEMORY
    ensures RootReference(Finish(s)).Value? && Reads(Finish(s), RootReference(Finish(s)).value, t)
  {
    hide Holds, Reads, ReadScalar, AlignTo, OffsetWidth, LE, FitsU, PaddingBytes, NumberAt, StoredWidth, Payload;
    var v := s.stack[0];
    var w := ElemWidth(v, |s.buf|, 0);
    var aligned, out := AlignTo(s.buf, w), Finish(s);
    var written := aligned + LE(Payload(v, |aligned|), ByteWidth(w));
    JustWritten(aligned, Payload(v, |aligned|), w);
    var tail := [PackedType(StoredWidth(v, 0), v.kind), ByteWidth(w)];
    assert out == written + tail;
    NumberStays(written, tail, |aligned|, Payload(v, |aligned|), w);
    PrefixSplit(s.buf, out);
    HoldsStays(s.buf, out[|s.buf|..], v, t);
    RootFits(s.buf, v, t);
    WrittenReads(out, |aligned|, v, w, 0, t);
    ByteReads(out, |out| - 1);
    ByteReads(out, |out| - 2);
  }

  lemma RootFits(buf: Buffer, v: StackValue, t: Flex)
    requires Holds(buf, v, t) && |buf| < MEMORY
    ensures var w := ElemWidth(v, |buf|, 0);
            var pos := |AlignTo(buf, w)|;
            if IsInline(v.kind) then v.minWidth <= w else v.bits <= pos && FitsU(pos - v.bits, w)
  {
    hide OffsetWidth, FitsU, AlignTo, PaddingBytes, ObjectReads;
    if !IsInline(v.kind) {
      var w := ElemWidth(v, |buf|, 0);
      HeldInBuffer(buf, v, t);
      AlignedLength(buf, w);
      ChosenWidthFits(|buf|, v.bits, 0, 0, w);
    }
  }

  /**
   For every tree: building it, finishing, and walking back from the last byte yields the same tree,
   whether keys and strings are shared or not; maps are looked up by binary search.
   */
  lemma TreeRoundTrip(t: Flex, shareKeys: bool, shareStrings: bool)
    requires FlexOk(t) && |Serialize(t, shareKeys, shareStrings)| < MEMORY
    ensures var buf := Serialize(t, shareKeys, shareStrings);
            RootReference(buf).Value? && Reads(buf, RootReference(buf).value, t)
  {
    hide Finish, Emit, PoolsOk, Holds, RootReference, Reads, FlexOk;
    var s := Start(shareKeys, shareStrings);
    StartPools(shareKeys, shareStrings);
    FinishGrows(Emit(s, t));
    EmitDelivers(s, t);
    FinishReads(Emit(s, t), t);
  }

  lemma FinishGrows(s: State)
    requires |s.stack| == 1
    ensures |s.buf| <= |Finish(s)|
  {
    hide ElemWidth, LE;
  }
}
