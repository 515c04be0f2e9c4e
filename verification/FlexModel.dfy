/** The state of the FlexBuffers builder as a value, and its steps as functions. Bytes are appended; offsets count from the start. */
module FlexModel {
  import opened Wrappers
  import opened Bytes
  import opened Alignment
  import opened StringOrder
  import opened FlexWidths

  const FBT_NULL: nat := 0
  const FBT_INT: nat := 1
  const FBT_UINT: nat := 2
  const FBT_KEY: nat := 4
  const FBT_STRING: nat := 5
  const FBT_MAP: nat := 9
  const FBT_VECTOR: nat := 10
  const FBT_VECTOR_KEY: nat := 14
  const FBT_BOOL: nat := 26

  type FlexType = t: nat | t < 64

  predicate IsInline(t: FlexType) {
    t <= 3 || t == FBT_BOOL
  }

  /** The width in the lower two bits, the type above. */
  function PackedType(w: BitWidth, t: FlexType): (p: byte)
    ensures p % 4 == w && p / 4 == t
  {
    w + 4 * t
  }

  /** An element of the stack: a scalar as its 64 bits, or the offset of an object in the buffer. */
  datatype StackValue = StackValue(bits: nat, kind: FlexType, minWidth: BitWidth)

  /** A string in the pool: its offset and length. */
  datatype PooledString = PooledString(off: nat, len: nat)

  datatype State = State(
    buf: seq<byte>,
    stack: seq<StackValue>,
    keyPool: seq<nat>,
    stringPool: seq<PooledString>,
    shareKeys: bool,
    shareStrings: bool)

  /** What can be put into a buffer: a tree. */
  datatype Flex =
    | FNull
    | FBool(b: bool)
    | FInt(i: int)
    | FUInt(u: nat)
    | FString(bytes: seq<byte>)
    | FVector(items: seq<Flex>)
    | FMap(entries: seq<MapEntry>)

  datatype MapEntry = MapEntry(key: seq<byte>, value: Flex)

  predicate NulFree(s: seq<byte>) {
    0 !in s
  }

  /** Numbers of 64 bits, and maps whose keys are C strings without repetition. */
  predicate FlexOk(t: Flex)
    decreases t
  {
    match t
    case FInt(i) => -TWO_63 <= i < TWO_63
    case FUInt(u) => u < TWO_64
    case FVector(items) => forall i :: 0 <= i < |items| ==> FlexOk(items[i])
    case FMap(es) =>
      && (forall i :: 0 <= i < |es| ==> NulFree(es[i].key) && FlexOk(es[i].value))
      && (forall i, j :: 0 <= i < j < |es| ==> es[i].key != es[j].key)
    case _ => true
  }

  // ---------- writing ----------

  function AlignTo(buf: seq<byte>, w: BitWidth): (r: seq<byte>)
    ensures buf <= r
  {
    buf + Zeros(PaddingBytes(|buf|, ByteWidth(w)))
  }

  /** The number that is written for a value at position `pos`: a relative offset, if it is not inline. */
  function Payload(v: StackValue, pos: nat): nat {
    if IsInline(v.kind) then v.bits else if v.bits <= pos then pos - v.bits else 0
  }

  function WriteAny(buf: seq<byte>, v: StackValue, byteWidth: nat): seq<byte> {
    buf + LE(Payload(v, |buf|), byteWidth)
  }

  function WriteAll(buf: seq<byte>, elems: seq<StackValue>, byteWidth: nat): (r: seq<byte>)
    ensures buf <= r && |r| == |buf| + |elems| * byteWidth
    decreases |elems|
  {
    if elems == [] then buf else WriteAny(WriteAll(buf, elems[..|elems| - 1], byteWidth), elems[|elems| - 1], byteWidth)
  }

  function StoredWidth(v: StackValue, parent: BitWidth): BitWidth {
    if IsInline(v.kind) then MaxWidth(v.minWidth, parent) else v.minWidth
  }

  function PackedTypes(elems: seq<StackValue>, parent: BitWidth): (r: seq<byte>)
    ensures |r| == |elems|
  {
    seq(|elems|, i requires 0 <= i < |elems| => PackedType(StoredWidth(elems[i], parent), elems[i].kind))
  }

  /** The width that a value asks of the vector, if it is element number `elem`. */
  function ElemWidth(v: StackValue, bufSize: nat, elem: nat): BitWidth {
    if IsInline(v.kind) then v.minWidth
    else if v.bits <= bufSize then OffsetWidth(bufSize, v.bits, elem)
    else 3
  }

  /** The largest width asked for, where element k is tried `step` places after the one before. */
  function ElemsWidth(bufSize: nat, elems: seq<StackValue>, step: nat, prefix: nat): BitWidth
    decreases |elems|
  {
    if elems == [] then 0
    else
      var n := |elems| - 1;
      MaxWidth(ElemsWidth(bufSize, elems[..n], step, prefix), ElemWidth(elems[n], bufSize, n * step + prefix))
  }

  function PrefixElems(keys: Option<StackValue>): nat {
    if keys.Some? then 3 else 1
  }

  function VectorWidth(bufSize: nat, elems: seq<StackValue>, step: nat, keys: Option<StackValue>): BitWidth {
    var own := WidthU(|elems|);
    var withKeys := if keys.Some? then MaxWidth(own, ElemWidth(keys.value, bufSize, 0)) else own;
    MaxWidth(withKeys, ElemsWidth(bufSize, elems, step, PrefixElems(keys)))
  }

  /** The offset and width of the key vector, for the values of a map. */
  function WriteKeys(buf: seq<byte>, keys: Option<StackValue>, byteWidth: nat): (r: seq<byte>)
    ensures buf <= r && |r| == |buf| + (PrefixElems(keys) - 1) * byteWidth
  {
    if keys.None? then buf
    else WriteAny(buf, keys.value, byteWidth) + LE(ByteWidth(keys.value.minWidth), byteWidth)
  }

  /** Everything before the first element. */
  function VectorHeader(buf: seq<byte>, len: nat, w: BitWidth, keys: Option<StackValue>): (r: seq<byte>)
    ensures buf <= r
  {
    WriteKeys(AlignTo(buf, w), keys, ByteWidth(w)) + LE(len, ByteWidth(w))
  }

  /** CreateVector on elements that lie `step` places apart on the stack; typed vectors store no types. */
  function CreateVector(buf: seq<byte>, elems: seq<StackValue>, step: nat, typed: bool, keys: Option<StackValue>): (r: (seq<byte>, StackValue))
    ensures buf <= r.0
  {
    var w := VectorWidth(|buf|, elems, step, keys);
    var header := VectorHeader(buf, |elems|, w, keys);
    var data := WriteAll(header, elems, ByteWidth(w));
    (if typed then data else data + PackedTypes(elems, w),
     StackValue(|header|, if keys.Some? then FBT_MAP else if typed then FBT_VECTOR_KEY else FBT_VECTOR, w))
  }

  // ---------- keys and strings ----------

  /** The C string at this offset. */
  function CString(buf: seq<byte>, off: nat): seq<byte>
    decreases |buf| - off
  {
    if off >= |buf| || buf[off] == 0 then [] else [buf[off]] + CString(buf, off + 1)
  }

  function FindKey(buf: seq<byte>, pool: seq<nat>, key: seq<byte>): Option<nat> {
    if pool == [] then None
    else if CString(buf, pool[0]) == key then Some(pool[0])
    else FindKey(buf, pool[1..], key)
  }

  /** Key: written with its terminator, and taken back if the pool already has it. */
  function AddKey(s: State, key: seq<byte>): State {
    var off := |s.buf|;
    var written := s.buf + key + [0];
    var found := if s.shareKeys then FindKey(written, s.keyPool, CString(written, off)) else None;
    var r := if found.Some? then s else s.(buf := written, keyPool := if s.shareKeys then s.keyPool + [off] else s.keyPool);
    r.(stack := s.stack + [StackValue(if found.Some? then found.value else off, FBT_KEY, 0)])
  }

  predicate PooledBytes(buf: seq<byte>, p: PooledString, str: seq<byte>) {
    p.len == |str| && p.off + p.len <= |buf| && buf[p.off..p.off + p.len] == str
  }

  function FindString(buf: seq<byte>, pool: seq<PooledString>, str: seq<byte>): Option<nat> {
    if pool == [] then None
    else if PooledBytes(buf, pool[0], str) then Some(pool[0].off)
    else FindString(buf, pool[1..], str)
  }

  /** The length, aligned to its width, in front of the bytes and a terminator. */
  function WriteString(buf: seq<byte>, str: seq<byte>): (r: seq<byte>)
    ensures buf <= r && |str| < |r|
  {
    var w := WidthU(|str|);
    AlignTo(buf, w) + LE(|str|, ByteWidth(w)) + str + [0]
  }

  function AddString(s: State, str: seq<byte>): State {
    var w := WidthU(|str|);
    var written := WriteString(s.buf, str);
    var off := |written| - |str| - 1;
    var found := if s.shareStrings then FindString(written, s.stringPool, str) else None;
    var r := if found.Some? then s
             else s.(buf := written, stringPool := if s.shareStrings then s.stringPool + [PooledString(off, |str|)] else s.stringPool);
    r.(stack := s.stack + [StackValue(if found.Some? then found.value else off, FBT_STRING, w)])
  }

  // ---------- vectors and maps ----------

  function PushValue(s: State, v: StackValue): State {
    s.(stack := s.stack + [v])
  }

  function EndVector(s: State, start: nat): State
    requires start <= |s.stack|
  {
    var (buf, vec) := CreateVector(s.buf, s.stack[start..], 1, false, None);
    s.(buf := buf, stack := s.stack[..start] + [vec])
  }

  /** A key and its value, next to each other on the stack. */
  datatype Pair = Pair(key: StackValue, value: StackValue)

  function Pairs(stack: seq<StackValue>): (ps: seq<Pair>)
    requires |stack| % 2 == 0
    ensures |ps| == |stack| / 2
  {
    seq(|stack| / 2, i requires 0 <= i < |stack| / 2 => Pair(stack[2 * i], stack[2 * i + 1]))
  }

  /** The comparison of the sort: strcmp of the keys in the buffer. */
  predicate PairLess(buf: seq<byte>, a: Pair, b: Pair) {
    StringLessThan(CString(buf, a.key.bits), CString(buf, b.key.bits))
  }

  /** std::sort, as an insertion sort. */
  function InsertPair(buf: seq<byte>, sorted: seq<Pair>, p: Pair): (r: seq<Pair>)
    ensures |r| == |sorted| + 1 && multiset(r) == multiset(sorted) + multiset{p}
  {
    if sorted == [] || PairLess(buf, p, sorted[0]) then [p] + sorted
    else
      assert sorted == [sorted[0]] + sorted[1..];
      [sorted[0]] + InsertPair(buf, sorted[1..], p)
  }

  function SortPairs(buf: seq<byte>, ps: seq<Pair>): (r: seq<Pair>)
    ensures |r| == |ps| && multiset(r) == multiset(ps)
  {
    if ps == [] then []
    else
      assert ps == [ps[0]] + ps[1..];
      InsertPair(buf, SortPairs(buf, ps[1..]), ps[0])
  }

  function KeysOf(ps: seq<Pair>): (r: seq<StackValue>)
    ensures |r| == |ps|
  {
    seq(|ps|, i requires 0 <= i < |ps| => ps[i].key)
  }

  function ValuesOf(ps: seq<Pair>): (r: seq<StackValue>)
    ensures |r| == |ps|
  {
    seq(|ps|, i requires 0 <= i < |ps| => ps[i].value)
  }

  /** Every second element from `start` on is a key. */
  predicate KeysFrom(stack: seq<StackValue>, start: nat, n: nat)
    requires start + 2 * n <= |stack|
  {
    forall i :: 0 <= i < n ==> stack[start + 2 * i].kind == FBT_KEY
  }

  predicate CanEndMap(s: State, start: nat) {
    start <= |s.stack| && (|s.stack| - start) % 2 == 0 && KeysFrom(s.stack, start, (|s.stack| - start) / 2)
  }

  /** EndMap: sort by key, then a vector of the keys, then one of the values that refers to it. */
  function EndMap(s: State, start: nat): State
    requires CanEndMap(s, start)
  {
    var sorted := SortPairs(s.buf, Pairs(s.stack[start..]));
    var (withKeys, keys) := CreateVector(s.buf, KeysOf(sorted), 2, true, None);
    var (buf, vec) := CreateVector(withKeys, ValuesOf(sorted), 2, false, Some(keys));
    s.(buf := buf, stack := s.stack[..start] + [vec])
  }

  // ---------- whole trees ----------

  /** The calls that put a tree into the buffer; its value ends up on the stack. */
  function Emit(s: State, t: Flex): (r: State)
    requires FlexOk(t)
    ensures |r.stack| == |s.stack| + 1 && r.stack[..|s.stack|] == s.stack
    decreases t, 1, 0
  {
    match t
    case FNull => PushValue(s, StackValue(0, FBT_NULL, 0))
    case FBool(b) => PushValue(s, StackValue(if b then 1 else 0, FBT_BOOL, 0))
    case FInt(i) => PushValue(s, StackValue(Wrap64(i), FBT_INT, WidthI(i)))
    case FUInt(u) => PushValue(s, StackValue(u, FBT_UINT, WidthU(u)))
    case FString(str) => AddString(s, str)
    case FVector(items) => EndVector(EmitItems(s, t, |items|), |s.stack|)
    case FMap(es) => EndMap(EmitEntries(s, t, |es|), |s.stack|)
  }

  /** The first n elements of a vector. */
  function EmitItems(s: State, t: Flex, n: nat): (r: State)
    requires FlexOk(t) && t.FVector? && n <= |t.items|
    ensures |r.stack| == |s.stack| + n && r.stack[..|s.stack|] == s.stack
    decreases t, 0, n
  {
    if n == 0 then s else Emit(EmitItems(s, t, n - 1), t.items[n - 1])
  }

  /** The first n entries of a map, each as a key and a value. */
  function EmitEntries(s: State, t: Flex, n: nat): (r: State)
    requires FlexOk(t) && t.FMap? && n <= |t.entries|
    ensures |r.stack| == |s.stack| + 2 * n && r.stack[..|s.stack|] == s.stack
    ensures KeysFrom(r.stack, |s.stack|, n)
    decreases t, 0, n
  {
    if n == 0 then s
    else
      var before := EmitEntries(s, t, n - 1);
      var keyed := AddKey(before, t.entries[n - 1].key);
      KeyOnStack(before, t.entries[n - 1].key);
      var r := Emit(keyed, t.entries[n - 1].value);
      EntryOnStack(s.stack, before.stack, keyed.stack, r.stack, n);
      r
  }

  lemma KeyOnStack(s: State, key: seq<byte>)
    ensures var r := AddKey(s, key);
            && |r.stack| == |s.stack| + 1 && r.stack[..|s.stack|] == s.stack && r.stack[|s.stack|].kind == FBT_KEY
  {
  }

  lemma EntryOnStack(a: seq<StackValue>, before: seq<StackValue>, keyed: seq<StackValue>, r: seq<StackValue>, n: nat)
    requires n > 0 && |before| == |a| + 2 * (n - 1) && before[..|a|] == a && KeysFrom(before, |a|, n - 1)
    requires |keyed| == |before| + 1 && keyed[..|before|] == before && keyed[|before|].kind == FBT_KEY
    requires |r| == |keyed| + 1 && r[..|keyed|] == keyed
    ensures r[..|a|] == a && KeysFrom(r, |a|, n)
  {
    forall i | 0 <= i < n
      ensures r[|a| + 2 * i].kind == FBT_KEY
    {
      assert r[|a| + 2 * i] == keyed[|a| + 2 * i];
      if i < n - 1 {
        assert keyed[|a| + 2 * i] == before[|a| + 2 * i];
      }
    }
  }

  /** Finish: the root value, its type and its width, to be read from the end. */
  function Finish(s: State): (buf: seq<byte>)
    requires |s.stack| == 1
  {
    var v := s.stack[0];
    var w := ElemWidth(v, |s.buf|, 0);
    WriteAny(AlignTo(s.buf, w), v, ByteWidth(w)) + [PackedType(StoredWidth(v, 0), v.kind), ByteWidth(w)]
  }

  function Start(shareKeys: bool, shareStrings: bool): State {
    State([], [], [], [], shareKeys, shareStrings)
  }

  function Serialize(t: Flex, shareKeys: bool, shareStrings: bool): seq<byte>
    requires FlexOk(t)
  {
    Finish(Emit(Start(shareKeys, shareStrings), t))
  }
}
