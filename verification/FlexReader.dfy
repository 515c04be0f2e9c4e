/** Reading a FlexBuffer: references into the buffer, walked from the last byte backwards. */
module FlexReader {
  import opened Wrappers
  import opened Bytes
  import opened StringOrder
  import opened TableReader
  import opened FlexWidths
  import opened FlexModel

  /** Where a value is stored, how wide its parent's elements are, and its packed type. */
  datatype Reference = Reference(pos: int, parentWidth: nat, packed: byte)
  {
    function Kind(): FlexType {
      packed / 4
    }

    function Width(): nat {
      ByteWidth(packed % 4)
    }
  }

  // ---------- scalars ----------

  /** ReadSizedScalar: the scalar type picked for a byte width. */
  function Picked(byteWidth: nat): nat {
    if byteWidth < 4 then (if byteWidth < 2 then 1 else 2) else (if byteWidth < 8 then 4 else 8)
  }

  function ReadUInt64(buf: Buffer, pos: int, byteWidth: nat): Access<nat> {
    ReadScalar(buf, pos, Picked(byteWidth))
  }

  function SignExtended(u: nat, n: nat): int {
    if u < Pow256(n) / 2 then u else u - Pow256(n)
  }

  function ReadInt64(buf: Buffer, pos: int, byteWidth: nat): Access<int> {
    var u :- ReadScalar(buf, pos, Picked(byteWidth));
    Value(SignExtended(u, Picked(byteWidth)))
  }

  function AsBool(buf: Buffer, r: Reference): Access<bool> {
    var u :- ReadUInt64(buf, r.pos, r.parentWidth);
    Value(u != 0)
  }

  // ---------- objects behind an offset ----------

  function Indirect(buf: Buffer, r: Reference): Access<int> {
    var o :- ReadUInt64(buf, r.pos, r.parentWidth);
    Value(r.pos - o)
  }

  /** The size field in front of an object. */
  function SizeAt(buf: Buffer, p: int, w: nat): Access<nat> {
    ReadUInt64(buf, p - w, w)
  }

  function StringAt(buf: Buffer, p: int, w: nat): Access<seq<byte>> {
    var size :- SizeAt(buf, p, w);
    if 0 <= p && p + size < |buf| then Value(buf[p..p + size]) else Fault
  }

  /** A NUL-terminated string. */
  function KeyAt(buf: Buffer, p: int): Access<seq<byte>>
    decreases |buf| - p
  {
    if p < 0 || p >= |buf| then Fault
    else if buf[p] == 0 then Value([])
    else
      var rest :- KeyAt(buf, p + 1);
      Value([buf[p]] + rest)
  }

  /** Vector::operator[]: None where the source returns a null reference. */
  function ElementAt(buf: Buffer, p: int, w: nat, i: nat): Access<Option<Reference>> {
    var len :- SizeAt(buf, p, w);
    if i >= len then Value(None)
    else
      var packed :- ReadScalar(buf, p + len * w + i, 1);
      if packed < 256 then Value(Some(Reference(p + i * w, w, packed))) else Fault
  }

  // ---------- maps ----------

  /** The key vector of a map: its position and its element width. */
  datatype KeyVector = KeyVector(pos: int, width: nat)

  function KeysAt(buf: Buffer, p: int, w: nat): Access<KeyVector> {
    var at := p - 3 * w;
    var o :- ReadUInt64(buf, at, w);
    var width :- ReadUInt64(buf, at + w, w);
    Value(KeyVector(at - o, width % 256))
  }

  /** The key that element i of a key vector refers to. */
  function KeyElement(buf: Buffer, keys: KeyVector, i: nat): Access<seq<byte>> {
    var at := keys.pos + i * keys.width;
    var o :- ReadUInt64(buf, at, keys.width);
    KeyAt(buf, at - o)
  }

  /** std::bsearch with strcmp, between lo and hi. */
  function BinarySearch(buf: Buffer, keys: KeyVector, lo: nat, hi: nat, key: seq<byte>): Access<Option<nat>>
    decreases hi - lo
  {
    if lo >= hi then Value(None)
    else
      var mid := (lo + hi) / 2;
      var k :- KeyElement(buf, keys, mid);
      if k == key then Value(Some(mid))
      else if StringLessThan(key, k) then BinarySearch(buf, keys, lo, mid, key)
      else BinarySearch(buf, keys, mid + 1, hi, key)
  }

  /** Map::operator[]; a key vector of another width fails an assertion. */
  function Lookup(buf: Buffer, p: int, w: nat, key: seq<byte>): Access<Option<Reference>> {
    var keys :- KeysAt(buf, p, w);
    if keys.width != 1 && keys.width != 2 && keys.width != 4 && keys.width != 8 then Fault
    else
      var len :- SizeAt(buf, keys.pos, keys.width);
      var found :- BinarySearch(buf, keys, 0, len, key);
      if found.None? then Value(None) else ElementAt(buf, p, w, found.value)
  }

  /** GetRoot: the last byte is the width, the one before it the type. */
  function RootReference(buf: Buffer): Access<Reference> {
    var width :- ReadScalar(buf, |buf| - 1, 1);
    var packed :- ReadScalar(buf, |buf| - 2, 1);
    if packed < 256 then Value(Reference(|buf| - 2 - width, width, packed)) else Fault
  }

  // ---------- what a reference reads as ----------

  function KindOf(t: Flex): FlexType {
    match t
    case FNull => FBT_NULL
    case FBool(_) => FBT_BOOL
    case FInt(_) => FBT_INT
    case FUInt(_) => FBT_UINT
    case FString(_) => FBT_STRING
    case FVector(_) => FBT_VECTOR
    case FMap(_) => FBT_MAP
  }

  predicate KeyIn(es: seq<MapEntry>, key: seq<byte>) {
    exists i :: 0 <= i < |es| && es[i].key == key
  }

  /** Every accessor, on this value and on everything below it, returns what is in the tree. */
  ghost predicate Reads(buf: Buffer, r: Reference, t: Flex)
    decreases t, 1
  {
    && r.Kind() == KindOf(t)
    && match t
       case FNull => true
       case FBool(b) => AsBool(buf, r) == Value(b)
       case FInt(i) => ReadInt64(buf, r.pos, r.parentWidth) == Value(i)
       case FUInt(u) => ReadUInt64(buf, r.pos, r.parentWidth) == Value(u)
       case _ => Indirect(buf, r).Value? && ObjectReads(buf, Indirect(buf, r).value, r.Width(), t)
  }

  /** The same for the object that an offset leads to. */
  ghost predicate ObjectReads(buf: Buffer, p: int, w: nat, t: Flex)
    decreases t, 0
  {
    match t
    case FString(bytes) => StringAt(buf, p, w) == Value(bytes) && ReadScalar(buf, p + |bytes|, 1) == Value(0)
    case FVector(items) =>
      SizeAt(buf, p, w) == Value(|items|) && forall i :: 0 <= i < |items| ==>
        && ElementAt(buf, p, w, i).Value? && ElementAt(buf, p, w, i).value.Some?
        && Reads(buf, ElementAt(buf, p, w, i).value.value, items[i])
    case FMap(es) =>
      && SizeAt(buf, p, w) == Value(|es|)
      && (forall i :: 0 <= i < |es| ==>
            && Lookup(buf, p, w, es[i].key).Value? && Lookup(buf, p, w, es[i].key).value.Some?
            && Reads(buf, Lookup(buf, p, w, es[i].key).value.value, es[i].value))
      && (forall key: seq<byte> :: NulFree(key) && !KeyIn(es, key) ==> Lookup(buf, p, w, key) == Value(None))
    case _ => false
  }

  // ---------- appending keeps every reading ----------

  lemma ScalarStays(buf: Buffer, x: Buffer, pos: int, w: nat)
    requires ReadScalar(buf, pos, w).Value?
    ensures ReadScalar(buf + x, pos, w) == ReadScalar(buf, pos, w)
  {
    assert (buf + x)[pos..pos + w] == buf[pos..pos + w];
  }

  lemma {:induction false} KeyStays(buf: Buffer, x: Buffer, p: int)
    requires KeyAt(buf, p).Value?
    ensures KeyAt(buf + x, p) == KeyAt(buf, p)
    decreases |buf| - p
  {
    if buf[p] != 0 {
      KeyStays(buf, x, p + 1);
    }
  }

  lemma StringStays(buf: Buffer, x: Buffer, p: int, w: nat)
    requires StringAt(buf, p, w).Value?
    ensures StringAt(buf + x, p, w) == StringAt(buf, p, w)
  {
    ScalarStays(buf, x, p - w, Picked(w));
    var size := SizeAt(buf, p, w).value;
    assert (buf + x)[p..p + size] == buf[p..p + size];
    hide ReadScalar;
  }

  lemma ElementStays(buf: Buffer, x: Buffer, p: int, w: nat, i: nat)
    requires ElementAt(buf, p, w, i).Value?
    ensures ElementAt(buf + x, p, w, i) == ElementAt(buf, p, w, i)
  {
    hide ReadScalar;
    ScalarStays(buf, x, p - w, Picked(w));
    var len := SizeAt(buf, p, w).value;
    if i < len {
      ScalarStays(buf, x, p + len * w + i, 1);
    }
  }

  lemma KeyElementStays(buf: Buffer, x: Buffer, keys: KeyVector, i: nat)
    requires KeyElement(buf, keys, i).Value?
    ensures KeyElement(buf + x, keys, i) == KeyElement(buf, keys, i)
  {
    hide ReadScalar, KeyAt;
    var at := keys.pos + i * keys.width;
    ScalarStays(buf, x, at, Picked(keys.width));
    KeyStays(buf, x, at - ReadUInt64(buf, at, keys.width).value);
  }

  lemma {:induction false} SearchStays(buf: Buffer, x: Buffer, keys: KeyVector, lo: nat, hi: nat, key: seq<byte>)
    requires BinarySearch(buf, keys, lo, hi, key).Value?
    ensures BinarySearch(buf + x, keys, lo, hi, key) == BinarySearch(buf, keys, lo, hi, key)
    decreases hi - lo
  {
    hide KeyElement, StringLessThan;
    if lo < hi {
      var mid := (lo + hi) / 2;
      KeyElementStays(buf, x, keys, mid);
      var k := KeyElement(buf, keys, mid).value;
      if k == key {
      } else if StringLessThan(key, k) {
        SearchStays(buf, x, keys, lo, mid, key);
      } else {
        SearchStays(buf, x, keys, mid + 1, hi, key);
      }
    }
  }

  lemma LookupStays(buf: Buffer, x: Buffer, p: int, w: nat, key: seq<byte>)
    requires Lookup(buf, p, w, key).Value?
    ensures Lookup(buf + x, p, w, key) == Lookup(buf, p, w, key)
  {
    hide ReadScalar, BinarySearch, ElementAt;
    ScalarStays(buf, x, p - 3 * w, Picked(w));
    ScalarStays(buf, x, p - 3 * w + w, Picked(w));
    var keys := KeysAt(buf, p, w).value;
    ScalarStays(buf, x, keys.pos - keys.width, Picked(keys.width));
    var len := SizeAt(buf, keys.pos, keys.width).value;
    SearchStays(buf, x, keys, 0, len, key);
    var found := BinarySearch(buf, keys, 0, len, key).value;
    if found.Some? {
      ElementStays(buf, x, p, w, found.value);
    }
  }

  lemma {:induction false} ReadsStays(buf: Buffer, x: Buffer, r: Reference, t: Flex)
    requires Reads(buf, r, t)
    ensures Reads(buf + x, r, t)
    decreases t, 1
  {
    hide ReadScalar, ObjectReads;
    if ReadScalar(buf, r.pos, Picked(r.parentWidth)).Value? {
      ScalarStays(buf, x, r.pos, Picked(r.parentWidth));
    }
    if !IsInline(KindOf(t)) {
      ObjectStays(buf, x, Indirect(buf, r).value, r.Width(), t);
    }
  }

  lemma {:induction false} ObjectStays(buf: Buffer, x: Buffer, p: int, w: nat, t: Flex)
    requires ObjectReads(buf, p, w, t)
    ensures ObjectReads(buf + x, p, w, t)
    decreases t, 0
  {
    hide ReadScalar, StringAt, ElementAt, Lookup, Reads;
    match t
    case FString(bytes) =>
      StringStays(buf, x, p, w);
      ScalarStays(buf, x, p + |bytes|, 1);
    case FVector(items) =>
      ScalarStays(buf, x, p - w, Picked(w));
      forall i | 0 <= i < |items|
        ensures ElementAt(buf + x, p, w, i) == ElementAt(buf, p, w, i)
        ensures Reads(buf + x, ElementAt(buf, p, w, i).value.value, items[i])
      {
        ElementStays(buf, x, p, w, i);
        ReadsStays(buf, x, ElementAt(buf, p, w, i).value.value, items[i]);
      }
    case FMap(es) =>
      ScalarStays(buf, x, p - w, Picked(w));
      forall i | 0 <= i < |es|
        ensures Lookup(buf + x, p, w, es[i].key) == Lookup(buf, p, w, es[i].key)
        ensures Reads(buf + x, Lookup(buf, p, w, es[i].key).value.value, es[i].value)
      {
        LookupStays(buf, x, p, w, es[i].key);
        ReadsStays(buf, x, Lookup(buf, p, w, es[i].key).value.value, es[i].value);
      }
      forall key: seq<byte> | NulFree(key) && !KeyIn(es, key)
        ensures Lookup(buf + x, p, w, key) == Value(None)
      {
        LookupStays(buf, x, p, w, key);
      }
    case _ =>
  }
}
