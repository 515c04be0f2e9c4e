/** Maps: EndMap sorts the entries, and binary search in the buffer then agrees with a linear search. */
module FlexMaps {
  import opened Wrappers
  import opened Bytes
  import opened Alignment
  import opened StringOrder
  import opened TableReader
  import opened FlexWidths
  import opened FlexModel
  import opened FlexReader
  import opened FlexVectors

  // ---------- binary search ----------

  /** No key of the sequence is at or after one that follows it. */
  predicate StrictlySorted(ks: seq<seq<byte>>) {
    forall i, j :: 0 <= i < j < |ks| ==> StringLessThan(ks[i], ks[j])
  }

  /** The key vector refers to these keys. */
  ghost predicate KeysRead(buf: Buffer, keys: KeyVector, ks: seq<seq<byte>>) {
    forall i :: 0 <= i < |ks| ==> KeyElement(buf, keys, i) == Value(ks[i])
  }

  predicate FoundIn(ks: seq<seq<byte>>, lo: nat, hi: nat, key: seq<byte>, found: Option<nat>)
    requires hi <= |ks|
  {
    match found
    case Some(i) => lo <= i < hi && ks[i] == key
    case None => forall i :: lo <= i < hi ==> ks[i] != key
  }

  /** Binary search in the buffer returns what a linear search through the keys would. */
  lemma {:induction false} SearchFinds(buf: Buffer, keys: KeyVector, ks: seq<seq<byte>>, lo: nat, hi: nat, key: seq<byte>)
    requires KeysRead(buf, keys, ks) && StrictlySorted(ks) && lo <= hi <= |ks|
    ensures BinarySearch(buf, keys, lo, hi, key).Value?
    ensures FoundIn(ks, lo, hi, key, BinarySearch(buf, keys, lo, hi, key).value)
    decreases hi - lo
  {
    hide KeyElement, StringLessThan;
    if lo < hi {
      var mid := (lo + hi) / 2;
      var k := ks[mid];
      assert KeyElement(buf, keys, mid) == Value(k);
      EquivalentIsEqual(key, k);
      if k == key {
      } else if StringLessThan(key, k) {
        SearchFinds(buf, keys, ks, lo, mid, key);
        forall i | mid <= i < hi ensures ks[i] != key {
          NotBelow(ks, mid, i, key);
        }
      } else {
        SearchFinds(buf, keys, ks, mid + 1, hi, key);
        forall i | lo <= i <= mid ensures ks[i] != key {
          NotAbove(ks, mid, i, key);
        }
      }
    }
  }

  lemma NotBelow(ks: seq<seq<byte>>, mid: nat, i: nat, key: seq<byte>)
    requires StrictlySorted(ks) && mid <= i < |ks| && StringLessThan(key, ks[mid])
    ensures ks[i] != key
  {
    EquivalentIsEqual(key, key);
    if mid < i && ks[i] == key {
      LessTransitive(key, ks[mid], ks[i]);
    }
  }

  lemma NotAbove(ks: seq<seq<byte>>, mid: nat, i: nat, key: seq<byte>)
    requires StrictlySorted(ks) && i <= mid < |ks| && !StringLessThan(key, ks[mid]) && key != ks[mid]
    ensures ks[i] != key
  {
    EquivalentIsEqual(key, ks[mid]);
    EquivalentIsEqual(key, key);
    if i < mid && ks[i] == key {
      LessTransitive(ks[i], ks[mid], key);
    }
  }

  // ---------- sorting ----------

  lemma {:induction false} KeyIsCString(buf: Buffer, off: nat, key: seq<byte>)
    requires KeyAt(buf, off) == Value(key)
    ensures CString(buf, off) == key
    decreases |buf| - off
  {
    if buf[off] != 0 {
      KeyIsCString(buf, off + 1, KeyAt(buf, off + 1).value);
    }
  }

  predicate InOrder(buf: Buffer, ps: seq<Pair>)
    decreases |ps|
  {
    ps == [] || ((forall q <- ps[1..] :: !PairLess(buf, q, ps[0])) && InOrder(buf, ps[1..]))
  }

  lemma PairLessTransitive(buf: Buffer, a: Pair, b: Pair, c: Pair)
    requires PairLess(buf, a, b) && !PairLess(buf, c, b)
    ensures !PairLess(buf, c, a)
  {
    hide StringLessThan, CString;
    var x, y, z := CString(buf, a.key.bits), CString(buf, b.key.bits), CString(buf, c.key.bits);
    if StringLessThan(z, x) {
      LessTransitive(z, x, y);
    }
  }

  lemma {:induction false} InsertKeepsOrder(buf: Buffer, sorted: seq<Pair>, p: Pair)
    requires InOrder(buf, sorted)
    ensures InOrder(buf, InsertPair(buf, sorted, p))
    decreases |sorted|
  {
    hide PairLess;
    var r := InsertPair(buf, sorted, p);
    if sorted == [] {
      assert r[1..] == [];
    } else if PairLess(buf, p, sorted[0]) {
      assert r[1..] == sorted;
      forall q | q in sorted ensures !PairLess(buf, q, p) {
        if q == sorted[0] {
          PairNotBoth(buf, p, q);
        } else {
          assert q in sorted[1..];
          PairLessTransitive(buf, p, sorted[0], q);
        }
      }
    } else {
      assert r[1..] == InsertPair(buf, sorted[1..], p);
      InsertKeepsOrder(buf, sorted[1..], p);
      forall q | q in r[1..] ensures !PairLess(buf, q, sorted[0]) {
        assert q in multiset(r[1..]);
      }
    }
  }

  lemma PairNotBoth(buf: Buffer, a: Pair, b: Pair)
    requires PairLess(buf, a, b)
    ensures !PairLess(buf, b, a)
  {
    hide StringLessThan, CString;
    var x, y := CString(buf, a.key.bits), CString(buf, b.key.bits);
    if StringLessThan(y, x) {
      LessTransitive(x, y, x);
      EquivalentIsEqual(x, x);
    }
  }

  lemma {:induction false} SortSorts(buf: Buffer, ps: seq<Pair>)
    ensures InOrder(buf, SortPairs(buf, ps))
    decreases |ps|
  {
    hide PairLess;
    if ps != [] {
      SortSorts(buf, ps[1..]);
      InsertKeepsOrder(buf, SortPairs(buf, ps[1..]), ps[0]);
    }
  }

  /** The pairs on the stack hold the entries of the map, in the order in which they were added. */
  ghost predicate PairsHold(buf: Buffer, ps: seq<Pair>, es: seq<MapEntry>) {
    |ps| == |es| && forall i :: 0 <= i < |es| ==> PairHolds(buf, ps[i], es[i])
  }

  ghost predicate PairHolds(buf: Buffer, p: Pair, e: MapEntry) {
    HoldsKey(buf, p.key, e.key) && Holds(buf, p.value, e.value)
  }

  predicate DistinctKeys(es: seq<MapEntry>) {
    forall i, j :: 0 <= i < j < |es| ==> es[i].key != es[j].key
  }

  lemma PairKey(buf: Buffer, p: Pair, e: MapEntry)
    requires PairHolds(buf, p, e)
    ensures CString(buf, p.key.bits) == e.key
  {
    hide Holds;
    KeyIsCString(buf, p.key.bits, e.key);
  }

  /** Inserting a pair is inserting its entry. */
  lemma {:induction false} InsertHolds(buf: Buffer, ps: seq<Pair>, es: seq<MapEntry>, p: Pair, e: MapEntry) returns (r: seq<MapEntry>)
    requires PairsHold(buf, ps, es) && PairHolds(buf, p, e)
    ensures PairsHold(buf, InsertPair(buf, ps, p), r) && multiset(r) == multiset(es) + multiset{e}
    decreases |ps|
  {
    hide PairHolds, PairLess;
    if ps == [] || PairLess(buf, p, ps[0]) {
      r := [e] + es;
    } else {
      assert PairsHold(buf, ps[1..], es[1..]);
      var rest := InsertHolds(buf, ps[1..], es[1..], p, e);
      r := [es[0]] + rest;
      assert es == [es[0]] + es[1..];
    }
  }

  lemma PairsTail(buf: Buffer, ps: seq<Pair>, es: seq<MapEntry>)
    requires PairsHold(buf, ps, es)
    ensures |ps| == |es|
    ensures ps == [] ==> PairsHold(buf, [], [])
    ensures ps != [] ==> PairHolds(buf, ps[0], es[0]) && PairsHold(buf, ps[1..], es[1..])
  {
    hide PairHolds;
  }

  lemma {:induction false} SortHolds(buf: Buffer, ps: seq<Pair>, es: seq<MapEntry>) returns (r: seq<MapEntry>)
    requires PairsHold(buf, ps, es)
    ensures PairsHold(buf, SortPairs(buf, ps), r) && multiset(r) == multiset(es)
    decreases |ps|
  {
    hide PairHolds, PairLess, PairsHold, InsertPair;
    PairsTail(buf, ps, es);
    if ps == [] {
      r := [];
    } else {
      var rest := SortHolds(buf, ps[1..], es[1..]);
      r := InsertHolds(buf, SortPairs(buf, ps[1..]), rest, ps[0], es[0]);
      assert es == [es[0]] + es[1..];
    }
  }

  function KeyTexts(es: seq<MapEntry>): (ks: seq<seq<byte>>)
    ensures |ks| == |es|
  {
    seq(|es|, i requires 0 <= i < |es| => es[i].key)
  }

  /** Distinct keys that are in order are strictly sorted. */
  lemma {:induction false} OrderIsStrict(buf: Buffer, ps: seq<Pair>, es: seq<MapEntry>)
    requires PairsHold(buf, ps, es) && InOrder(buf, ps) && DistinctKeys(es)
    ensures StrictlySorted(KeyTexts(es))
    decreases |ps|
  {
    hide StringLessThan, PairHolds;
    if ps != [] {
      assert PairsHold(buf, ps[1..], es[1..]);
      OrderIsStrict(buf, ps[1..], es[1..]);
      var ks := KeyTexts(es);
      assert forall i :: 0 <= i < |es| - 1 ==> KeyTexts(es[1..])[i] == ks[i + 1];
      forall j | 1 <= j < |es| ensures StringLessThan(ks[0], ks[j]) {
        assert ps[j] in ps[1..] by { assert ps[1..][j - 1] == ps[j]; }
        PairKey(buf, ps[0], es[0]);
        PairKey(buf, ps[j], es[j]);
        EquivalentIsEqual(ks[0], ks[j]);
      }
      forall i, j | 0 <= i < j < |es| ensures StringLessThan(ks[i], ks[j]) {
        if i > 0 {
          assert StringLessThan(KeyTexts(es[1..])[i - 1], KeyTexts(es[1..])[j - 1]);
        }
      }
    }
  }

  lemma RearrangedKeys(es: seq<MapEntry>, sorted: seq<MapEntry>)
    requires multiset(es) == multiset(sorted)
    ensures |es| == |sorted|
    ensures forall e :: e in es <==> e in sorted
  {
    assert |multiset(es)| == |es| && |multiset(sorted)| == |sorted|;
    forall e ensures e in es <==> e in sorted {
      assert e in es <==> e in multiset(es);
      assert e in sorted <==> e in multiset(sorted);
    }
  }

  lemma {:induction false} DistinctCount(es: seq<MapEntry>, e: MapEntry)
    requires DistinctKeys(es)
    ensures multiset(es)[e] <= 1
  {
    if es != [] {
      DistinctCount(es[1..], e);
      FirstNotRepeated(es);
      assert es == [es[0]] + es[1..];
    }
  }

  lemma FirstNotRepeated(es: seq<MapEntry>)
    requires es != [] && DistinctKeys(es)
    ensures es[0] !in es[1..]
  {
    assert forall j :: 1 <= j < |es| ==> es[j].key != es[0].key;
    assert forall j :: 0 <= j < |es| - 1 ==> es[1..][j] == es[j + 1];
  }

  lemma CountedTwice(es: seq<MapEntry>, i: nat, j: nat)
    requires i < j < |es| && es[i] == es[j]
    ensures multiset(es)[es[i]] >= 2
  {
    assert es == es[..j] + [es[j]] + es[j + 1..];
    assert es[..j][i] == es[i];
    assert es[i] in multiset(es[..j]);
  }

  lemma RearrangedDistinct(es: seq<MapEntry>, sorted: seq<MapEntry>)
    requires multiset(es) == multiset(sorted) && DistinctKeys(es)
    ensures DistinctKeys(sorted)
  {
    RearrangedKeys(es, sorted);
    forall i, j | 0 <= i < j < |sorted|
      ensures sorted[i].key != sorted[j].key
    {
      assert sorted[i] in sorted && sorted[j] in sorted;
      var a :| 0 <= a < |es| && es[a] == sorted[i];
      var b :| 0 <= b < |es| && es[b] == sorted[j];
      if sorted[i].key == sorted[j].key {
        assert a == b;
        CountedTwice(sorted, i, j);
        DistinctCount(es, sorted[i]);
      }
    }
  }

  // ---------- the key vector ----------

  /** Element i of the key vector leads to the key. */
  lemma KeyElementReads(buf: Buffer, v: StackValue, elems: seq<StackValue>, i: nat, key: seq<byte>)
    requires VectorAt(buf, v.bits, v.minWidth, elems) && i < |elems| && HoldsKey(buf, elems[i], key)
    ensures KeyElement(buf, KeyVector(v.bits, ByteWidth(v.minWidth)), i) == Value(key)
  {
    hide NumberAt, FitsU, KeyAt, ReadScalar;
    assert ElementOk(buf, v.bits, v.minWidth, elems[i], i);
    var pos := v.bits + i * ByteWidth(v.minWidth);
    NumberReads(buf, pos, Payload(elems[i], pos), v.minWidth);
  }

  lemma KeyVectorReads(buf: Buffer, sorted: seq<Pair>, es: seq<MapEntry>)
    requires PairsHold(buf, sorted, es) && |buf| < MEMORY && |es| < MEMORY
    ensures var (r, v) := CreateVector(buf, KeysOf(sorted), 2, true, None);
            && v.bits <= |r| && v.kind == FBT_VECTOR_KEY
            && KeysRead(r, KeyVector(v.bits, ByteWidth(v.minWidth)), KeyTexts(es))
            && SizeAt(r, v.bits, ByteWidth(v.minWidth)) == Value(|es|)
  {
    hide CreateVector, VectorAt, HoldsKey, InBuffer, KeyElement, SizeAt, Holds;
    var elems := KeysOf(sorted);
    var (r, v) := CreateVector(buf, elems, 2, true, None);
    forall e | e in elems ensures InBuffer(buf, e) {
      var k :| 0 <= k < |elems| && elems[k] == e;
      assert PairHolds(buf, sorted[k], es[k]);
      KeyInBuffer(buf, e, es[k].key);
    }
    CreateVectorLands(buf, elems, 2, true, None);
    VectorValue(buf, elems, 2, true, None);
    SizeReads(r, v.bits, v.minWidth, elems);
    PrefixSplit(buf, r);
    forall i | 0 <= i < |es|
      ensures KeyElement(r, KeyVector(v.bits, ByteWidth(v.minWidth)), i) == Value(KeyTexts(es)[i])
    {
      assert PairHolds(buf, sorted[i], es[i]);
      HoldsKeyStays(buf, r[|buf|..], elems[i], es[i].key);
      KeyElementReads(r, v, elems, i, es[i].key);
    }
  }

  lemma KeyInBuffer(buf: Buffer, v: StackValue, key: seq<byte>)
    requires HoldsKey(buf, v, key)
    ensures InBuffer(buf, v)
  {
  }

  // ---------- the values ----------

  /** The header of the values leads back to the key vector. */
  lemma HeaderLeadsToKeys(buf: Buffer, len: nat, w: BitWidth, keys: StackValue, r: Buffer)
    requires keys.bits <= |buf| && keys.kind == FBT_VECTOR_KEY && |buf| < MEMORY && ElemWidth(keys, |buf|, 0) <= w
    requires VectorHeader(buf, len, w, Some(keys)) <= r
    ensures KeysAt(r, |VectorHeader(buf, len, w, Some(keys))|, ByteWidth(w)) ==
            Value(KeyVector(keys.bits, ByteWidth(keys.minWidth)))
  {
    hide LE, OffsetWidth, FitsU, NumberAt, VectorHeader, AlignTo, PaddingBytes, KeysAt, ElemWidth, TrialOffset;
    var bw, aligned, header := ByteWidth(w), AlignTo(buf, w), VectorHeader(buf, len, w, Some(keys));
    HeaderLength(buf, len, w, Some(keys));
    KeysWritten(buf, len, w, keys);
    PrefixSplit(header, r);
    NumberStays(header, r[|header|..], |aligned|, |aligned| - keys.bits, w);
    NumberStays(header, r[|header|..], |aligned| + bw, ByteWidth(keys.minWidth), w);
    KeyOffsetFits(buf, w, keys);
    SmallFits(ByteWidth(keys.minWidth), w);
    KeysPlaced(r, |aligned|, keys, w);
  }

  lemma KeyOffsetFits(buf: Buffer, w: BitWidth, keys: StackValue)
    requires keys.bits <= |buf| && keys.kind == FBT_VECTOR_KEY && |buf| < MEMORY && ElemWidth(keys, |buf|, 0) <= w
    ensures keys.bits <= |AlignTo(buf, w)| && FitsU(|AlignTo(buf, w)| - keys.bits, w)
  {
    hide OffsetWidth, FitsU, AlignTo, PaddingBytes;
    AlignedLength(buf, w);
    ChosenWidthFits(|buf|, keys.bits, 0, 0, w);
  }

  lemma KeysPlaced(r: Buffer, at: nat, keys: StackValue, w: BitWidth)
    requires keys.bits <= at && NumberAt(r, at, at - keys.bits, w) && FitsU(at - keys.bits, w)
    requires NumberAt(r, at + ByteWidth(w), ByteWidth(keys.minWidth), w) && FitsU(ByteWidth(keys.minWidth), w)
    ensures KeysAt(r, at + 3 * ByteWidth(w), ByteWidth(w)) == Value(KeyVector(keys.bits, ByteWidth(keys.minWidth)))
  {
    hide NumberAt, FitsU, ReadScalar;
    NumberReads(r, at, at - keys.bits, w);
    NumberReads(r, at + ByteWidth(w), ByteWidth(keys.minWidth), w);
  }

  lemma AlignedLength(buf: Buffer, w: BitWidth)
    ensures |AlignTo(buf, w)| == |buf| + PaddingBytes(|buf|, ByteWidth(w))
  {
  }

  lemma SmallFits(b: nat, w: BitWidth)
    requires b <= 8
    ensures FitsU(b, w)
  {
    WidthsAreBytes();
  }

  lemma KeysWritten(buf: Buffer, len: nat, w: BitWidth, keys: StackValue)
    requires keys.bits <= |buf| && keys.kind == FBT_VECTOR_KEY
    ensures var header, at := VectorHeader(buf, len, w, Some(keys)), |AlignTo(buf, w)|;
            && keys.bits <= at
            && NumberAt(header, at, at - keys.bits, w)
            && NumberAt(header, at + ByteWidth(w), ByteWidth(keys.minWidth), w)
  {
    hide LE, AlignTo;
    var aligned, bw := AlignTo(buf, w), ByteWidth(w);
    var a, b, c := LE(|aligned| - keys.bits, bw), LE(ByteWidth(keys.minWidth), bw), LE(len, bw);
    assert VectorHeader(buf, len, w, Some(keys)) == aligned + a + b + c;
    JustWritten(aligned, |aligned| - keys.bits, w);
    NumberStays(aligned + a, b, |aligned|, |aligned| - keys.bits, w);
    NumberStays(aligned + a + b, c, |aligned|, |aligned| - keys.bits, w);
    JustWritten(aligned + a, ByteWidth(keys.minWidth), w);
    NumberStays(aligned + a + b, c, |aligned| + bw, ByteWidth(keys.minWidth), w);
  }

  // ---------- whole maps ----------

  /** The two vectors that EndMap creates. */
  function MapVectors(buf: Buffer, sorted: seq<Pair>): (r: (Buffer, StackValue, Buffer, StackValue)) {
    var (withKeys, keys) := CreateVector(buf, KeysOf(sorted), 2, true, None);
    var (out, vec) := CreateVector(withKeys, ValuesOf(sorted), 2, false, Some(keys));
    (withKeys, keys, out, vec)
  }

  /** What lookup relies on: sorted keys that can be read, and values that read as theirs. */
  ghost predicate MapAt(buf: Buffer, p: nat, w: BitWidth, keys: KeyVector, es: seq<MapEntry>) {
    && StrictlySorted(KeyTexts(es))
    && KeysAt(buf, p, ByteWidth(w)) == Value(keys)
    && (keys.width == 1 || keys.width == 2 || keys.width == 4 || keys.width == 8)
    && SizeAt(buf, keys.pos, keys.width) == Value(|es|)
    && KeysRead(buf, keys, KeyTexts(es))
    && SizeAt(buf, p, ByteWidth(w)) == Value(|es|)
    && forall i :: 0 <= i < |es| ==> ValueAt(buf, p, w, i, es[i].value)
  }

  ghost predicate ValueAt(buf: Buffer, p: nat, w: BitWidth, i: nat, t: Flex) {
    var e := ElementAt(buf, p, ByteWidth(w), i);
    e.Value? && e.value.Some? && Reads(buf, e.value.value, t)
  }

  /** A key vector whose elements have a width that no builder writes fails the assertion. */
  lemma OtherWidthsAssert(buf: Buffer, p: int, w: nat, key: seq<byte>)
    requires KeysAt(buf, p, w).Value? && Lookup(buf, p, w, key).Value?
    ensures exists width: BitWidth :: KeysAt(buf, p, w).value.width == ByteWidth(width)
  {
    hide KeysAt, BinarySearch, SizeAt, ElementAt;
    var n := KeysAt(buf, p, w).value.width;
    assert n == ByteWidth(if n == 1 then 0 else if n == 2 then 1 else if n == 4 then 2 else 3);
  }

  /** Lookup returns the value added under a key, and null for a key that was not added. */
  lemma LookupAgrees(buf: Buffer, p: nat, w: BitWidth, keys: KeyVector, es: seq<MapEntry>, key: seq<byte>)
    requires MapAt(buf, p, w, keys, es)
    ensures Lookup(buf, p, ByteWidth(w), key).Value?
    ensures !KeyIn(es, key) ==> Lookup(buf, p, ByteWidth(w), key) == Value(None)
    ensures forall i :: 0 <= i < |es| && es[i].key == key ==>
              && Lookup(buf, p, ByteWidth(w), key).value.Some?
              && Reads(buf, Lookup(buf, p, ByteWidth(w), key).value.value, es[i].value)
  {
    hide KeysAt, SizeAt, KeysRead, BinarySearch, ElementAt, Reads, StringLessThan;
    var ks := KeyTexts(es);
    SearchFinds(buf, keys, ks, 0, |ks|, key);
    var found := BinarySearch(buf, keys, 0, |ks|, key).value;
    if found.Some? {
      assert ValueAt(buf, p, w, found.value, es[found.value].value);
      assert Lookup(buf, p, ByteWidth(w), key) == ElementAt(buf, p, ByteWidth(w), found.value);
      forall i | 0 <= i < |es| && es[i].key == key ensures i == found.value {
        assert ks[i] == key;
        OnlyOnce(ks, i, found.value);
      }
      assert es[found.value].key == key;
    } else {
      assert forall i :: 0 <= i < |es| ==> ks[i] != key && ks[i] == es[i].key;
    }
  }

  lemma OnlyOnce(ks: seq<seq<byte>>, i: nat, j: nat)
    requires StrictlySorted(ks) && i < |ks| && j < |ks| && ks[i] == ks[j]
    ensures i == j
  {
    EquivalentIsEqual(ks[i], ks[j]);
  }

  /** The same lookups under the original order of the entries. */
  lemma MapReadsAs(buf: Buffer, p: nat, w: BitWidth, keys: KeyVector, sorted: seq<MapEntry>, es: seq<MapEntry>)
    requires MapAt(buf, p, w, keys, sorted) && multiset(sorted) == multiset(es)
    ensures ObjectReads(buf, p, ByteWidth(w), FMap(es))
  {
    hide KeysAt, KeysRead, Lookup, Reads, StrictlySorted, ValueAt, SizeAt;
    RearrangedKeys(es, sorted);
    forall i | 0 <= i < |es|
      ensures Lookup(buf, p, ByteWidth(w), es[i].key).Value? && Lookup(buf, p, ByteWidth(w), es[i].key).value.Some?
      ensures Reads(buf, Lookup(buf, p, ByteWidth(w), es[i].key).value.value, es[i].value)
    {
      assert es[i] in es;
      var j :| 0 <= j < |sorted| && sorted[j] == es[i];
      LookupAgrees(buf, p, w, keys, sorted, es[i].key);
    }
    forall key: seq<byte> | NulFree(key) && !KeyIn(es, key)
      ensures Lookup(buf, p, ByteWidth(w), key) == Value(None)
    {
      LookupAgrees(buf, p, w, keys, sorted, key);
      SameKeys(sorted, es, key);
    }
  }

  lemma SameKeys(a: seq<MapEntry>, b: seq<MapEntry>, key: seq<byte>)
    requires forall e :: e in a ==> e in b
    ensures KeyIn(a, key) ==> KeyIn(b, key)
  {
    if KeyIn(a, key) {
      var j :| 0 <= j < |a| && a[j].key == key;
      assert a[j] in a;
      var i :| 0 <= i < |b| && b[i] == a[j];
    }
  }

  lemma SortedMapAt(buf: Buffer, sorted: seq<Pair>, es: seq<MapEntry>)
    requires PairsHold(buf, sorted, es) && InOrder(buf, sorted) && DistinctKeys(es)
    requires |es| < MEMORY && |MapVectors(buf, sorted).0| < MEMORY && |buf| < MEMORY
    ensures var (withKeys, keys, out, vec) := MapVectors(buf, sorted);
            MapAt(out, vec.bits, vec.minWidth, KeyVector(keys.bits, ByteWidth(keys.minWidth)), es)
  {
    hide CreateVector, KeysAt, SizeAt, StringLessThan, PairHolds, KeyElement, ElementAt, Reads, InBuffer, VectorAt, TypesAt, VectorHeader, VectorWidth;
    var (withKeys, keys, out, vec) := MapVectors(buf, sorted);
    OrderIsStrict(buf, sorted, es);
    KeyVectorReads(buf, sorted, es);
    ValuesLand(buf, sorted, es, withKeys, keys);
    MapHeader(withKeys, ValuesOf(sorted), keys);
    PrefixSplit(withKeys, out);
    SizeStays(withKeys, out[|withKeys|..], keys.bits, ByteWidth(keys.minWidth));
    forall i | 0 <= i < |es|
      ensures KeyElement(out, KeyVector(keys.bits, ByteWidth(keys.minWidth)), i) == Value(KeyTexts(es)[i])
    {
      KeyElementStays(withKeys, out[|withKeys|..], KeyVector(keys.bits, ByteWidth(keys.minWidth)), i);
    }
  }

  lemma SizeStays(buf: Buffer, x: Buffer, p: int, w: nat)
    requires SizeAt(buf, p, w).Value?
    ensures SizeAt(buf + x, p, w) == SizeAt(buf, p, w)
  {
    ScalarStays(buf, x, p - w, Picked(w));
  }

  lemma MapHeader(buf: Buffer, values: seq<StackValue>, keys: StackValue)
    requires keys.bits <= |buf| && keys.kind == FBT_VECTOR_KEY && |buf| < MEMORY
    ensures var (out, vec) := CreateVector(buf, values, 2, false, Some(keys));
            KeysAt(out, vec.bits, ByteWidth(vec.minWidth)) == Value(KeyVector(keys.bits, ByteWidth(keys.minWidth)))
  {
    hide KeysAt, VectorHeader, WriteAll, ElemsWidth, ElemWidth, WidthU;
    var w := VectorWidth(|buf|, values, 2, Some(keys));
    HeaderLeadsToKeys(buf, |values|, w, keys, CreateVector(buf, values, 2, false, Some(keys)).0);
  }

  /** The values of the map, read as elements of its vector. */
  lemma ValuesLand(buf: Buffer, sorted: seq<Pair>, es: seq<MapEntry>, withKeys: Buffer, keys: StackValue)
    requires PairsHold(buf, sorted, es) && buf <= withKeys && |withKeys| < MEMORY && |es| < MEMORY
    ensures var (out, vec) := CreateVector(withKeys, ValuesOf(sorted), 2, false, Some(keys));
            && SizeAt(out, vec.bits, ByteWidth(vec.minWidth)) == Value(|es|)
            && forall i :: 0 <= i < |es| ==> ValueAt(out, vec.bits, vec.minWidth, i, es[i].value)
  {
    hide CreateVector, VectorAt, TypesAt, Holds, HoldsKey, InBuffer, ElementAt, Reads, SizeAt;
    var values := ValuesOf(sorted);
    var (out, vec) := CreateVector(withKeys, values, 2, false, Some(keys));
    PrefixSplit(buf, withKeys);
    PrefixSplit(withKeys, out);
    forall i | 0 <= i < |es|
      ensures Holds(withKeys, values[i], es[i].value)
    {
      assert PairHolds(buf, sorted[i], es[i]);
      HoldsStays(buf, withKeys[|buf|..], values[i], es[i].value);
    }
    forall v | v in values ensures InBuffer(withKeys, v) {
      var k :| 0 <= k < |values| && values[k] == v;
      HeldInBuffer(withKeys, v, es[k].value);
    }
    CreateVectorLands(withKeys, values, 2, false, Some(keys));
    SizeReads(out, vec.bits, vec.minWidth, values);
    forall i | 0 <= i < |es|
      ensures ValueAt(out, vec.bits, vec.minWidth, i, es[i].value)
    {
      HoldsStays(withKeys, out[|withKeys|..], values[i], es[i].value);
      ElementReads(out, vec.bits, vec.minWidth, values, i, es[i].value);
    }
  }

  /** The map that EndMap leaves on the stack reads as the entries that were added. */
  lemma MapReads(buf: Buffer, ps: seq<Pair>, es: seq<MapEntry>)
    requires PairsHold(buf, ps, es) && DistinctKeys(es) && |es| < MEMORY
    requires |buf| < MEMORY && |MapVectors(buf, SortPairs(buf, ps)).0| < MEMORY
    ensures Holds(MapVectors(buf, SortPairs(buf, ps)).2, MapVectors(buf, SortPairs(buf, ps)).3, FMap(es))
  {
    hide CreateVector, PairHolds, MapAt, Holds, ObjectReads, SortPairs, PairsHold, DistinctKeys, VectorWidth, AlignTo;
    var sorted := SortPairs(buf, ps);
    SortSorts(buf, ps);
    var rearranged := SortHolds(buf, ps, es);
    RearrangedDistinct(es, rearranged);
    RearrangedKeys(es, rearranged);
    SortedMapAt(buf, sorted, rearranged);
    var (withKeys, keys, out, vec) := MapVectors(buf, sorted);
    MapReadsAs(out, vec.bits, vec.minWidth, KeyVector(keys.bits, ByteWidth(keys.minWidth)), rearranged, es);
    VectorValue(withKeys, ValuesOf(sorted), 2, false, Some(keys));
    VectorHeld(out, vec, FMap(es));
  }
}
