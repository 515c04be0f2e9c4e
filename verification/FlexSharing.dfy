/** Sharing of keys and strings over the whole of a tree: one offset for each text. */
module FlexSharing {
  import opened Wrappers
  import opened Bytes
  import opened FlexWidths
  import opened FlexModel
  import opened FlexReader
  import opened FlexVectors
  import opened FlexMaps
  import opened FlexRoundTrip

  // ---------- where the texts of a tree end up ----------

  /** A key or a string of the tree, and the offset that it was given. */
  datatype Use = KeyUse(text: seq<byte>, off: nat) | StringUse(text: seq<byte>, off: nat)

  /** All keys and strings of a tree, in the order in which they are added. */
  function Uses(s: State, t: Flex): seq<Use>
    requires FlexOk(t)
    decreases t, 1, 0
  {
    match t
    case FString(str) => [StringUse(str, TopOf(s, AddString(s, str)))]
    case FVector(items) => ItemUses(s, t, |items|)
    case FMap(es) => EntryUses(s, t, |es|)
    case _ => []
  }

  function ItemUses(s: State, t: Flex, n: nat): seq<Use>
    requires FlexOk(t) && t.FVector? && n <= |t.items|
    decreases t, 0, n
  {
    if n == 0 then [] else ItemUses(s, t, n - 1) + Uses(EmitItems(s, t, n - 1), t.items[n - 1])
  }

  function EntryUses(s: State, t: Flex, n: nat): seq<Use>
    requires FlexOk(t) && t.FMap? && n <= |t.entries|
    decreases t, 0, n
  {
    if n == 0 then []
    else
      var before, e := EmitEntries(s, t, n - 1), t.entries[n - 1];
      var keyed := AddKey(before, e.key);
      EntryUses(s, t, n - 1) + [KeyUse(e.key, TopOf(before, keyed))] + Uses(keyed, e.value)
  }

  /** The offset that a call left on the stack. */
  function TopOf(s: State, r: State): nat
    requires |s.stack| < |r.stack|
  {
    r.stack[|s.stack|].bits
  }

  // ---------- the pools record every text ----------

  predicate Recorded(s: State, u: Use) {
    match u
    case KeyUse(text, off) => s.shareKeys ==> off in s.keyPool && KeyAt(s.buf, off) == Value(text)
    case StringUse(text, off) =>
      s.shareStrings ==> PooledString(off, |text|) in s.stringPool && PooledBytes(s.buf, PooledString(off, |text|), text)
  }

  predicate AllRecorded(s: State, us: seq<Use>) {
    forall i :: 0 <= i < |us| ==> Recorded(s, us[i])
  }

  /** The buffer and both pools are only added to. */
  predicate Grows(s: State, r: State) {
    && s.buf <= r.buf && s.keyPool <= r.keyPool && s.stringPool <= r.stringPool
    && r.shareKeys == s.shareKeys && r.shareStrings == s.shareStrings
  }

  lemma RecordedStays(s: State, r: State, u: Use)
    requires Recorded(s, u) && Grows(s, r)
    ensures Recorded(r, u)
  {
    hide KeyAt;
    PrefixSplit(s.buf, r.buf);
    match u
    case KeyUse(text, off) =>
      if s.shareKeys { KeyStays(s.buf, r.buf[|s.buf|..], off); }
    case StringUse(text, off) =>
      PooledBytesStay(s.buf, r.buf[|s.buf|..], PooledString(off, |text|), text);
  }

  lemma AllStay(s: State, r: State, us: seq<Use>)
    requires AllRecorded(s, us) && Grows(s, r)
    ensures AllRecorded(r, us)
  {
    hide Recorded, Grows;
    forall i | 0 <= i < |us| ensures Recorded(r, us[i]) {
      RecordedStays(s, r, us[i]);
    }
  }

  lemma AddKeyGrows(s: State, key: seq<byte>)
    ensures Grows(s, AddKey(s, key))
  {
    hide FindKey, CString;
    KeyGrows(s, key);
  }

  lemma AddStringGrows(s: State, str: seq<byte>)
    ensures Grows(s, AddString(s, str))
  {
    hide FindString, WriteString, WidthU;
  }

  lemma GrowsOn(a: State, b: State, c: State)
    requires Grows(a, b) && Grows(b, c)
    ensures Grows(a, c)
  {
  }

  lemma {:induction false} EmitKeepsPools(s: State, t: Flex)
    requires FlexOk(t)
    ensures Grows(s, Emit(s, t))
    decreases t, 1, 0
  {
    hide AddString, CreateVector, SortPairs, WidthU, WidthI, FlexOk, EmitItems, EmitEntries;
    match t
    case FString(str) => AddStringGrows(s, str);
    case FVector(items) => ItemsKeepPools(s, t, |items|);
    case FMap(es) => EntriesKeepPools(s, t, |es|);
    case _ =>
  }

  lemma {:induction false} ItemsKeepPools(s: State, t: Flex, n: nat)
    requires FlexOk(t) && t.FVector? && n <= |t.items|
    ensures Grows(s, EmitItems(s, t, n))
    decreases t, 0, n
  {
    hide Emit, Grows;
    if n == 0 {
      GrowsNot(s);
    } else {
      ItemsKeepPools(s, t, n - 1);
      EmitKeepsPools(EmitItems(s, t, n - 1), t.items[n - 1]);
      GrowsOn(s, EmitItems(s, t, n - 1), EmitItems(s, t, n));
    }
  }

  lemma GrowsNot(s: State)
    ensures Grows(s, s)
  {
  }

  lemma {:induction false} EntriesKeepPools(s: State, t: Flex, n: nat)
    requires FlexOk(t) && t.FMap? && n <= |t.entries|
    ensures Grows(s, EmitEntries(s, t, n))
    decreases t, 0, n
  {
    hide Emit, AddKey, Grows;
    if n == 0 {
      GrowsNot(s);
    } else {
      var before, e := EmitEntries(s, t, n - 1), t.entries[n - 1];
      EntriesKeepPools(s, t, n - 1);
      AddKeyGrows(before, e.key);
      EmitKeepsPools(AddKey(before, e.key), e.value);
      GrowsOn(s, before, AddKey(before, e.key));
      GrowsOn(s, AddKey(before, e.key), EmitEntries(s, t, n));
    }
  }

  // ---------- every text is recorded when it is added ----------

  lemma KeyRecorded(s: State, key: seq<byte>)
    requires NulFree(key) && KeyPoolOk(s.buf, s.keyPool)
    ensures var r := AddKey(s, key); Recorded(r, KeyUse(key, TopOf(s, r)))
  {
    hide CString, KeyAt, FindKey, KeyPoolOk;
    AddKeyDelivers(s, key);
    FindKeySearches(s.buf + key + [0], s.keyPool, CString(s.buf + key + [0], |s.buf|));
  }

  lemma StringRecorded(s: State, str: seq<byte>)
    requires |str| < TWO_64 && StringPoolOk(s.buf, s.stringPool)
    ensures var r := AddString(s, str); Recorded(r, StringUse(str, TopOf(s, r)))
  {
    hide StringAt, FindString, WriteString, WidthU, StringPoolOk, PooledOk;
    var written := WriteString(s.buf, str);
    StringWritten(s.buf, str);
    FindStringSearches(written, s.stringPool, str);
    if FindString(written, s.stringPool, str).Some? {
      PooledBefore(s.buf, written, s.stringPool, PooledString(FindString(written, s.stringPool, str).value, |str|), str);
    }
  }

  lemma {:induction false} UsesRecorded(s: State, t: Flex)
    requires FlexOk(t) && PoolsOk(s) && |Emit(s, t).buf| < MEMORY
    ensures AllRecorded(Emit(s, t), Uses(s, t))
    decreases t, 1, 0
  {
    hide PoolsOk, AddString, Recorded, FlexOk, CreateVector, SortPairs, EmitItems, EmitEntries, ItemUses, EntryUses;
    match t
    case FString(str) =>
      StringBelow(s, str);
      StringPoolOf(s);
      StringRecorded(s, str);
    case FVector(items) =>
      assert |EmitItems(s, t, |items|).buf| <= |Emit(s, t).buf|;
      ItemsRecorded(s, t, |items|);
      assert Grows(EmitItems(s, t, |items|), Emit(s, t));
      AllStay(EmitItems(s, t, |items|), Emit(s, t), ItemUses(s, t, |items|));
    case FMap(es) =>
      EmitsMap(s, t);
      assert |EmitEntries(s, t, |es|).buf| <= |Emit(s, t).buf|;
      EntriesRecorded(s, t, |es|);
      assert Grows(EmitEntries(s, t, |es|), Emit(s, t));
      AllStay(EmitEntries(s, t, |es|), Emit(s, t), EntryUses(s, t, |es|));
    case _ =>
  }

  lemma StringPoolOf(s: State)
    requires PoolsOk(s)
    ensures KeyPoolOk(s.buf, s.keyPool) && StringPoolOk(s.buf, s.stringPool)
  {
  }

  lemma {:induction false} ItemsRecorded(s: State, t: Flex, n: nat)
    requires FlexOk(t) && t.FVector? && n <= |t.items| && PoolsOk(s) && |EmitItems(s, t, n).buf| < MEMORY
    ensures AllRecorded(EmitItems(s, t, n), ItemUses(s, t, n))
    decreases t, 0, n
  {
    hide PoolsOk, Recorded, Emit, Uses, Grows, Holds;
    if n > 0 {
      var before, item := EmitItems(s, t, n - 1), t.items[n - 1];
      EmitGrows(before, item);
      ItemsDeliver(s, t, n - 1);
      ItemsRecorded(s, t, n - 1);
      UsesRecorded(before, item);
      EmitKeepsPools(before, item);
      AllStay(before, Emit(before, item), ItemUses(s, t, n - 1));
    }
  }

  lemma NoneRecorded(s: State)
    ensures AllRecorded(s, [])
  {
  }

  lemma {:induction false} EntriesRecorded(s: State, t: Flex, n: nat)
    requires FlexOk(t) && t.FMap? && n <= |t.entries| && PoolsOk(s) && |EmitEntries(s, t, n).buf| < MEMORY
    ensures AllRecorded(EmitEntries(s, t, n), EntryUses(s, t, n))
    decreases t, 0, n
  {
    hide PoolsOk, Recorded, AllRecorded, Emit, Uses, Grows, AddKey, EntryHeld, TopOf;
    if n == 0 {
      NoneRecorded(s);
    } else {
      var before, e := EmitEntries(s, t, n - 1), t.entries[n - 1];
      var keyed := AddKey(before, e.key);
      var r := Emit(keyed, e.value);
      KeyGrows(before, e.key);
      EmitGrows(keyed, e.value);
      EntriesDeliver(s, t, n - 1);
      EntriesRecorded(s, t, n - 1);
      KeyDelivered(before, e.key);
      StringPoolOf(before);
      KeyRecorded(before, e.key);
      UsesRecorded(keyed, e.value);
      AddKeyGrows(before, e.key);
      EmitKeepsPools(keyed, e.value);
      EntryRecorded(before, keyed, r, EntryUses(s, t, n - 1), KeyUse(e.key, TopOf(before, keyed)), Uses(keyed, e.value));
    }
  }

  lemma EntryRecorded(before: State, keyed: State, r: State, us: seq<Use>, u: Use, vs: seq<Use>)
    requires Grows(before, keyed) && Grows(keyed, r)
    requires AllRecorded(before, us) && Recorded(keyed, u) && AllRecorded(r, vs)
    ensures AllRecorded(r, us + [u] + vs)
  {
    hide Grows, Recorded;
    AllStay(before, keyed, us);
    AllStay(keyed, r, us + [u]);
  }

  // ---------- pooled strings lie apart ----------

  /** Pooled strings lie behind each other in the buffer. */
  predicate StringsApart(s: State) {
    && (forall p <- s.stringPool :: p.off + p.len < |s.buf|)
    && forall i, j :: 0 <= i < j < |s.stringPool| ==> s.stringPool[i].off + s.stringPool[i].len < s.stringPool[j].off
  }

  lemma StringAddedApart(s: State, str: seq<byte>)
    requires StringsApart(s)
    ensures StringsApart(AddString(s, str))
  {
    hide FindString, WidthU, AlignTo, LE;
    WrittenBehind(s.buf, str);
    hide WriteString;
    var r := AddString(s, str);
    forall p | p in r.stringPool ensures p.off + p.len < |r.buf| {
      assert p in s.stringPool || p == r.stringPool[|s.stringPool|];
    }
    assert forall i :: 0 <= i < |s.stringPool| ==> s.stringPool[i] in s.stringPool;
  }

  lemma WrittenBehind(buf: seq<byte>, str: seq<byte>)
    ensures |buf| + |str| < |WriteString(buf, str)|
  {
  }

  lemma StayApart(s: State, r: State)
    requires StringsApart(s) && |s.buf| <= |r.buf| && r.stringPool == s.stringPool
    ensures StringsApart(r)
  {
  }

  lemma {:induction false} EmitKeepsApart(s: State, t: Flex)
    requires FlexOk(t) && StringsApart(s)
    ensures StringsApart(Emit(s, t))
    decreases t, 1, 0
  {
    hide AddString, CreateVector, SortPairs, WidthU, WidthI, FlexOk, EmitItems, EmitEntries, StringsApart;
    match t
    case FString(str) => StringAddedApart(s, str);
    case FVector(items) =>
      ItemsKeepApart(s, t, |items|);
      StayApart(EmitItems(s, t, |items|), Emit(s, t));
    case FMap(es) =>
      EntriesKeepApart(s, t, |es|);
      StayApart(EmitEntries(s, t, |es|), Emit(s, t));
    case _ => StayApart(s, Emit(s, t));
  }

  lemma {:induction false} ItemsKeepApart(s: State, t: Flex, n: nat)
    requires FlexOk(t) && t.FVector? && n <= |t.items| && StringsApart(s)
    ensures StringsApart(EmitItems(s, t, n))
    decreases t, 0, n
  {
    hide Emit, StringsApart;
    if n > 0 {
      ItemsKeepApart(s, t, n - 1);
      EmitKeepsApart(EmitItems(s, t, n - 1), t.items[n - 1]);
    }
  }

  lemma {:induction false} EntriesKeepApart(s: State, t: Flex, n: nat)
    requires FlexOk(t) && t.FMap? && n <= |t.entries| && StringsApart(s)
    ensures StringsApart(EmitEntries(s, t, n))
    decreases t, 0, n
  {
    hide Emit, AddKey, StringsApart;
    if n > 0 {
      var before, e := EmitEntries(s, t, n - 1), t.entries[n - 1];
      EntriesKeepApart(s, t, n - 1);
      KeyKeepsApart(before, e.key);
      EmitKeepsApart(AddKey(before, e.key), e.value);
    }
  }

  lemma KeyKeepsApart(s: State, key: seq<byte>)
    requires StringsApart(s)
    ensures StringsApart(AddKey(s, key))
  {
    hide FindKey, CString, StringsApart;
    StayApart(s, AddKey(s, key));
  }

  // ---------- the theorems ----------

  /** With sharing, two keys of a tree, wherever they are, get the same offset exactly when they are equal. */
  lemma KeysSharedIffEqual(t: Flex, shareStrings: bool, i: nat, j: nat)
    requires FlexOk(t) && |Emit(Start(true, shareStrings), t).buf| < MEMORY
    requires var us := Uses(Start(true, shareStrings), t); i < |us| && j < |us| && us[i].KeyUse? && us[j].KeyUse?
    ensures var us := Uses(Start(true, shareStrings), t); us[i].off == us[j].off <==> us[i].text == us[j].text
  {
    hide Emit, Uses, FlexOk, KeyAt, StringPoolOk;
    var s := Start(true, shareStrings);
    StartPools(true, shareStrings);
    EmitDelivers(s, t);
    EmitKeepsPools(s, t);
    UsesRecorded(s, t);
    var r, us := Emit(s, t), Uses(s, t);
    assert Recorded(r, us[i]) && Recorded(r, us[j]);
  }

  /** With sharing, two strings of a tree, wherever they are, get the same offset exactly when they are equal. */
  lemma StringsSharedIffEqual(t: Flex, shareKeys: bool, i: nat, j: nat)
    requires FlexOk(t) && |Emit(Start(shareKeys, true), t).buf| < MEMORY
    requires var us := Uses(Start(shareKeys, true), t); i < |us| && j < |us| && us[i].StringUse? && us[j].StringUse?
    ensures var us := Uses(Start(shareKeys, true), t); us[i].off == us[j].off <==> us[i].text == us[j].text
  {
    hide Emit, Uses, FlexOk, KeyPoolOk, StringPoolOk, PooledOk;
    var s := Start(shareKeys, true);
    StartPools(shareKeys, true);
    EmitDelivers(s, t);
    EmitKeepsPools(s, t);
    EmitKeepsApart(s, t);
    UsesRecorded(s, t);
    var r, us := Emit(s, t), Uses(s, t);
    assert Recorded(r, us[i]) && Recorded(r, us[j]);
    OneEntry(r, us[i], us[j]);
  }

  lemma OneEntry(r: State, a: Use, b: Use)
    requires StringPoolOk(r.buf, r.stringPool) && StringsApart(r) && r.shareStrings
    requires a.StringUse? && b.StringUse? && Recorded(r, a) && Recorded(r, b)
    ensures a.off == b.off <==> a.text == b.text
  {
    hide PooledOk;
    var p, q := PooledString(a.off, |a.text|), PooledString(b.off, |b.text|);
    var i :| 0 <= i < |r.stringPool| && r.stringPool[i] == p;
    var j :| 0 <= j < |r.stringPool| && r.stringPool[j] == q;
    if a.text == b.text {
      assert SameText(r.buf, p, q) && SameText(r.buf, q, p);
    }
  }
}
