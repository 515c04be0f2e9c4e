/** EndTable: the finished table names exactly its fields, through a new or a shared vtable. */
module TableSteps {
  import opened Wrappers
  import opened Bytes
  import opened Alignment
  import opened BuilderModel
  import opened Layout
  import opened BuilderSteps

  // ---------- remembered vtables ----------

  predicate VTablesAt(d: seq<byte>, vtables: seq<nat>) {
    forall v <- vtables :: VTableAt(d, v)
  }

  /** No two remembered vtables have the same bytes. */
  predicate DistinctVTables(d: seq<byte>, vtables: seq<nat>)
    requires VTablesAt(d, vtables)
  {
    forall i, j :: 0 <= i < j < |vtables| ==> VTableContents(d, vtables[i]) != VTableContents(d, vtables[j])
  }

  /** The search returns a remembered vtable with the wanted bytes, unless there is none. */
  lemma {:induction false} FindVTableSearches(d: seq<byte>, vtables: seq<nat>, vt: seq<byte>)
    requires VTablesAt(d, vtables)
    ensures match FindVTable(d, vtables, vt)
            case Some(v) => v in vtables && VTableContents(d, v) == vt
            case None => forall v <- vtables :: VTableContents(d, v) != vt
  {
    if vtables != [] {
      assert VTableAt(d, vtables[0]);
      assert forall v <- vtables[1..] :: v in vtables;
      FindVTableSearches(d, vtables[1..], vt);
    }
  }

  lemma VTablesFrame(x: seq<byte>, d: seq<byte>, vtables: seq<nat>)
    requires VTablesAt(d, vtables)
    ensures VTablesAt(x + d, vtables)
    ensures forall v <- vtables :: VTableContents(x + d, v) == VTableContents(d, v)
  {
    forall v | v in vtables
      ensures VTableAt(x + d, v) && VTableContents(x + d, v) == VTableContents(d, v)
    {
      VTableFrame(x, d, v);
    }
  }

  /** A slot read through the buffer is the slot of the vtable's bytes. */
  lemma SlotOfContents(d: seq<byte>, vt: int, id: nat)
    requires VTableAt(d, vt) && id % 2 == 0
    ensures Slot(d, vt, id) ==
            if id < |VTableContents(d, vt)| then SlotOf(VTableContents(d, vt), id) else 0
  {
    hide FromLE;
    var at, n := |d| - vt, |VTableContents(d, vt)|;
    if id < n {
      SubSlice(d, at, n, id);
      assert |d| - (vt - id) == at + id;
    }
  }

  lemma SubSlice(d: seq<byte>, at: nat, n: nat, id: nat)
    requires at + n <= |d| && id + 2 <= n
    ensures d[at..at + n][id..id + 2] == d[at + id..at + id + 2]
  {
    var c := d[at..at + n];
    assert c[id..id + 2] == [c[id], c[id + 1]];
    assert d[at + id..at + id + 2] == [d[at + id], d[at + id + 1]];
  }

  // ---------- the new vtable ----------

  lemma OpenSlotFields(s: State, start: nat, m: map<nat, FieldVal>, offs: seq<nat>)
    requires CanEndTable(s, start) && Open(s, start, m, offs)
    ensures var loc := PushElement(s, 0, 4).Size();
            start <= loc && loc - start < TWO_16 && SlotFields(Zeros(VTableSize(s)), loc, s.fields)
    ensures forall f <- s.fields :: f.id in m
  {
    PushSize(s);
    hide PaddingBytes, PushElement, FieldAt, DistinctIds;
    forall f | f in s.fields
      ensures f.id in m && start < f.off <= s.Size()
    {
      assert OpenField(s, start, f, m, offs);
    }
    assert s.Size() <= Align(s, 4).Size();
  }

  lemma OpenVTableSlots(s: State, start: nat, m: map<nat, FieldVal>, offs: seq<nat>, id: nat)
    requires CanEndTable(s, start) && Open(s, start, m, offs)
    requires id % 2 == 0 && id + 2 <= VTableSize(s)
    ensures var slot := SlotOf(OpenVTable(s, start), id);
            var loc := PushElement(s, 0, 4).Size();
            && (id == 0 ==> slot == VTableSize(s))
            && (FieldId(id) && id !in m ==> slot == 0)
            && (forall i :: 0 <= i < |s.fields| && s.fields[i].id == id ==> slot == loc - s.fields[i].off)
  {
    hide PushElement, FromLE, VTableBytes, SlotFields, SlotOf, Open, Align, DistinctIds;
    OpenSlotFields(s, start, m, offs);
    var loc := PushElement(s, 0, 4).Size();
    VTableSlot(VTableSize(s), loc - start, loc, s.fields, id);
  }

  lemma PushSize(s: State)
    ensures PushElement(s, 0, 4).Size() == Align(s, 4).Size() + 4
  {
  }

  // ---------- the shape of the finished table ----------

  function VTableUsed(s: State, start: nat): nat
    requires CanEndTable(s, start)
  {
    var reused := Reused(s, start);
    if reused.Some? then reused.value else WithVTable(s, start).Size()
  }

  /** EndTable shares a vtable exactly when one with the same bytes is remembered. */
  lemma ReusedIsRemembered(s: State, start: nat)
    requires CanEndTable(s, start) && VTablesAt(s.data, s.vtables)
    ensures match Reused(s, start)
            case Some(v) => s.dedup && v in s.vtables && VTableContents(s.data, v) == OpenVTable(s, start)
            case None => s.dedup ==> forall v <- s.vtables :: VTableContents(s.data, v) != OpenVTable(s, start)
  {
    hide OpenVTable, CanEndTable, WithVTable, VTableContents, VTableAt, Extends, FindVTable;
    var full := WithVTable(s, start).data;
    var x := AboveData(s, start);
    VTablesFrame(x, s.data, s.vtables);
    FindVTableSearches(full, s.vtables, OpenVTable(s, start));
  }

  lemma AboveData(s: State, start: nat) returns (x: seq<byte>)
    requires CanEndTable(s, start)
    ensures WithVTable(s, start).data == x + s.data
  {
    hide PaddingBytes, OpenVTable, CanEndTable, LE;
    x := OpenVTable(s, start) + (LE(0, 4) + Zeros(PaddingBytes(s.Size(), 4)));
  }

  /** The slot of the finished table leads to the vtable in use. */
  lemma SlotLeadsToVTable(top: seq<byte>, rest: seq<byte>, used: nat, loc: nat)
    requires loc == |rest| + 4 && 0 < loc < TWO_31 && used < TWO_31
    ensures VTableOffset(top + (LE(Wrap32(used - loc), 4) + rest), loc) == used
  {
    hide LE, FromLE, Pow256, Signed32, Wrap32, Scalar;
    var slot := Wrap32(used - loc);
    var d := LE(slot, 4) + rest;
    Pow256Values();
    ScalarOfPush(rest, slot, 4);
    ScalarFrame(top, d, loc, 4);
    Signed32OfWrap32(used - loc);
  }

  lemma NewVTableAt(vt: seq<byte>, rest: seq<byte>)
    requires 4 <= |vt| && |vt| % 2 == 0 && |rest| % 2 == 0 && SlotOf(vt, 0) == |vt|
    ensures VTableAt(vt + rest, |vt| + |rest|) && VTableContents(vt + rest, |vt| + |rest|) == vt
  {
    hide FromLE;
    var d := vt + rest;
    assert d[0..2] == vt[0..2];
    assert d[0..|vt|] == vt;
  }

  lemma EndTableData(s: State, start: nat)
    requires CanEndTable(s, start)
    requires Reused(s, start).Some? ==> Reused(s, start).value <= |s.data|
    ensures EndTable(s, start).0.data ==
            (if Reused(s, start).Some? then [] else OpenVTable(s, start))
            + (LE(Wrap32(VTableUsed(s, start) - (Align(s, 4).Size() + 4)), 4) + Align(s, 4).data)
    ensures EndTable(s, start).1 == Align(s, 4).Size() + 4
  {
    hide PaddingBytes, LE, OpenVTable, FindVTable, CanEndTable;
    var below := Align(s, 4).data;
    var vt := OpenVTable(s, start);
    var full := WithVTable(s, start);
    assert full.data == vt + (LE(0, 4) + below);
    if Reused(s, start).Some? {
      assert full.data[|vt|..] == LE(0, 4) + below;
    }
  }

  lemma VTableUsedCases(s: State, start: nat)
    requires CanEndTable(s, start) && VTablesAt(s.data, s.vtables)
    ensures Reused(s, start).Some? ==> Reused(s, start) == Some(VTableUsed(s, start)) && VTableUsed(s, start) in s.vtables
    ensures Reused(s, start).Some? ==> VTableUsed(s, start) <= |s.data|
    ensures Reused(s, start).None? ==> VTableUsed(s, start) == |OpenVTable(s, start)| + 4 + Align(s, 4).Size()
    ensures PushElement(s, 0, 4).Size() == Align(s, 4).Size() + 4
  {
    ReusedIsRemembered(s, start);
    hide PaddingBytes, OpenVTable, CanEndTable, VTableContents;
  }

  /** The bytes EndTable leaves: the vtable unless it is shared, then the slot, then what was there. */
  lemma EndTableShape(s: State, start: nat) returns (top: seq<byte>, below: seq<byte>)
    requires CanEndTable(s, start) && VTablesAt(s.data, s.vtables) && Tracked(s.minAlign)
    ensures top == if Reused(s, start).Some? then [] else OpenVTable(s, start)
    ensures Extends(s.data, below) && |below| % 4 == 0 && |below| < |s.data| + 4
    ensures EndTable(s, start).1 == |below| + 4
    ensures EndTable(s, start).0.data == top + (LE(Wrap32(VTableUsed(s, start) - (|below| + 4)), 4) + below)
    ensures Reused(s, start).None? ==> VTableUsed(s, start) == |top| + 4 + |below|
    ensures Reused(s, start).Some? ==> Reused(s, start) == Some(VTableUsed(s, start)) && VTableUsed(s, start) in s.vtables
    ensures PushElement(s, 0, 4).Size() == |below| + 4
  {
    hide Align, OpenVTable, EndTable, CanEndTable, Reused, VTableUsed, PushElement, VTablesAt, Extends, LE, Tracked;
    top := if Reused(s, start).Some? then [] else OpenVTable(s, start);
    below := Align(s, 4).data;
    VTableUsedCases(s, start);
    AlignExtends(s, 4);
    EndTableData(s, start);
  }

  /** What EndTable does to the rest of the state. */
  lemma EndTableState(s: State, start: nat)
    requires CanEndTable(s, start) && VTablesAt(s.data, s.vtables) && Tracked(s.minAlign)
    ensures var r := EndTable(s, start).0;
            && Tracked(r.minAlign) && 4 <= r.minAlign && s.minAlign <= r.minAlign
            && r == s.(data := r.data, fields := [], maxVoffset := 0, nested := false, minAlign := r.minAlign,
                       vtables := if Reused(s, start).Some? then s.vtables else s.vtables + [VTableUsed(s, start)])
  {
    hide PaddingBytes, LE, OpenVTable, FindVTable, CanEndTable, Extends, VTableContents;
    ReusedIsRemembered(s, start);
    AlignExtends(s, 4);
  }

  lemma EndTableExtends(s: State, start: nat)
    requires CanEndTable(s, start) && VTablesAt(s.data, s.vtables) && Tracked(s.minAlign)
    ensures Extends(s.data, EndTable(s, start).0.data)
    ensures |s.data| < EndTable(s, start).1 <= |EndTable(s, start).0.data|
    ensures Aligned(EndTable(s, start).1, 4)
  {
    hide Align, OpenVTable, EndTable, CanEndTable, Reused, VTableUsed, PushElement, VTablesAt, Extends, LE, Aligned, Wrap32;
    var top, below := EndTableShape(s, start);
    ExtendsLength(s.data, below);
    var slot := LE(Wrap32(VTableUsed(s, start) - (|below| + 4)), 4);
    PushExtends(slot, below);
    PushExtends(top, slot + below);
    ExtendsTransitive(s.data, below, slot + below);
    ExtendsTransitive(s.data, slot + below, top + (slot + below));
    SumAligned(|below|);
  }

  lemma SumAligned(n: nat)
    requires n % 4 == 0
    ensures Aligned(n + 4, 4) && (n + 4) % 2 == 0
  {
    var k := n / 4;
    ModUnique(n + 4, 4, k + 1, 0);
    ModUnique(n + 4, 2, 2 * k + 2, 0);
  }

  /** The new table's slot holds the distance to the vtable in use. */
  lemma SlotWritten(s: State, start: nat)
    requires CanEndTable(s, start) && VTablesAt(s.data, s.vtables) && Tracked(s.minAlign)
    requires |EndTable(s, start).0.data| < TWO_31
    ensures 4 <= EndTable(s, start).1 <= |EndTable(s, start).0.data|
    ensures VTableOffset(EndTable(s, start).0.data, EndTable(s, start).1) == VTableUsed(s, start)
  {
    hide EndTable, CanEndTable, LE, Reused, OpenVTable, VTablesAt, VTableUsed, VTableOffset, Align, PushElement, Extends, Wrap32, Tracked;
    VTableUsedCases(s, start);
    var top, below := EndTableShape(s, start);
    ExtendsLength(s.data, below);
    SlotLeadsToVTable(top, below, VTableUsed(s, start), EndTable(s, start).1);
  }

  lemma SharedVTableAt(s: State, start: nat)
    requires CanEndTable(s, start) && VTablesAt(s.data, s.vtables) && Tracked(s.minAlign) && Reused(s, start).Some?
    ensures VTableAt(EndTable(s, start).0.data, VTableUsed(s, start))
    ensures VTableContents(EndTable(s, start).0.data, VTableUsed(s, start)) == OpenVTable(s, start)
  {
    hide EndTable, CanEndTable, OpenVTable, VTableUsed, Reused, VTableAt, VTableContents;
    EndTableExtends(s, start);
    VTableUsedCases(s, start);
    ReusedIsRemembered(s, start);
    var d := EndTable(s, start).0.data;
    ExtendsPrefix(s.data, d);
    VTableFrame(d[..|d| - |s.data|], s.data, VTableUsed(s, start));
  }

  lemma FreshVTableAt(s: State, start: nat)
    requires CanEndTable(s, start) && VTablesAt(s.data, s.vtables) && Tracked(s.minAlign) && Reused(s, start).None?
    requires |OpenVTable(s, start)| % 2 == 0 && SlotOf(OpenVTable(s, start), 0) == |OpenVTable(s, start)|
    ensures VTableAt(EndTable(s, start).0.data, VTableUsed(s, start))
    ensures VTableContents(EndTable(s, start).0.data, VTableUsed(s, start)) == OpenVTable(s, start)
  {
    var top, below := EndTableShape(s, start);
    assert |top| >= 4;
    SumAligned(|below|);
    var used := VTableUsed(s, start);
    var rest := LE(Wrap32(used - (|below| + 4)), 4) + below;
    assert |rest| == |below| + 4;
    assert EndTable(s, start).0.data == top + rest;
    hide *;
    NewVTableAt(top, rest);
  }

  /** After EndTable the vtable in use has the bytes of the open table's vtable. */
  lemma UsedVTableAt(s: State, start: nat, m: map<nat, FieldVal>, offs: seq<nat>)
    requires CanEndTable(s, start) && Open(s, start, m, offs) && VTablesAt(s.data, s.vtables)
    ensures VTableAt(EndTable(s, start).0.data, VTableUsed(s, start))
    ensures VTableContents(EndTable(s, start).0.data, VTableUsed(s, start)) == OpenVTable(s, start)
  {
    hide EndTable, CanEndTable, Open, OpenVTable, VTableUsed, VTableAt, VTableContents, VTableSize, Reused, SlotOf, VTablesAt, Tracked;
    OpenBasics(s, start, m, offs);
    if Reused(s, start).Some? {
      SharedVTableAt(s, start);
    } else {
      OpenVTableSlots(s, start, m, offs, 0);
      FreshVTableAt(s, start);
    }
  }

  lemma OpenBasics(s: State, start: nat, m: map<nat, FieldVal>, offs: seq<nat>)
    requires Open(s, start, m, offs)
    ensures Tracked(s.minAlign) && VTableSize(s) % 2 == 0
  {
    hide MaxTracked, DistinctIds, OpenField;
    assert s.maxVoffset <= LARGEST_FIELD by { MaxIsField(s); }
  }

  lemma MaxIsField(s: State)
    requires MaxTracked(s)
    ensures s.maxVoffset <= LARGEST_FIELD
  {
  }

  // ---------- the finished table ----------

  lemma FieldOfId(s: State, start: nat, m: map<nat, FieldVal>, offs: seq<nat>, id: nat) returns (i: nat)
    requires CanEndTable(s, start) && Open(s, start, m, offs) && id in m
    ensures i < |s.fields| && s.fields[i].id == id && FieldId(id) && id + 2 <= VTableSize(s)
    ensures start < s.fields[i].off <= s.Size() && FieldAt(s.data, s.fields[i].off, m[id], offs, s.minAlign)
  {
    hide FieldAt;
    assert id in Ids(s.fields);
    var f :| f in s.fields && f.id == id;
    assert OpenField(s, start, f, m, offs);
    i :| 0 <= i < |s.fields| && s.fields[i] == f;
  }

  /** A field that was added is named by the finished table's vtable, at the place it was written. */
  lemma AddedFieldNamed(s: State, start: nat, m: map<nat, FieldVal>, offs: seq<nat>, id: nat)
    requires CanEndTable(s, start) && Open(s, start, m, offs) && VTablesAt(s.data, s.vtables) && id in m
    ensures var (r, loc) := EndTable(s, start);
            && VTableAt(r.data, VTableUsed(s, start))
            && NamedFieldAt(r.data, loc, VTableUsed(s, start), id, m[id], offs, r.minAlign)
  {
    hide EndTable, CanEndTable, OpenVTable, VTableUsed, VTableAt, VTableContents, FieldAt, Reused, SlotOf, PushElement, Slot, LE;
    hide VTablesAt;
    assert s.maxVoffset % 2 == 0 && s.minAlign >= 1 && Tracked(s.minAlign);
    var i := FieldOfId(s, start, m, offs, id);
    OpenVTableSlots(s, start, m, offs, id);
    UsedVTableAt(s, start, m, offs);
    EndTableExtends(s, start);
    EndTableState(s, start);
    var top, below := EndTableShape(s, start);
    var (r, loc) := EndTable(s, start);
    var used, off, vt := VTableUsed(s, start), s.fields[i].off, OpenVTable(s, start);
    assert id < |vt| && SlotOf(vt, id) == loc - off && s.minAlign <= r.minAlign;
    SlotOfContents(r.data, used, id);
    ExtendsPrefix(s.data, r.data);
    FieldFrame(r.data[..|r.data| - |s.data|], s.data, off, m[id], offs, offs, s.minAlign, r.minAlign);
  }

  /** A field that was not added has an empty slot, or none. */
  lemma OtherFieldUnset(s: State, start: nat, m: map<nat, FieldVal>, offs: seq<nat>, id: nat)
    requires CanEndTable(s, start) && Open(s, start, m, offs) && VTablesAt(s.data, s.vtables)
    requires FieldId(id) && id !in m
    ensures var r := EndTable(s, start).0;
            VTableAt(r.data, VTableUsed(s, start)) && Slot(r.data, VTableUsed(s, start), id) == 0
  {
    hide EndTable, CanEndTable, Open, OpenVTable, VTableUsed, VTableAt, VTableContents, VTableSize, SlotOf, Slot, VTablesAt, Tracked;
    OpenBasics(s, start, m, offs);
    UsedVTableAt(s, start, m, offs);
    var r, used := EndTable(s, start).0, VTableUsed(s, start);
    if id < VTableSize(s) {
      OpenVTableSlots(s, start, m, offs, id);
    }
    SlotOfContents(r.data, used, id);
  }

  lemma UsedVTableApart(s: State, start: nat)
    requires CanEndTable(s, start) && VTablesAt(s.data, s.vtables) && Tracked(s.minAlign)
    requires VTableAt(EndTable(s, start).0.data, VTableUsed(s, start))
    requires VTableContents(EndTable(s, start).0.data, VTableUsed(s, start)) == OpenVTable(s, start)
    ensures Apart(EndTable(s, start).0.data, EndTable(s, start).1, VTableUsed(s, start))
  {
    hide EndTable, VTableUsed, Reused, OpenVTable, CanEndTable, VTablesAt;
    VTableUsedCases(s, start);
    var top, below := EndTableShape(s, start);
    hide LE, Scalar;
    assert |VTableContents(EndTable(s, start).0.data, VTableUsed(s, start))| == |OpenVTable(s, start)|;
  }

  /** EndTable turns the open table into a finished one with exactly the fields that were added. */
  lemma EndTableLands(s: State, start: nat, m: map<nat, FieldVal>, offs: seq<nat>)
    requires CanEndTable(s, start) && Open(s, start, m, offs) && VTablesAt(s.data, s.vtables)
    requires EndTable(s, start).0.Size() < TWO_31
    ensures var (r, loc) := EndTable(s, start);
            && TableAt(r.data, loc, m, offs, r.minAlign)
            && VTableOffset(r.data, loc) == VTableUsed(s, start)
            && VTableContents(r.data, VTableUsed(s, start)) == OpenVTable(s, start)
  {
    var (r, loc) := EndTable(s, start);
    SlotWritten(s, start);
    UsedVTableAt(s, start, m, offs);
    EndTableExtends(s, start);
    UsedVTableApart(s, start);
    hide Apart, EndTable, VTableUsed, VTableAt, VTableContents, NamedFieldAt, OpenVTable, Open, CanEndTable, VTablesAt, Slot, FieldId;
    forall id: nat | FieldId(id) && id !in m
      ensures Slot(r.data, VTableUsed(s, start), id) == 0
    {
      OtherFieldUnset(s, start, m, offs, id);
    }
    forall id | id in m
      ensures NamedFieldAt(r.data, loc, VTableUsed(s, start), id, m[id], offs, r.minAlign)
    {
      AddedFieldNamed(s, start, m, offs, id);
    }
  }

  /** Remembered vtables stay pairwise distinct, and the new table's vtable is among them. */
  lemma VTablesRemembered(s: State, start: nat, m: map<nat, FieldVal>, offs: seq<nat>)
    requires CanEndTable(s, start) && Open(s, start, m, offs) && VTablesAt(s.data, s.vtables)
    ensures var r := EndTable(s, start).0;
            && VTablesAt(r.data, r.vtables) && VTableUsed(s, start) in r.vtables
            && (s.dedup && DistinctVTables(s.data, s.vtables) ==> DistinctVTables(r.data, r.vtables))
  {
    var r, used := EndTable(s, start).0, VTableUsed(s, start);
    UsedVTableAt(s, start, m, offs);
    EndTableExtends(s, start);
    EndTableState(s, start);
    VTableUsedCases(s, start);
    ReusedIsRemembered(s, start);
    hide EndTable, CanEndTable, Open, OpenVTable, VTableUsed, VTableAt, VTableContents, Reused, PushElement, Align;
    ExtendsPrefix(s.data, r.data);
    VTablesFrame(r.data[..|r.data| - |s.data|], s.data, s.vtables);
  }
}
