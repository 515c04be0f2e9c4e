/**
 The builder as the object it is: one allocation holds the serialized bytes and, at its other end, the scratch
 entries of remembered vtables and open fields. Every method is proved to take the step of BuilderModel.
 */
module FlatBufferBuilders {
  import opened Wrappers
  import opened Bytes
  import opened Alignment
  import opened StringOrder
  import opened BuilderModel
  import opened Layout
  import opened FinishSteps
  import opened DownwardVector

  // ---------- what is stored in the scratch area ----------

  function VTableEntries(vtables: seq<nat>): (s: seq<byte>)
    ensures |s| == 4 * |vtables|
    decreases |vtables|
  {
    if vtables == [] then [] else VTableEntries(vtables[..|vtables| - 1]) + LE(vtables[|vtables| - 1], 4)
  }

  /** The struct FieldLoc: a 32-bit offset, a 16-bit id and two bytes of padding. */
  function FieldEntry(f: FieldLoc): (s: seq<byte>)
    ensures |s| == 8
  {
    LE(f.off, 4) + LE(f.id, 2) + Zeros(2)
  }

  function FieldEntries(fields: seq<FieldLoc>): (s: seq<byte>)
    ensures |s| == 8 * |fields|
    decreases |fields|
  {
    if fields == [] then [] else FieldEntries(fields[..|fields| - 1]) + FieldEntry(fields[|fields| - 1])
  }

  predicate Storable(vtables: seq<nat>, fields: seq<FieldLoc>) {
    && (forall v <- vtables :: v < TWO_32)
    && (forall f <- fields :: f.off < TWO_32 && f.id < TWO_16)
    && 4 * |vtables| + 8 * |fields| < TWO_32
  }

  /** The scratch area holds the vtable offsets, then the fields of the open table. */
  predicate Packed(scratch: seq<byte>, vtables: seq<nat>, fields: seq<FieldLoc>) {
    Storable(vtables, fields) && scratch == VTableEntries(vtables) + FieldEntries(fields)
  }

  lemma {:induction false} VTableEntryAt(vtables: seq<nat>, i: nat)
    requires i < |vtables|
    ensures VTableEntries(vtables)[4 * i..4 * i + 4] == LE(vtables[i], 4)
    decreases |vtables|
  {
    hide LE;
    if i < |vtables| - 1 {
      var rest := vtables[..|vtables| - 1];
      VTableEntryAt(rest, i);
      assert VTableEntries(vtables)[4 * i..4 * i + 4] == VTableEntries(rest)[4 * i..4 * i + 4];
    }
  }

  lemma {:induction false} FieldEntryAt(fields: seq<FieldLoc>, i: nat)
    requires i < |fields|
    ensures FieldEntries(fields)[8 * i..8 * i + 8] == FieldEntry(fields[i])
    decreases |fields|
  {
    hide FieldEntry;
    if i < |fields| - 1 {
      var rest := fields[..|fields| - 1];
      FieldEntryAt(rest, i);
      assert FieldEntries(fields)[8 * i..8 * i + 8] == FieldEntries(rest)[8 * i..8 * i + 8];
    }
  }

  /** A packed vtable offset reads back. */
  lemma PackedVTable(scratch: seq<byte>, vtables: seq<nat>, fields: seq<FieldLoc>, i: nat)
    requires Packed(scratch, vtables, fields) && i < |vtables|
    ensures 4 * i + 4 <= |scratch| && FromLE(scratch[4 * i..4 * i + 4]) == vtables[i]
  {
    hide FromLE, LE, Pow256;
    VTableEntryAt(vtables, i);
    assert scratch[4 * i..4 * i + 4] == VTableEntries(vtables)[4 * i..4 * i + 4];
    Pow256Values();
    assert vtables[i] in vtables;
    ReadsBackExactly(vtables[i], 4);
  }

  /** A packed field reads back. */
  lemma PackedField(scratch: seq<byte>, vtables: seq<nat>, fields: seq<FieldLoc>, i: nat)
    requires Packed(scratch, vtables, fields) && i < |fields|
    ensures var at := 4 * |vtables| + 8 * i;
            && at + 8 <= |scratch|
            && FromLE(scratch[at..at + 4]) == fields[i].off
            && FromLE(scratch[at + 4..at + 6]) == fields[i].id
  {
    hide FromLE, LE, Pow256, FieldEntries, VTableEntries;
    FieldEntryAt(fields, i);
    var at := 4 * |vtables| + 8 * i;
    assert scratch[at..at + 8] == FieldEntry(fields[i]);
    assert scratch[at..at + 4] == scratch[at..at + 8][..4];
    assert scratch[at + 4..at + 6] == scratch[at..at + 8][4..6];
    assert fields[i] in fields;
    FieldEntryReads(fields[i]);
  }

  lemma FieldEntryReads(f: FieldLoc)
    requires f.off < TWO_32 && f.id < TWO_16
    ensures FromLE(FieldEntry(f)[..4]) == f.off && FromLE(FieldEntry(f)[4..6]) == f.id
  {
    hide FromLE, LE, Pow256;
    assert FieldEntry(f)[..4] == LE(f.off, 4) && FieldEntry(f)[4..6] == LE(f.id, 2);
    Pow256Values();
    ReadsBackExactly(f.off, 4);
    ReadsBackExactly(f.id, 2);
  }

  lemma PackField(scratch: seq<byte>, vtables: seq<nat>, fields: seq<FieldLoc>, f: FieldLoc)
    requires Packed(scratch, vtables, fields) && Storable(vtables, fields + [f])
    ensures Packed(scratch + FieldEntry(f), vtables, fields + [f])
  {
    hide FieldEntry, VTableEntries;
    assert (fields + [f])[..|fields|] == fields;
  }

  lemma PackVTable(scratch: seq<byte>, vtables: seq<nat>, v: nat)
    requires Packed(scratch, vtables, []) && Storable(vtables + [v], [])
    ensures Packed(scratch + LE(v, 4), vtables + [v], [])
  {
    hide LE;
    assert (vtables + [v])[..|vtables|] == vtables;
  }

  lemma UnpackFields(scratch: seq<byte>, vtables: seq<nat>, fields: seq<FieldLoc>)
    requires Packed(scratch, vtables, fields)
    ensures 8 * |fields| <= |scratch| && Packed(scratch[..|scratch| - 8 * |fields|], vtables, [])
  {
    hide VTableEntries;
  }

  /** There is room for one more scratch entry. */
  predicate ScratchRoom(s: State) {
    Storable(s.vtables, s.fields) && 4 * |s.vtables| + 8 * |s.fields| + 8 < TWO_32
  }

  // ---------- vtables in the buffer ----------

  lemma WriteInFront(vt: seq<byte>, rest: seq<byte>, pos: nat, v: nat, w: nat)
    requires pos + w <= |vt|
    ensures WriteScalar(vt + rest, pos, v, w) == WriteScalar(vt, pos, v, w) + rest
  {
    hide LE;
  }

  lemma FillNextSlot(vt: seq<byte>, loc: nat, fields: seq<FieldLoc>, k: nat)
    requires k < |fields| && forall f <- fields :: f.id + 2 <= |vt| && f.off <= loc
    ensures FillSlots(vt, loc, fields[..k + 1]) ==
            WriteScalar(FillSlots(vt, loc, fields[..k]), fields[k].id, loc - fields[k].off, 2)
  {
    assert fields[..k + 1][..k] == fields[..k];
  }

  /** Filling the slots of a blank vtable, in front of the rest of the data. */
  datatype SlotJob = SlotJob(vt: seq<byte>, rest: seq<byte>, vtables: seq<nat>, fields: seq<FieldLoc>)
  {
    ghost predicate Ok(loc: nat) {
      SlotFields(vt, loc, fields) && forall f <- fields :: SlotOf(vt, f.id) == 0
    }

    /** The data once the first k slots are written. */
    ghost function After(loc: nat, k: nat): seq<byte>
      requires Ok(loc) && k <= |fields|
    {
      FillSlots(vt, loc, fields[..k]) + rest
    }

    /** The slot about to be written is still zero, as no field is set twice; writing it is the next step. */
    lemma NextSlot(loc: nat, k: nat)
      requires Ok(loc) && k < |fields|
      ensures var f := fields[k];
              && f.id + 2 <= |After(loc, k)| && f.off <= loc
              && FromLE(After(loc, k)[f.id..f.id + 2]) == 0
              && After(loc, k + 1) == WriteScalar(After(loc, k), f.id, loc - f.off, 2)
    {
      hide FromLE, WriteScalar;
      var f, filled := fields[k], FillSlots(vt, loc, fields[..k]);
      assert f in fields;
      SlotsFilled(vt, loc, fields[..k], f.id);
      assert (filled + rest)[f.id..f.id + 2] == filled[f.id..f.id + 2];
      WriteInFront(filled, rest, f.id, loc - f.off, 2);
      FillNextSlot(vt, loc, fields, k);
    }
  }

  function VTableHeader(size: nat, tableSize: nat): (vt: seq<byte>)
    requires 4 <= size
    ensures |vt| == size
  {
    WriteScalar(WriteScalar(Zeros(size), 2, tableSize, 2), 0, size, 2)
  }

  lemma BlankJobOk(size: nat, tableSize: nat, loc: nat, rest: seq<byte>, vtables: seq<nat>, fields: seq<FieldLoc>)
    requires 4 <= size < TWO_16 && tableSize < TWO_16 && SlotFields(Zeros(size), loc, fields)
    ensures SlotJob(VTableHeader(size, tableSize), rest, vtables, fields).Ok(loc)
  {
    hide WriteScalar, SlotOf;
    forall f | f in fields
      ensures SlotOf(VTableHeader(size, tableSize), f.id) == 0
    {
      BlankVTable(size, tableSize, f.id);
    }
  }

  /** Every field of a table that can be ended gets a slot, and its 16-bit table offset fits. */
  lemma FieldsHaveSlots(s: State, start: nat)
    requires CanEndTable(s, start)
    ensures var loc := PushElement(s, 0, 4).Size();
            && start <= loc && loc - start < TWO_16 && 4 <= VTableSize(s) < TWO_16
            && SlotFields(Zeros(VTableSize(s)), loc, s.fields)
  {
    hide PaddingBytes;
  }

  lemma WithVTableIs(s: State, start: nat)
    requires CanEndTable(s, start)
    ensures var pushed := PushElement(s, 0, 4);
            && pushed == s.(data := pushed.data, minAlign := pushed.minAlign)
            && WithVTable(s, start) == pushed.(data := OpenVTable(s, start) + pushed.data, fields := [], maxVoffset := 0)
            && OpenVTable(s, start) == VTableBytes(VTableSize(s), pushed.Size() - start, pushed.Size(), s.fields)
  {
    hide PaddingBytes, VTableBytes;
  }

  lemma PackedLength(scratch: seq<byte>, vtables: seq<nat>, fields: seq<FieldLoc>)
    requires Packed(scratch, vtables, fields)
    ensures |scratch| == 4 * |vtables| + 8 * |fields|
  {
  }

  lemma NoVTableLeft(d: seq<byte>, vtables: seq<nat>, vt: seq<byte>)
    ensures FindVTable(d, vtables[|vtables|..], vt) == None
  {
  }

  /** The vtable at this offset can be compared with another one of the same size. */
  predicate Comparable(d: seq<byte>, v: nat) {
    2 <= v <= |d| && Scalar(d, v, 2) <= v
  }

  lemma FindVTableFrom(d: seq<byte>, vtables: seq<nat>, vt: seq<byte>, i: nat)
    requires i < |vtables|
    ensures FindVTable(d, vtables[i..], vt) ==
            if VTableMatches(d, vtables[i], vt) then Some(vtables[i]) else FindVTable(d, vtables[i + 1..], vt)
  {
    assert vtables[i..][1..] == vtables[i + 1..];
  }

  lemma NewVTableInFront(s: State, start: nat)
    requires CanEndTable(s, start)
    ensures var vt, d := OpenVTable(s, start), WithVTable(s, start).data;
            && 2 <= |vt| <= |d| && d[..|vt|] == vt && FromLE(vt[..2]) == |vt|
  {
    hide PaddingBytes, FromLE, VTableBytes, FillSlots;
    FieldsHaveSlots(s, start);
    var loc := PushElement(s, 0, 4).Size();
    VTableSlot(VTableSize(s), loc - start, loc, s.fields, 0);
  }

  lemma StillComparable(s: State, start: nat)
    requires CanEndTable(s, start) && forall v <- s.vtables :: Comparable(s.data, v)
    ensures forall v <- WithVTable(s, start).vtables :: Comparable(WithVTable(s, start).data, v)
  {
    hide PaddingBytes, FromLE, CanEndTable, OpenVTable, LE;
    var d := WithVTable(s, start).data;
    var x := d[..|d| - |s.data|];
    assert d == x + s.data by {
      assert d == OpenVTable(s, start) + (LE(0, 4) + (Zeros(PaddingBytes(s.Size(), 4)) + s.data));
    }
    hide WithVTable, Scalar;
    forall v | v in s.vtables
      ensures Comparable(d, v)
    {
      assert Comparable(s.data, v);
      ScalarFrame(x, s.data, v, 2);
    }
    assert WithVTable(s, start).vtables == s.vtables by { WithVTableIs(s, start); }
  }

  // ---------- EndTable, cut into steps ----------

  /** The state once the new vtable is dropped in favour of an equal one, or kept. */
  function Shared(s: State, start: nat): State
    requires CanEndTable(s, start)
  {
    var full := WithVTable(s, start);
    if Reused(s, start).Some? then Pop(full, full.Size() - PushElement(s, 0, 4).Size()) else full
  }

  function SharedOffset(s: State, start: nat): nat
    requires CanEndTable(s, start)
  {
    if Reused(s, start).Some? then Reused(s, start).value else WithVTable(s, start).Size()
  }

  /** Dropping a duplicate vtable restores the bytes that were there before it was written. */
  lemma DuplicateDropped(s: State, start: nat)
    requires CanEndTable(s, start)
    ensures var before := PushElement(s, 0, 4);
            Shared(s, start).data == if Reused(s, start).Some? then before.data else OpenVTable(s, start) + before.data
  {
    hide PaddingBytes, OpenVTable, FindVTable, CanEndTable, LE;
    var vt, before := OpenVTable(s, start), PushElement(s, 0, 4).data;
    assert (vt + before)[|vt|..] == before;
  }

  function Remembered(s: State, vtUse: nat): State {
    s.(vtables := if vtUse == s.Size() then s.vtables + [vtUse] else s.vtables)
  }

  function Patched(s: State, loc: nat, vtUse: nat): State
    requires 4 <= loc <= s.Size()
  {
    s.(data := WriteScalar(s.data, s.Size() - loc, Wrap32(vtUse - loc), 4), nested := false)
  }

  lemma EndTableIs(s: State, start: nat)
    requires CanEndTable(s, start)
    ensures var loc, vtUse := PushElement(s, 0, 4).Size(), SharedOffset(s, start);
            var kept := Remembered(Shared(s, start), vtUse);
            4 <= loc <= kept.Size() && EndTable(s, start) == (Patched(kept, loc, vtUse), loc)
  {
    hide PaddingBytes, OpenVTable, FindVTable, CanEndTable, WriteScalar;
  }

  lemma SharedRoom(s: State, start: nat)
    requires CanEndTable(s, start) && ScratchRoom(s)
    ensures var shared := Shared(s, start);
            shared.fields == [] && ScratchRoom(shared) && shared.Size() <= WithVTable(s, start).Size()
  {
    hide PaddingBytes, OpenVTable, FindVTable, CanEndTable;
  }

  // ---------- strings ----------

  lemma StringPlace(d: seq<byte>, off: nat)
    requires StringIn(d, off)
    ensures var pos := |d| - off; 0 <= pos && pos + 4 + FromLE(d[pos..pos + 4]) <= |d|
    ensures var pos := |d| - off; StringData(d, off) == d[pos + 4..pos + 4 + FromLE(d[pos..pos + 4])]
  {
    hide FromLE;
  }

  lemma StringSteps(s: State, str: seq<byte>)
    requires NotNested(s)
    ensures var padded := PreAlign(s, |str| + 1, 4);
            var body := Push(Push(padded, Zeros(1)), str);
            && CreateString(s, str) == PushElement(body, |str|, 4)
            && padded.Size() <= body.Size() <= CreateString(s, str).Size()
  {
    hide PaddingBytes;
  }

  lemma StringKeepsPool(s: State, str: seq<byte>)
    requires NotNested(s)
    ensures CreateString(s, str).pool == s.pool && CreateString(s, str).Size() >= s.Size()
  {
    hide PaddingBytes;
  }

  // ---------- finishing ----------

  lemma HeaderSteps(s: State, fileId: Option<seq<byte>>, sizePrefix: bool)
    ensures var tracked := TrackMinAlign(s.(vtables := []), Prefix(sizePrefix));
            var padded := PreAlign(tracked, Prefix(sizePrefix) + 4 + |IdBytes(fileId)|, tracked.minAlign);
            && HeaderRoom(s, fileId, sizePrefix) == (if fileId.Some? then Push(padded, fileId.value) else padded)
            && padded.Size() <= HeaderRoom(s, fileId, sizePrefix).Size()
  {
    hide PreAlign;
  }

  /** The root offset, and the size of the buffer in front of it if asked for. */
  function WithRoot(before: State, root: nat, sizePrefix: bool): State
    requires 0 < root <= before.Size()
  {
    var rooted := PushElement(before, ReferTo(before, root), 4);
    if sizePrefix then PushElement(rooted, rooted.Size(), 4) else rooted
  }

  lemma FinishSizes(s: State, root: nat, fileId: Option<seq<byte>>, sizePrefix: bool)
    requires !s.finished && NotNested(s) && 0 < root <= s.Size()
    requires fileId.Some? ==> |fileId.value| == FILE_IDENTIFIER_LENGTH
    ensures var room, before := HeaderRoom(s, fileId, sizePrefix), BeforeRoot(s, fileId, sizePrefix);
            && s.Size() <= room.Size() <= before.Size()
            && var rooted := PushElement(before, ReferTo(before, root), 4);
               before.Size() <= rooted.Size() <= Finish(s, root, fileId, sizePrefix).Size()
  {
    FinishUnfolds(s, root, fileId, sizePrefix);
    hide PaddingBytes, Finish, LE;
  }

  lemma NothingPacked()
    ensures Packed([], [], [])
  {
  }

  // ---------- the builder ----------

  class FlatBufferBuilder {
    const buf: VectorDownward
    var numFieldLoc: nat
    var maxVoffset: nat
    var nested: bool
    var finished: bool
    var minAlign: pos
    var dedup: bool
    var pool: seq<nat>
    /** The state of BuilderModel that the fields represent. */
    ghost var model: State

    ghost predicate Valid()
      reads this, buf, buf.buf
    {
      && buf.Valid() && buf.maxSize == MAX_BUFFER_SIZE
      && model == State(buf.Data(), model.vtables, model.fields, maxVoffset, nested, finished, minAlign, dedup, pool)
      && Packed(buf.Scratch(), model.vtables, model.fields)
      && numFieldLoc == |model.fields|
    }

    constructor (initialSize: nat, bufferMinAlign: nat)
      requires bufferMinAlign > 0
      ensures Valid() && model == Empty
      ensures fresh(buf) && buf.buf == null
    {
      buf := new VectorDownward(initialSize, bufferMinAlign, MAX_BUFFER_SIZE);
      numFieldLoc, maxVoffset, nested, finished, minAlign, dedup, pool := 0, 0, false, false, 1, true, [];
      model := Empty;
    }

    /** DedupVtables. */
    method DedupVtables(dedup: bool)
      requires Valid()
      modifies this`dedup, this`model
      ensures Valid() && model == old(model).(dedup := dedup)
    {
      hide VectorDownward.Valid, VectorDownward.Data, VectorDownward.Scratch;
      this.dedup := dedup;
      model := model.(dedup := dedup);
    }

    method RaiseMinAlign(elemSize: nat)
      requires Valid()
      modifies this`minAlign, this`model
      ensures Valid() && model == TrackMinAlign(old(model), elemSize)
    {
      hide VectorDownward.Valid, VectorDownward.Data, VectorDownward.Scratch;
      if elemSize > minAlign {
        minAlign := elemSize;
      }
      model := TrackMinAlign(model, elemSize);
    }

    method AlignTo(elemSize: nat)
      requires Valid() && elemSize > 0 && Align(model, elemSize).Size() < MAX_BUFFER_SIZE
      modifies this, buf, buf.buf
      ensures Valid() && model == Align(old(model), elemSize)
      ensures buf.buf == old(buf.buf) || fresh(buf.buf)
    {
      hide VectorDownward.Valid, VectorDownward.Data, VectorDownward.Scratch;
      hide Packed, PaddingBytes;
      RaiseMinAlign(elemSize);
      buf.Fill(PaddingBytes(buf.size, elemSize));
      model := Align(old(model), elemSize);
    }

    method PreAlignFor(len: nat, alignment: nat)
      requires Valid() && alignment > 0 && PreAlign(model, len, alignment).Size() < MAX_BUFFER_SIZE
      modifies this, buf, buf.buf
      ensures Valid() && model == PreAlign(old(model), len, alignment)
      ensures buf.buf == old(buf.buf) || fresh(buf.buf)
    {
      hide VectorDownward.Valid, VectorDownward.Data, VectorDownward.Scratch;
      hide Packed, PaddingBytes;
      if len == 0 {
        return;
      }
      RaiseMinAlign(alignment);
      buf.Fill(PaddingBytes(buf.size + len, alignment));
      model := PreAlign(old(model), len, alignment);
    }

    method PushBytes(bytes: seq<byte>)
      requires Valid() && Push(model, bytes).Size() < MAX_BUFFER_SIZE
      modifies this, buf, buf.buf
      ensures Valid() && model == Push(old(model), bytes)
      ensures buf.buf == old(buf.buf) || fresh(buf.buf)
    {
      hide VectorDownward.Valid, VectorDownward.Data, VectorDownward.Scratch;
      buf.Push(bytes);
      model := Push(model, bytes);
    }

    /** PushElement: returns the offset of the scalar. */
    method PushScalar(v: nat, w: nat) returns (off: nat)
      requires Valid() && w > 0 && PushElement(model, v, w).Size() < MAX_BUFFER_SIZE
      modifies this, buf, buf.buf
      ensures Valid() && model == PushElement(old(model), v, w) && off == model.Size()
      ensures buf.buf == old(buf.buf) || fresh(buf.buf)
    {
      hide VectorDownward.Valid, VectorDownward.Data, VectorDownward.Scratch;
      AlignTo(w);
      buf.PushSmall(v, w);
      model := PushElement(old(model), v, w);
      off := buf.size;
    }

    method Track(id: nat, off: nat)
      requires Valid() && model.Size() < MAX_BUFFER_SIZE
      requires Storable(model.vtables, model.fields + [FieldLoc(off, id)])
      modifies this, buf, buf.buf
      ensures Valid() && model == TrackField(old(model), id, off)
      ensures buf.buf == old(buf.buf) || fresh(buf.buf)
    {
      hide VectorDownward.Valid, VectorDownward.Data, VectorDownward.Scratch;
      hide Packed, FieldEntry;
      PackedLength(buf.Scratch(), model.vtables, model.fields);
      PackField(buf.Scratch(), model.vtables, model.fields, FieldLoc(off, id));
      buf.ScratchPushSmall(FieldEntry(FieldLoc(off, id)));
      numFieldLoc := numFieldLoc + 1;
      if id > maxVoffset {
        maxVoffset := id;
      }
      model := TrackField(model, id, off);
    }

    /** AddElement: a value equal to the default is not stored. */
    method AddScalarField(id: nat, v: nat, def: nat, w: nat)
      requires Valid() && w > 0 && id < TWO_16 && ScratchRoom(model) && model.Size() < MAX_BUFFER_SIZE
      requires AddElement(model, id, v, def, w).Size() < MAX_BUFFER_SIZE
      modifies this, buf, buf.buf
      ensures Valid() && model == AddElement(old(model), id, v, def, w)
      ensures buf.buf == old(buf.buf) || fresh(buf.buf)
    {
      hide VectorDownward.Valid, VectorDownward.Data, VectorDownward.Scratch;
      if v == def {
        return;
      }
      var off := PushScalar(v, w);
      Track(id, off);
    }

    /** ReferTo: aligns, so that the distance is the one from where the reference is stored next. */
    method Refer(off: nat) returns (distance: nat)
      requires Valid() && Align(model, 4).Size() < MAX_BUFFER_SIZE && 0 < off <= model.Size()
      modifies this, buf, buf.buf
      ensures Valid() && model == Align(old(model), 4) && distance == ReferTo(model, off)
      ensures buf.buf == old(buf.buf) || fresh(buf.buf)
    {
      AlignTo(4);
      distance := buf.size - off + 4;
    }

    /** AddOffset: a null offset is not stored. */
    method AddOffsetField(id: nat, off: nat)
      requires Valid() && id < TWO_16 && ScratchRoom(model) && off <= model.Size() < MAX_BUFFER_SIZE
      requires AddOffset(model, id, off).Size() < MAX_BUFFER_SIZE
      modifies this, buf, buf.buf
      ensures Valid() && model == AddOffset(old(model), id, off)
      ensures buf.buf == old(buf.buf) || fresh(buf.buf)
    {
      if off == 0 {
        return;
      }
      var distance := Refer(off);
      AddScalarField(id, distance, 0, 4);
    }

    method BeginTable() returns (start: nat)
      requires Valid() && NotNested(model)
      modifies this`nested, this`model
      ensures Valid() && model == StartTable(old(model)) && start == model.Size()
    {
      hide VectorDownward.Valid, VectorDownward.Data, VectorDownward.Scratch;
      nested := true;
      model := StartTable(model);
      start := buf.size;
    }

    /** Writes the slot of one field location, in place. */
    method WriteSlot(it: nat, loc: nat, ghost job: SlotJob, ghost k: nat)
      requires buf.Valid() && job.Ok(loc) && k < |job.fields|
      requires Packed(buf.Scratch(), job.vtables, job.fields) && it == 4 * |job.vtables| + 8 * k
      requires buf.Data() == job.After(loc, k)
      modifies buf.buf
      ensures buf.Valid() && buf.Scratch() == old(buf.Scratch()) && buf.Data() == job.After(loc, k + 1)
    {
      hide Packed, SlotJob.After, SlotJob.Ok, WriteScalar, FromLE, LE;
      PackedField(buf.Scratch(), job.vtables, job.fields, k);
      job.NextSlot(loc, k);
      var off, id := buf.ReadScratch(it, 4), buf.ReadScratch(it + 4, 2);
      assert buf.ReadData(id, 2) == 0;
      buf.Write(id, loc - off, 2);
    }

    /** The loop over the field locations in the scratch area. */
    method WriteSlots(loc: nat, ghost job: SlotJob)
      requires buf.Valid() && job.Ok(loc) && buf.Data() == job.vt + job.rest
      requires Packed(buf.Scratch(), job.vtables, job.fields) && numFieldLoc == |job.fields|
      modifies buf.buf
      ensures buf.Valid() && buf.Scratch() == old(buf.Scratch())
      ensures buf.Data() == FillSlots(job.vt, loc, job.fields) + job.rest
    {
      var it := buf.scratch - numFieldLoc * 8;
      ghost var k := 0;
      while it < buf.scratch
        invariant buf.Valid() && buf.Scratch() == old(buf.Scratch())
        invariant 0 <= k <= |job.fields| && it == 4 * |job.vtables| + 8 * k
        invariant buf.Data() == job.After(loc, k)
      {
        WriteSlot(it, loc, job, k);
        it := it + 8;
        k := k + 1;
      }
      assert job.fields[..k] == job.fields;
    }

    /** Pushes a vtable for the open fields. */
    method WriteVTable(size: nat, tableSize: nat, loc: nat, ghost vtables: seq<nat>, ghost fields: seq<FieldLoc>)
      requires buf.Valid() && buf.maxSize == MAX_BUFFER_SIZE && buf.size + size < MAX_BUFFER_SIZE
      requires Packed(buf.Scratch(), vtables, fields) && numFieldLoc == |fields|
      requires 4 <= size < TWO_16 && tableSize < TWO_16 && SlotFields(Zeros(size), loc, fields)
      modifies buf, buf.buf
      ensures buf.Valid() && buf.Scratch() == old(buf.Scratch())
      ensures buf.Data() == VTableBytes(size, tableSize, loc, fields) + old(buf.Data())
      ensures buf.buf == old(buf.buf) || fresh(buf.buf)
    {
      hide Packed, WriteScalar, SlotFields, SlotJob.Ok;
      ghost var job := SlotJob(VTableHeader(size, tableSize), buf.Data(), vtables, fields);
      BlankJobOk(size, tableSize, loc, job.rest, vtables, fields);
      WriteInFront(Zeros(size), job.rest, 2, tableSize, 2);
      WriteInFront(WriteScalar(Zeros(size), 2, tableSize, 2), job.rest, 0, size, 2);
      buf.Fill(size);
      buf.Write(2, tableSize, 2);
      buf.Write(0, size, 2);
      WriteSlots(loc, job);
    }

    /** The vtable offset, still zero, and the vtable; then the fields are forgotten. */
    method PushVTable(start: nat) returns (loc: nat)
      requires Valid() && CanEndTable(model, start) && WithVTable(model, start).Size() < MAX_BUFFER_SIZE
      modifies this, buf, buf.buf
      ensures Valid() && model == WithVTable(old(model), start) && loc == PushElement(old(model), 0, 4).Size()
      ensures buf.buf == old(buf.buf) || fresh(buf.buf)
    {
      hide Packed, CanEndTable, SlotFields, PushElement, WithVTable, OpenVTable;
      ghost var s := model;
      WithVTableIs(s, start);
      loc := PushScalar(0, 4);
      PushVTableOf(start, loc, s);
    }

    method PushVTableOf(start: nat, loc: nat, ghost s: State)
      requires Valid() && CanEndTable(s, start) && WithVTable(s, start).Size() < MAX_BUFFER_SIZE
      requires model == PushElement(s, 0, 4) && loc == model.Size()
      modifies this, buf, buf.buf
      ensures Valid() && model == WithVTable(s, start)
      ensures buf.buf == old(buf.buf) || fresh(buf.buf)
    {
      hide VectorDownward.Valid, VectorDownward.Data, VectorDownward.Scratch;
      hide Packed, VTableBytes, CanEndTable, SlotFields, PushElement, WithVTable, OpenVTable;
      FieldsHaveSlots(s, start);
      WithVTableIs(s, start);
      UnpackFields(buf.Scratch(), model.vtables, model.fields);
      var next := Wrap16(maxVoffset + 2);
      maxVoffset := if next > 4 then next else 4;
      WriteVTable(maxVoffset, loc - start, loc, model.vtables, model.fields);
      ClearOffsets();
      model := WithVTable(s, start);
    }

    method ClearOffsets()
      requires buf.Valid() && 8 * numFieldLoc <= buf.scratch
      modifies this`numFieldLoc, this`maxVoffset, buf`scratch
      ensures buf.Valid() && buf.Data() == old(buf.Data())
      ensures buf.Scratch() == old(buf.Scratch()[..buf.scratch - 8 * numFieldLoc])
      ensures numFieldLoc == 0 && maxVoffset == 0
    {
      buf.ScratchPop(numFieldLoc * 8);
      numFieldLoc := 0;
      maxVoffset := 0;
    }

    /** The loop over the remembered vtables, comparing each with the one just written. */
    method FindDuplicate(ghost vt: seq<byte>, ghost vtables: seq<nat>) returns (found: Option<nat>)
      requires buf.Valid() && Packed(buf.Scratch(), vtables, [])
      requires 2 <= |vt| <= buf.size && buf.Data()[..|vt|] == vt && FromLE(vt[..2]) == |vt|
      requires forall v <- vtables :: Comparable(buf.Data(), v)
      ensures found == FindVTable(buf.Data(), vtables, vt)
    {
      hide VectorDownward.Valid, VectorDownward.Data, VectorDownward.Scratch;
      hide Packed, VTableMatches, FromLE, FindVTable, Comparable;
      var it := 0;
      var size := buf.ReadData(0, 2);
      assert vt[..2] == buf.Data()[..2];
      ghost var i := 0;
      PackedLength(buf.Scratch(), vtables, []);
      while it < buf.scratch
        invariant i <= |vtables| && it == 4 * i
        invariant FindVTable(buf.Data(), vtables, vt) == FindVTable(buf.Data(), vtables[i..], vt)
      {
        PackedVTable(buf.Scratch(), vtables, [], i);
        var off := buf.ReadScratch(it, 4);
        assert off == vtables[i] && vtables[i] in vtables;
        var same := SameVTable(size, off, vt);
        FindVTableFrom(buf.Data(), vtables, vt, i);
        if same {
          return Some(off);
        }
        it := it + 4;
        i := i + 1;
      }
      NoVTableLeft(buf.Data(), vtables, vt);
      return None;
    }

    /** The sizes first, then the bytes. */
    method SameVTable(size: nat, off: nat, ghost vt: seq<byte>) returns (same: bool)
      requires buf.Valid() && Comparable(buf.Data(), off)
      requires size == |vt| && 2 <= |vt| <= buf.size && buf.Data()[..|vt|] == vt
      ensures same == VTableMatches(buf.Data(), off, vt)
    {
      hide FromLE;
      var at := buf.size - off;
      same := size == buf.ReadData(at, 2) && buf.SameData(at, 0, size);
    }

    /** Drops the new vtable if an equal one is remembered; returns the offset of the vtable to use. */
    method ShareVTable(start: nat, loc: nat, ghost s: State) returns (vtUse: nat)
      requires Valid() && CanEndTable(s, start) && model == WithVTable(s, start) && loc == PushElement(s, 0, 4).Size()
      requires forall v <- model.vtables :: Comparable(model.data, v)
      modifies this`model, buf`cur, buf`size
      ensures Valid() && model == Shared(s, start) && vtUse == SharedOffset(s, start)
    {
      hide VectorDownward.Valid, VectorDownward.Data, VectorDownward.Scratch;
      hide Packed, CanEndTable, FindVTable, Comparable, FromLE;
      NewVTableInFront(s, start);
      hide WithVTable, OpenVTable;
      vtUse := buf.size;
      if dedup {
        var found := FindDuplicate(OpenVTable(s, start), model.vtables);
        if found.Some? {
          vtUse := found.value;
          buf.Pop(buf.size - loc);
        }
      }
      model := Shared(s, start);
    }

    /** Remembers the vtable if it is the one just written. */
    method RememberVTable(vtUse: nat)
      requires Valid() && model.fields == [] && ScratchRoom(model) && model.Size() < MAX_BUFFER_SIZE
      modifies this, buf, buf.buf
      ensures Valid() && model == Remembered(old(model), vtUse)
      ensures buf.buf == old(buf.buf) || fresh(buf.buf)
    {
      hide VectorDownward.Valid, VectorDownward.Data, VectorDownward.Scratch;
      hide Packed, LE;
      PackedLength(buf.Scratch(), model.vtables, []);
      if vtUse == buf.size {
        PackVTable(buf.Scratch(), model.vtables, vtUse);
        buf.ScratchPushSmall(LE(vtUse, 4));
      }
      model := Remembered(model, vtUse);
    }

    /** Fills in the vtable offset of the table at `loc`. */
    method PatchVTableOffset(loc: nat, vtUse: nat)
      requires Valid() && 4 <= loc <= model.Size()
      modifies this`nested, this`model, buf.buf
      ensures Valid()
      ensures model == Patched(old(model), loc, vtUse)
    {
      hide Packed, WriteScalar;
      buf.Write(buf.size - loc, Wrap32(vtUse - loc), 4);
      nested := false;
      model := Patched(model, loc, vtUse);
    }

    /** EndTable: returns the offset of the table. */
    method FinishTable(start: nat) returns (loc: nat)
      requires Valid() && CanEndTable(model, start) && WithVTable(model, start).Size() < MAX_BUFFER_SIZE && ScratchRoom(model)
      requires forall v <- model.vtables :: Comparable(model.data, v)
      modifies this, buf, buf.buf
      ensures Valid() && (model, loc) == EndTable(old(model), start)
      ensures buf.buf == old(buf.buf) || fresh(buf.buf)
    {
      hide Packed, CanEndTable, Comparable, WithVTable, OpenVTable, EndTable, PushElement, Shared, SharedOffset, Patched, ScratchRoom;
      ghost var s := model;
      loc := PushVTable(start);
      StillComparable(s, start);
      var vtUse := ShareVTable(start, loc, s);
      SharedRoom(s, start);
      RememberVTable(vtUse);
      EndTableIs(s, start);
      PatchVTableOffset(loc, vtUse);
    }

    // ---------- strings ----------

    /** CreateString: returns the offset of the string. */
    method AddString(str: seq<byte>) returns (off: nat)
      requires Valid() && NotNested(model) && CreateString(model, str).Size() < MAX_BUFFER_SIZE
      modifies this, buf, buf.buf
      ensures Valid() && model == CreateString(old(model), str) && off == model.Size()
      ensures buf.buf == old(buf.buf) || fresh(buf.buf)
    {
      hide Packed, PreAlign, PushElement;
      StringSteps(model, str);
      PreAlignFor(|str| + 1, 4);
      PushBytes(Zeros(1));
      PushBytes(str);
      off := PushScalar(|str|, 4);
    }

    /** The string at this offset, as the comparator of the pool reads it. */
    method StringBytes(off: nat) returns (s: seq<byte>)
      requires Valid() && StringIn(model.data, off)
      ensures s == StringData(model.data, off)
    {
      hide Packed, FromLE, StringIn, StringData, VectorDownward.Valid, VectorDownward.Data;
      StringPlace(model.data, off);
      var pos := buf.size - off;
      s := buf.Bytes(pos + 4, buf.ReadData(pos, 4));
    }

    /** Looks for an entry of the pool that neither precedes nor follows the string at `off`. */
    method FindInPool(off: nat) returns (found: Option<nat>)
      requires Valid() && StringIn(model.data, off) && forall p <- pool :: StringIn(model.data, p)
      ensures found == PoolFind(model.data, pool, off)
    {
      hide Packed, StringIn, StringData, StringLessThan;
      var i := 0;
      while i < |pool|
        invariant i <= |pool|
        invariant PoolFind(model.data, pool, off) == PoolFind(model.data, pool[i..], off)
      {
        var entry := StringBytes(pool[i]);
        var wanted := StringBytes(off);
        assert pool[i..][0] == pool[i] && pool[i..][1..] == pool[i + 1..];
        if !StringLessThan(entry, wanted) && !StringLessThan(wanted, entry) {
          return Some(pool[i]);
        }
        i := i + 1;
      }
      return None;
    }

    /** CreateSharedString: serializes the string first, and drops it again if the pool has an equal one. */
    method AddSharedString(str: seq<byte>) returns (off: nat)
      requires Valid() && NotNested(model) && PoolUsable(model, str) && CreateString(model, str).Size() < MAX_BUFFER_SIZE
      modifies this, buf, buf.buf
      ensures Valid() && (model, off) == CreateSharedString(old(model), str)
      ensures buf.buf == old(buf.buf) || fresh(buf.buf)
    {
      hide VectorDownward.Valid, VectorDownward.Data, VectorDownward.Scratch;
      hide Packed, CreateString, StringIn, PoolFind;
      var before := buf.size;
      ghost var s := model;
      StringKeepsPool(s, str);
      off := AddString(str);
      var found := FindInPool(off);
      if found.Some? {
        buf.Pop(buf.size - before);
        off := found.value;
      } else {
        pool := pool + [off];
      }
      model := CreateSharedString(s, str).0;
    }

    // ---------- finishing ----------

    /** The padding that aligns the whole buffer, and the file identifier. */
    method PushHeaderRoom(fileId: Option<seq<byte>>, sizePrefix: bool)
      requires Valid() && NotNested(model) && HeaderRoom(model, fileId, sizePrefix).Size() < MAX_BUFFER_SIZE
      requires fileId.Some? ==> |fileId.value| == FILE_IDENTIFIER_LENGTH
      modifies this, buf, buf.buf
      ensures Valid() && model == HeaderRoom(old(model), fileId, sizePrefix)
      ensures buf.buf == old(buf.buf) || fresh(buf.buf)
    {
      hide VectorDownward.Valid, VectorDownward.Data, VectorDownward.Scratch;
      hide Packed, PreAlign;
      HeaderSteps(model, fileId, sizePrefix);
      ForgetVTables();
      var prefixSize := if sizePrefix then 4 else 0;
      RaiseMinAlign(prefixSize);
      PreAlignFor(prefixSize + 4 + (if fileId.Some? then FILE_IDENTIFIER_LENGTH else 0), minAlign);
      if fileId.Some? {
        PushBytes(fileId.value);
      }
    }

    method ForgetVTables()
      requires Valid() && model.fields == []
      modifies this`model, buf`scratch
      ensures Valid() && model == old(model).(vtables := [])
    {
      hide VectorDownward.Valid, VectorDownward.Data, VectorDownward.Scratch;
      buf.ClearScratch();
      model := model.(vtables := []);
    }

    /** Location of the root, and the size prefix. */
    method PushRoot(root: nat, sizePrefix: bool)
      requires Valid() && 0 < root <= model.Size() && Align(model, 4).Size() < MAX_BUFFER_SIZE
      requires PushElement(Align(model, 4), ReferTo(Align(model, 4), root), 4).Size() < MAX_BUFFER_SIZE
      requires WithRoot(Align(model, 4), root, sizePrefix).Size() < MAX_BUFFER_SIZE
      modifies this, buf, buf.buf
      ensures Valid() && model == WithRoot(Align(old(model), 4), root, sizePrefix)
      ensures buf.buf == old(buf.buf) || fresh(buf.buf)
    {
      hide VectorDownward.Valid, VectorDownward.Data, VectorDownward.Scratch;
      hide Packed, Align, PushElement;
      var distance := Refer(root);
      var at := PushScalar(distance, 4);
      if sizePrefix {
        at := PushScalar(buf.size, 4);
      }
    }

    /** Finish. */
    method FinishBuffer(root: nat, fileId: Option<seq<byte>>, sizePrefix: bool)
      requires Valid() && !finished && NotNested(model) && 0 < root <= model.Size()
      requires fileId.Some? ==> |fileId.value| == FILE_IDENTIFIER_LENGTH
      requires Finish(model, root, fileId, sizePrefix).Size() < MAX_BUFFER_SIZE
      modifies this, buf, buf.buf
      ensures Valid() && model == Finish(old(model), root, fileId, sizePrefix)
      ensures buf.buf == old(buf.buf) || fresh(buf.buf)
    {
      hide VectorDownward.Valid, VectorDownward.Data, VectorDownward.Scratch;
      hide Packed, HeaderRoom, Align, PushElement, Finish;
      FinishSizes(model, root, fileId, sizePrefix);
      FinishUnfolds(model, root, fileId, sizePrefix);
      PushHeaderRoom(fileId, sizePrefix);
      PushRoot(root, sizePrefix);
      finished := true;
      model := model.(finished := true);
    }

    /** Clear: everything but the allocation and the deduplication switch is reset. */
    method Clear()
      requires Valid()
      modifies this, buf
      ensures Valid() && model == Empty.(dedup := old(dedup))
      ensures buf.buf == old(buf.buf)
    {
      hide VectorDownward.Valid, VectorDownward.Data, VectorDownward.Scratch;
      hide Packed;
      UnpackFields(buf.Scratch(), model.vtables, model.fields);
      NothingPacked();
      ClearOffsets();
      buf.Clear();
      nested, finished, minAlign, pool := false, false, 1, [];
      model := Empty.(dedup := dedup);
    }

    /** The serialized buffer, once it is finished. */
    function GetBuffer(): (d: seq<byte>)
      requires Valid() && finished
      reads this, buf, buf.buf
      ensures d == model.data
    {
      buf.Bytes(0, buf.size)
    }
  }
}
