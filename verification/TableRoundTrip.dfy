/** Reading a finished buffer returns what was built, whatever was built in between. */
module TableRoundTrip {
  import opened Wrappers
  import opened Bytes
  import opened Alignment
  import opened BuilderModel
  import opened Layout
  import opened BuilderSteps
  import opened TableSteps
  import opened BuilderRuns
  import opened FinishSteps
  import opened TableReader

  /** Offsets count from the end, positions from the start: they name the same bytes. */
  lemma ReadScalarAt(d: seq<byte>, off: nat, w: nat)
    requires w <= off <= |d|
    ensures ReadScalar(d, |d| - off, w) == Value(Scalar(d, off, w))
  {
  }

  lemma VTableReads(d: seq<byte>, off: nat, id: nat)
    requires 4 <= off <= |d| && VTableAt(d, VTableOffset(d, off)) && id % 2 == 0
    ensures GetOptionalFieldOffset(d, |d| - off, id) == Value(Slot(d, VTableOffset(d, off), id))
  {
    var vt := VTableOffset(d, off);
    ReadScalarAt(d, off, 4);
    ReadScalarAt(d, vt, 2);
    if id < Scalar(d, vt, 2) {
      ReadScalarAt(d, vt - id, 2);
    }
    hide FromLE, Scalar;
  }

  /** What the accessors return for field `id` of a table holding the fields m. */
  predicate FieldReadsAs(d: Buffer, table: int, m: map<nat, FieldVal>, id: nat, w: nat, def: nat, offs: seq<nat>) {
    if id !in m then
      GetField(d, table, id, w, def) == Value(def) && GetPointer(d, table, id) == Value(None)
    else
      match m[id]
      case Val(width, x) => w == width ==> GetField(d, table, id, w, def) == Value(x)
      case Ref(h) => h < |offs| && GetPointer(d, table, id) == Value(Some(|d| - offs[h]))
  }

  lemma AbsentFieldReads(d: seq<byte>, off: nat, m: map<nat, FieldVal>, offs: seq<nat>, minAlign: nat, id: nat, w: nat, def: nat)
    requires TableAt(d, off, m, offs, minAlign) && FieldId(id) && id !in m
    ensures FieldReadsAs(d, |d| - off, m, id, w, def, offs)
  {
    VTableReads(d, off, id);
    hide GetOptionalFieldOffset, FromLE, Scalar, VTableOffset, VTableAt, NamedFieldAt, Aligned;
  }

  lemma PresentFieldReads(d: seq<byte>, off: nat, vt: int, id: nat, v: FieldVal, offs: seq<nat>, minAlign: nat, w: nat, def: nat)
    requires 4 <= off <= |d| && VTableAt(d, vt) && NamedFieldAt(d, off, vt, id, v, offs, minAlign)
    requires GetOptionalFieldOffset(d, |d| - off, id) == Value(Slot(d, vt, id))
    ensures FieldReadsAs(d, |d| - off, map[id := v], id, w, def, offs)
  {
    hide GetOptionalFieldOffset, FromLE, VTableAt, Slot, Aligned;
    var at := off - Slot(d, vt, id);
    match v {
      case Val(width, x) => ReadScalarAt(d, at, width);
      case Ref(h) => ReadScalarAt(d, at, 4);
    }
    hide Scalar;
  }

  lemma FieldReads(d: seq<byte>, off: nat, m: map<nat, FieldVal>, offs: seq<nat>, minAlign: nat, id: nat, w: nat, def: nat)
    requires TableAt(d, off, m, offs, minAlign) && FieldId(id)
    ensures FieldReadsAs(d, |d| - off, m, id, w, def, offs)
  {
    hide TableAt, VTableOffset, VTableAt, NamedFieldAt, Slot, GetField, GetPointer, GetOptionalFieldOffset;
    if id !in m {
      AbsentFieldReads(d, off, m, offs, minAlign, id, w, def);
    } else {
      TableNames(d, off, m, offs, minAlign, id);
      VTableReads(d, off, id);
      PresentFieldReads(d, off, VTableOffset(d, off), id, m[id], offs, minAlign, w, def);
    }
  }

  lemma TableNames(d: seq<byte>, off: nat, m: map<nat, FieldVal>, offs: seq<nat>, minAlign: nat, id: nat)
    requires TableAt(d, off, m, offs, minAlign) && FieldId(id)
    ensures 4 <= off <= |d| && VTableAt(d, VTableOffset(d, off))
    ensures id in m ==> NamedFieldAt(d, off, VTableOffset(d, off), id, m[id], offs, minAlign)
  {
    hide VTableOffset, VTableAt, NamedFieldAt, Slot;
  }

  lemma StringReads(d: seq<byte>, off: nat, str: seq<byte>)
    requires StrAt(d, off, str)
    ensures GetString(d, |d| - off) == Value(str) && GetTerminator(d, |d| - off) == Value(0)
  {
    ReadScalarAt(d, off, 4);
    var z := |d| - off + 4 + |str|;
    assert d[z..z + 1] == [0];
    assert FromLE([0]) == 0;
  }

  /** Every accessor of the object at `off` returns what was built. */
  ghost predicate ReadsAs(d: Buffer, off: nat, obj: Obj, offs: seq<nat>) {
    match obj
    case StrObj(str) => GetString(d, |d| - off) == Value(str) && GetTerminator(d, |d| - off) == Value(0)
    case TableObj(m) =>
      forall id: nat, w: nat, def: nat {:trigger FieldReadsAs(d, |d| - off, m, id, w, def, offs)} ::
        FieldId(id) ==> FieldReadsAs(d, |d| - off, m, id, w, def, offs)
  }

  lemma ObjectReads(d: seq<byte>, off: nat, obj: Obj, offs: seq<nat>, minAlign: nat)
    requires ObjAt(d, off, obj, offs, minAlign)
    ensures ReadsAs(d, off, obj, offs)
  {
    match obj
    case StrObj(str) => StringReads(d, off, str);
    case TableObj(m) =>
      hide TableAt, FieldReadsAs;
      forall id: nat, w: nat, def: nat {:trigger FieldReadsAs(d, |d| - off, m, id, w, def, offs)} | FieldId(id)
        ensures FieldReadsAs(d, |d| - off, m, id, w, def, offs)
      {
        FieldReads(d, off, m, offs, minAlign, id, w, def);
      }
  }

  /** A run together with the root to finish on. */
  ghost predicate Finishable(dedup: bool, ops: seq<Op>, root: nat, fileId: Option<seq<byte>>, sizePrefix: bool) {
    && Steps(Start(dedup), ops).Some?
    && var r := Steps(Start(dedup), ops).value;
    && |r.offs| == |ops| && root < |ops|
    && !r.state.finished && NotNested(r.state) && 0 < r.offs[root] <= r.state.Size()
    && (fileId.Some? ==> |fileId.value| == FILE_IDENTIFIER_LENGTH)
    && Finish(r.state, r.offs[root], fileId, sizePrefix).Size() < MAX_BUFFER_SIZE
  }

  ghost function Offsets(dedup: bool, ops: seq<Op>): seq<nat>
    requires Steps(Start(dedup), ops).Some?
  {
    Steps(Start(dedup), ops).value.offs
  }

  ghost function Finished(dedup: bool, ops: seq<Op>, root: nat, fileId: Option<seq<byte>>, sizePrefix: bool): State
    requires Finishable(dedup, ops, root, fileId, sizePrefix)
  {
    Finish(Steps(Start(dedup), ops).value.state, Offsets(dedup, ops)[root], fileId, sizePrefix)
  }

  /** The objects of a run, in a buffer aligned from its start. */
  ghost predicate Built(f: State, offs: seq<nat>, ops: seq<Op>) {
    && Tracked(f.minAlign) && 4 <= f.minAlign && Aligned(f.Size(), f.minAlign)
    && |offs| == |ops|
    && (forall h :: 0 <= h < |ops| ==> 0 < offs[h] <= f.Size())
    && (forall h :: 0 <= h < |ops| ==> ObjAt(f.data, offs[h], Expected(ops[h]), offs, f.minAlign))
  }

  /** Finishing a buffer keeps its objects. */
  lemma FinishKeepsObjects(r: Run, root: nat, fileId: Option<seq<byte>>, sizePrefix: bool)
    requires Inv(r) && 0 < root <= r.state.Size() && 4 <= r.state.minAlign
    requires fileId.Some? ==> |fileId.value| == FILE_IDENTIFIER_LENGTH
    ensures Built(Finish(r.state, root, fileId, sizePrefix), r.offs, r.ops)
  {
    hide Finish, Aligned, Extends, Expected, ObjAt, TablesShareVTables, VTablesGood, PoolAt, SharedInPool, Scalar;
    FinishLands(r.state, root, fileId, sizePrefix);
    var f := Finish(r.state, root, fileId, sizePrefix);
    assert Ready(r.state, r.offs);
    ExtendsLength(r.state.data, f.data);
    ObjectsKept(r, f.data, r.offs, f.minAlign);
    assert forall h :: 0 <= h < |r.ops| ==> r.offs[h] in r.offs;
  }

  /** GetRoot finds the root of the finished buffer. */
  lemma RootFound(s: State, root: nat, fileId: Option<seq<byte>>, sizePrefix: bool)
    requires Tracked(s.minAlign) && 4 <= s.minAlign && !s.finished && NotNested(s) && 0 < root <= s.Size()
    requires fileId.Some? ==> |fileId.value| == FILE_IDENTIFIER_LENGTH
    requires Finish(s, root, fileId, sizePrefix).Size() < MAX_BUFFER_SIZE
    ensures var buf := Finish(s, root, fileId, sizePrefix).data;
            GetRoot(buf, Prefix(sizePrefix)) == Value(|buf| - root)
  {
    FinishLands(s, root, fileId, sizePrefix);
    hide Finish, Aligned;
    RootReads(s, root, fileId, sizePrefix, Finish(s, root, fileId, sizePrefix));
  }

  lemma RootReads(s: State, root: nat, fileId: Option<seq<byte>>, sizePrefix: bool, r: State)
    requires FinishedOn(s, root, fileId, sizePrefix, r) && r.Size() < TWO_32
    ensures GetRoot(r.data, Prefix(sizePrefix)) == Value(r.Size() - root)
  {
    hide Aligned, Extends, Scalar, IdBytes, ReadScalar;
    var start := Prefix(sizePrefix);
    var p := r.Size() - start;
    ReadScalarAt(r.data, p, 4);
    assert ReadScalar(r.data, start, 4) == Value(p - root);
  }

  /** After any run, every object that was made, wherever in the run, is found intact in the finished buffer. */
  lemma ObjectsInFinished(dedup: bool, ops: seq<Op>, root: nat, fileId: Option<seq<byte>>, sizePrefix: bool)
    requires Finishable(dedup, ops, root, fileId, sizePrefix)
    ensures Built(Finished(dedup, ops, root, fileId, sizePrefix), Offsets(dedup, ops), ops)
  {
    RunsKeepInvariant(dedup, ops);
    var r := Steps(Start(dedup), ops).value;
    hide Steps, Start, Finish, Built;
    FinishKeepsObjects(r, r.offs[root], fileId, sizePrefix);
  }

  /**
   For every run and every root: GetRoot returns the root, and every accessor of every string and
   table made during the run returns what was put in, or the default.
   */
  lemma RoundTrip(dedup: bool, ops: seq<Op>, root: nat, fileId: Option<seq<byte>>, sizePrefix: bool)
    requires Finishable(dedup, ops, root, fileId, sizePrefix)
    ensures var buf := Finished(dedup, ops, root, fileId, sizePrefix).data;
            var offs := Offsets(dedup, ops);
            && |offs| == |ops|
            && GetRoot(buf, Prefix(sizePrefix)) == Value(|buf| - offs[root])
            && forall h :: 0 <= h < |ops| ==> ReadsAs(buf, offs[h], Expected(ops[h]), offs)
  {
    ObjectsInFinished(dedup, ops, root, fileId, sizePrefix);
    RootOfFinished(dedup, ops, root, fileId, sizePrefix);
    var f := Finished(dedup, ops, root, fileId, sizePrefix);
    var offs := Offsets(dedup, ops);
    hide Finishable, Steps, Start, Finish, Finished, Offsets, ObjAt, Expected, ReadsAs, Aligned, GetRoot;
    forall h | 0 <= h < |ops|
      ensures ReadsAs(f.data, offs[h], Expected(ops[h]), offs)
    {
      ObjectReads(f.data, offs[h], Expected(ops[h]), offs, f.minAlign);
    }
  }

  lemma RootOfFinished(dedup: bool, ops: seq<Op>, root: nat, fileId: Option<seq<byte>>, sizePrefix: bool)
    requires Finishable(dedup, ops, root, fileId, sizePrefix)
    ensures var buf := Finished(dedup, ops, root, fileId, sizePrefix).data;
            GetRoot(buf, Prefix(sizePrefix)) == Value(|buf| - Offsets(dedup, ops)[root])
  {
    hide Steps, Start, Finish, GetRoot, Inv;
    RunsKeepInvariant(dedup, ops);
    var r := Steps(Start(dedup), ops).value;
    RootAligned(r, root);
    RootFound(r.state, r.offs[root], fileId, sizePrefix);
  }

  lemma RootAligned(r: Run, root: nat)
    requires Inv(r) && root < |r.offs|
    ensures Tracked(r.state.minAlign) && 4 <= r.state.minAlign
  {
    hide Ready, VTablesGood, ObjectsAt, TablesShareVTables, PoolAt, SharedInPool, Tracked;
  }

  // ---------- deduplication changes no reading ----------

  /** Field `id` of one table in two buffers: the same scalar, or a pointer to the same object. */
  predicate SameField(a: Buffer, ta: int, offsA: seq<nat>, b: Buffer, tb: int, offsB: seq<nat>,
                      m: map<nat, FieldVal>, id: nat, w: nat, def: nat) {
    if id in m && m[id].Ref? then
      var k := m[id].handle;
      && k < |offsA| && k < |offsB|
      && GetPointer(a, ta, id) == Value(Some(|a| - offsA[k])) && GetPointer(b, tb, id) == Value(Some(|b| - offsB[k]))
    else if id in m && m[id].width != w then true
    else GetField(a, ta, id, w, def).Value? && GetField(a, ta, id, w, def) == GetField(b, tb, id, w, def)
  }

  ghost predicate SameObject(a: Buffer, offA: nat, offsA: seq<nat>, b: Buffer, offB: nat, offsB: seq<nat>, obj: Obj) {
    match obj
    case StrObj(str) => GetString(a, |a| - offA) == GetString(b, |b| - offB) == Value(str)
    case TableObj(m) =>
      forall id: nat, w: nat, def: nat {:trigger SameField(a, |a| - offA, offsA, b, |b| - offB, offsB, m, id, w, def)} ::
        FieldId(id) ==> SameField(a, |a| - offA, offsA, b, |b| - offB, offsB, m, id, w, def)
  }

  lemma SameReadings(a: Buffer, offA: nat, offsA: seq<nat>, b: Buffer, offB: nat, offsB: seq<nat>, obj: Obj)
    requires ReadsAs(a, offA, obj, offsA) && ReadsAs(b, offB, obj, offsB)
    ensures SameObject(a, offA, offsA, b, offB, offsB, obj)
  {
    hide GetField, GetPointer, GetString, GetTerminator;
    if obj.TableObj? {
      forall id: nat, w: nat, def: nat {:trigger SameField(a, |a| - offA, offsA, b, |b| - offB, offsB, obj.fields, id, w, def)} | FieldId(id)
        ensures SameField(a, |a| - offA, offsA, b, |b| - offB, offsB, obj.fields, id, w, def)
      {
        assert FieldReadsAs(a, |a| - offA, obj.fields, id, w, def, offsA);
        assert FieldReadsAs(b, |b| - offB, obj.fields, id, w, def, offsB);
      }
    }
  }

  /** Turning deduplication off changes no accessor's result on any object of the run. */
  lemma DedupIsTransparent(ops: seq<Op>, root: nat, fileId: Option<seq<byte>>, sizePrefix: bool)
    requires Finishable(true, ops, root, fileId, sizePrefix) && Finishable(false, ops, root, fileId, sizePrefix)
    ensures var a, offsA := Finished(true, ops, root, fileId, sizePrefix).data, Offsets(true, ops);
            var b, offsB := Finished(false, ops, root, fileId, sizePrefix).data, Offsets(false, ops);
            && |offsA| == |offsB| == |ops|
            && forall h :: 0 <= h < |ops| ==> SameObject(a, offsA[h], offsA, b, offsB[h], offsB, Expected(ops[h]))
  {
    RoundTrip(true, ops, root, fileId, sizePrefix);
    RoundTrip(false, ops, root, fileId, sizePrefix);
    var a, offsA := Finished(true, ops, root, fileId, sizePrefix).data, Offsets(true, ops);
    var b, offsB := Finished(false, ops, root, fileId, sizePrefix).data, Offsets(false, ops);
    hide *;
    forall h | 0 <= h < |ops|
      ensures SameObject(a, offsA[h], offsA, b, offsB[h], offsB, Expected(ops[h]))
    {
      SameReadings(a, offsA[h], offsA, b, offsB[h], offsB, Expected(ops[h]));
    }
  }

  // ---------- vtable sharing and string sharing over whole runs ----------

  /** With deduplication, two tables share a vtable exactly when their vtables have the same bytes. */
  lemma VTablesSharedIffEqual(ops: seq<Op>, h: nat, k: nat)
    requires Steps(Start(true), ops).Some? && h < |ops| && k < |ops| && ops[h].MakeTable? && ops[k].MakeTable?
    ensures var d, offs := Steps(Start(true), ops).value.state.data, Offsets(true, ops);
            && |offs| == |ops| && 4 <= offs[h] <= |d| && 4 <= offs[k] <= |d|
            && VTableAt(d, VTableOffset(d, offs[h])) && VTableAt(d, VTableOffset(d, offs[k]))
            && (VTableOffset(d, offs[h]) == VTableOffset(d, offs[k])
                <==> VTableContents(d, VTableOffset(d, offs[h])) == VTableContents(d, VTableOffset(d, offs[k])))
  {
    RunsKeepInvariant(true, ops);
    DedupKept(true, ops);
    var r := Steps(Start(true), ops).value;
    hide Steps, Start, ObjectsAt, PoolAt, SharedInPool, VTableAt, VTableContents, VTableOffset, Ready;
    assert r.ops[h].MakeTable? && r.ops[k].MakeTable?;
    TableHasVTable(r, h);
    TableHasVTable(r, k);
    var a, b := VTableOffset(r.state.data, r.offs[h]), VTableOffset(r.state.data, r.offs[k]);
    var i :| 0 <= i < |r.state.vtables| && r.state.vtables[i] == a;
    var j :| 0 <= j < |r.state.vtables| && r.state.vtables[j] == b;
  }

  lemma {:induction false} DedupKept(dedup: bool, ops: seq<Op>)
    requires Steps(Start(dedup), ops).Some?
    ensures Steps(Start(dedup), ops).value.state.dedup == dedup
    decreases |ops|
  {
    if ops != [] {
      DedupKept(dedup, ops[..|ops| - 1]);
      var before := Steps(Start(dedup), ops[..|ops| - 1]).value;
      RunsKeepInvariant(dedup, ops[..|ops| - 1]);
      StepKeepsDedup(before, ops[|ops| - 1]);
    }
  }

  lemma StepKeepsDedup(r: Run, op: Op)
    requires Inv(r) && Step(r, op).Some?
    ensures Step(r, op).value.state.dedup == r.state.dedup
  {
    match op {
      case MakeString(b) =>
        hide PaddingBytes, Inv;
      case MakeSharedString(b) =>
        hide PaddingBytes, Inv, PoolUsable, PoolFind;
      case MakeTable(fields) =>
        var filled := FilledTable(r.state, fields, r.offs);
        EndTableSmaller(filled, r.state.Size());
        FilledVTables(r, fields);
        EndTableState(filled, r.state.Size());
        hide Inv, FilledTable, EndTable, CanEndTable, WithVTable, Open, VTablesGood, Extends, Ready, FieldsLegal;
    }
  }

  /** Two shared strings get the same offset exactly when they are byte-equal. */
  lemma StringsSharedIffEqual(dedup: bool, ops: seq<Op>, h: nat, k: nat)
    requires Steps(Start(dedup), ops).Some? && h < |ops| && k < |ops|
    requires ops[h].MakeSharedString? && ops[k].MakeSharedString?
    ensures var offs := Offsets(dedup, ops);
            |offs| == |ops| && (offs[h] == offs[k] <==> ops[h].bytes == ops[k].bytes)
  {
    RunsKeepInvariant(dedup, ops);
    var r := Steps(Start(dedup), ops).value;
    hide Steps, Start, TablesShareVTables, VTablesGood, StringData, StringIn, Ready;
    assert r.ops[h] == ops[h] && r.ops[k] == ops[k];
    assert ObjAt(r.state.data, r.offs[h], Expected(r.ops[h]), r.offs, r.state.minAlign);
    assert ObjAt(r.state.data, r.offs[k], Expected(r.ops[k]), r.offs, r.state.minAlign);
    var i :| 0 <= i < |r.state.pool| && r.state.pool[i] == r.offs[h];
    var j :| 0 <= j < |r.state.pool| && r.state.pool[j] == r.offs[k];
  }
}
