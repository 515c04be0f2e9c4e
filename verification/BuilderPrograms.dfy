/** Whole runs on the builder object: what it produces is the buffer that the theorems about runs speak of. */
module BuilderPrograms {
  import opened Wrappers
  import opened Bytes
  import opened Alignment
  import opened BuilderModel
  import opened Layout
  import opened BuilderSteps
  import opened TableSteps
  import opened BuilderRuns
  import opened TableRoundTrip
  import opened FlatBufferBuilders

  /** The scratch area of `made` tables and one open table with these fields has a 32-bit size. */
  predicate FitsScratch(made: nat, op: Op) {
    4 * made + 8 + (if op.MakeTable? then 8 * |op.fields| else 0) < TWO_32
  }

  // ---------- tables under construction ----------

  lemma AddFieldScratch(s: State, f: FieldOp, offs: seq<nat>)
    requires FieldLegal(f, |offs|) && forall o <- offs :: o <= s.Size()
    requires Storable(s.vtables, s.fields) && 4 * |s.vtables| + 8 * |s.fields| + 8 < TWO_32
    requires AddField(s, f, offs).Size() < MAX_BUFFER_SIZE
    ensures var r := AddField(s, f, offs);
            r.vtables == s.vtables && |r.fields| <= |s.fields| + 1 && Storable(r.vtables, r.fields)
  {
    hide PaddingBytes, Pow256, LE, Extends;
  }

  lemma {:induction false} AddFieldsScratch(s: State, fields: seq<FieldOp>, offs: seq<nat>)
    requires (forall f <- fields :: FieldLegal(f, |offs|)) && forall o <- offs :: o <= s.Size()
    requires s.fields == [] && Storable(s.vtables, []) && 4 * |s.vtables| + 8 * |fields| + 8 < TWO_32
    requires AddFields(s, fields, offs).Size() < MAX_BUFFER_SIZE
    ensures var r := AddFields(s, fields, offs);
            r.vtables == s.vtables && |r.fields| <= |fields| && Storable(r.vtables, r.fields)
    decreases |fields|
  {
    if fields != [] {
      hide Storable, AddField, FieldLegal;
      var rest, last := fields[..|fields| - 1], fields[|fields| - 1];
      var before := AddFields(s, rest, offs);
      AddFieldGrows(before, last, offs);
      AddFieldsScratch(s, rest, offs);
      AddFieldScratch(before, last, offs);
    }
  }

  lemma {:induction false} PrefixSmaller(s: State, fields: seq<FieldOp>, offs: seq<nat>, k: nat)
    requires (forall f <- fields :: FieldLegal(f, |offs|)) && (forall o <- offs :: o <= s.Size()) && k <= |fields|
    ensures AddFields(s, fields[..k], offs).Size() <= AddFields(s, fields, offs).Size()
    decreases |fields|
  {
    hide AddField, FieldLegal;
    if k == |fields| {
      assert fields[..k] == fields;
    } else {
      var rest := fields[..|fields| - 1];
      assert rest[..k] == fields[..k];
      PrefixSmaller(s, rest, offs, k);
      AddFieldGrows(AddFields(s, rest, offs), fields[|fields| - 1], offs);
    }
  }

  /** One call between StartTable and EndTable. */
  method PerformField(b: FlatBufferBuilder, f: FieldOp, offs: seq<nat>)
    requires b.Valid() && FieldLegal(f, |offs|) && ScratchRoom(b.model)
    requires (forall o <- offs :: o <= b.model.Size()) && b.model.Size() < MAX_BUFFER_SIZE
    requires AddField(b.model, f, offs).Size() < MAX_BUFFER_SIZE
    modifies b, b.buf, b.buf.buf
    ensures b.Valid() && b.model == AddField(old(b.model), f, offs)
    ensures b.buf.buf == old(b.buf.buf) || fresh(b.buf.buf)
  {
    hide FlatBufferBuilder.Valid, AddElement, AddOffset;
    match f {
      case AddScalar(id, w, v, def) => b.AddScalarField(id, v, def, w);
      case AddReference(id, target) =>
        if target.None? {
          b.AddOffsetField(id, 0);
        } else {
          assert offs[target.value] in offs;
          b.AddOffsetField(id, offs[target.value]);
        }
    }
  }

  /** The calls between StartTable and EndTable. */
  method PerformFields(b: FlatBufferBuilder, fields: seq<FieldOp>, offs: seq<nat>)
    requires b.Valid() && b.model.fields == [] && Storable(b.model.vtables, [])
    requires (forall f <- fields :: FieldLegal(f, |offs|)) && forall o <- offs :: o <= b.model.Size()
    requires 4 * |b.model.vtables| + 8 * |fields| + 8 < TWO_32
    requires AddFields(b.model, fields, offs).Size() < MAX_BUFFER_SIZE
    modifies b, b.buf, b.buf.buf
    ensures b.Valid() && b.model == AddFields(old(b.model), fields, offs)
    ensures b.buf.buf == old(b.buf.buf) || fresh(b.buf.buf)
  {
    hide FlatBufferBuilder.Valid, FieldLegal, AddField, Storable;
    ghost var s := b.model;
    for k := 0 to |fields|
      invariant b.Valid() && b.model == AddFields(s, fields[..k], offs)
      invariant b.buf.buf == old(b.buf.buf) || fresh(b.buf.buf)
    {
      NextField(s, fields, offs, k);
      PerformField(b, fields[k], offs);
    }
    assert fields[..|fields|] == fields;
  }

  lemma NextField(s: State, fields: seq<FieldOp>, offs: seq<nat>, k: nat)
    requires (forall f <- fields :: FieldLegal(f, |offs|)) && (forall o <- offs :: o <= s.Size()) && k < |fields|
    requires s.fields == [] && Storable(s.vtables, []) && 4 * |s.vtables| + 8 * |fields| + 8 < TWO_32
    requires AddFields(s, fields, offs).Size() < MAX_BUFFER_SIZE
    ensures var now := AddFields(s, fields[..k], offs);
            && ScratchRoom(now) && now.Size() < MAX_BUFFER_SIZE
            && AddFields(s, fields[..k + 1], offs) == AddField(now, fields[k], offs)
            && AddField(now, fields[k], offs).Size() < MAX_BUFFER_SIZE
  {
    hide FieldLegal, AddField, Storable;
    PrefixSmaller(s, fields, offs, k);
    PrefixSmaller(s, fields, offs, k + 1);
    AddFieldsScratch(s, fields[..k], offs);
    assert fields[..k + 1][..k] == fields[..k];
  }

  // ---------- steps ----------

  lemma VTablesComparable(s: State)
    requires VTablesGood(s) && s.Size() < MAX_BUFFER_SIZE
    ensures forall v <- s.vtables :: Comparable(s.data, v) && v < TWO_32
  {
    hide DistinctVTables, Scalar;
    forall v | v in s.vtables
      ensures Comparable(s.data, v) && v < TWO_32
    {
      assert VTableAt(s.data, v);
    }
  }

  /** A table that a step can make: what its methods rely on. */
  lemma TableReady(r: Run, fields: seq<FieldOp>)
    requires Inv(r) && FieldsLegal(fields, |r.offs|) && FitsScratch(|r.state.vtables|, MakeTable(fields))
    requires FilledTable(r.state, fields, r.offs).Size() < MAX_BUFFER_SIZE
    ensures var started, filled := StartTable(r.state), FilledTable(r.state, fields, r.offs);
            && started.fields == [] && Storable(started.vtables, []) && ScratchRoom(filled)
            && (forall v <- filled.vtables :: Comparable(filled.data, v))
  {
    hide ObjectsAt, TablesShareVTables, PoolAt, SharedInPool, VTablesGood, Comparable, FilledTable, Open;
    VTablesComparable(r.state);
    FilledVTables(r, fields);
    VTablesComparable(FilledTable(r.state, fields, r.offs));
    FilledScratch(r.state, fields, r.offs);
  }

  lemma FilledScratch(s: State, fields: seq<FieldOp>, offs: seq<nat>)
    requires Ready(s, offs) && FieldsLegal(fields, |offs|) && Storable(s.vtables, [])
    requires FitsScratch(|s.vtables|, MakeTable(fields)) && FilledTable(s, fields, offs).Size() < MAX_BUFFER_SIZE
    ensures ScratchRoom(FilledTable(s, fields, offs))
  {
    hide FieldLegal, AddFields;
    AddFieldsScratch(StartTable(s), fields, offs);
  }

  method PerformTable(b: FlatBufferBuilder, fields: seq<FieldOp>, offs: seq<nat>, ghost r: Run) returns (off: nat)
    requires b.Valid() && b.model == r.state && offs == r.offs && Inv(r) && FieldsLegal(fields, |offs|)
    requires FitsScratch(|r.state.vtables|, MakeTable(fields))
    requires CanEndTable(FilledTable(r.state, fields, offs), r.state.Size())
    requires WithVTable(FilledTable(r.state, fields, offs), r.state.Size()).Size() < MAX_BUFFER_SIZE
    modifies b, b.buf, b.buf.buf
    ensures b.Valid() && (b.model, off) == EndTable(FilledTable(r.state, fields, offs), r.state.Size())
    ensures b.buf.buf == old(b.buf.buf) || fresh(b.buf.buf)
  {
    hide FlatBufferBuilder.Valid, ObjectsAt, TablesShareVTables, PoolAt, SharedInPool, VTablesGood, Comparable, FieldLegal;
    hide CanEndTable, WithVTable, EndTable, AddFields, ScratchRoom, Storable;
    EndTableSmaller(FilledTable(r.state, fields, offs), r.state.Size());
    TableReady(r, fields);
    var start := b.BeginTable();
    PerformFields(b, fields, offs);
    off := b.FinishTable(start);
  }

  /** One step of a run, on the object. */
  method Perform(b: FlatBufferBuilder, op: Op, offs: seq<nat>, ghost r: Run) returns (off: nat)
    requires b.Valid() && b.model == r.state && offs == r.offs && Inv(r)
    requires Step(r, op).Some? && FitsScratch(|r.state.vtables|, op)
    modifies b, b.buf, b.buf.buf
    ensures b.Valid() && Step(r, op) == Some(Run(b.model, offs + [off], r.ops + [op]))
    ensures b.buf.buf == old(b.buf.buf) || fresh(b.buf.buf)
  {
    hide FlatBufferBuilder.Valid, ObjectsAt, TablesShareVTables, PoolAt, SharedInPool, VTablesGood, FieldsLegal;
    hide CanEndTable, WithVTable, EndTable, FilledTable, CreateString, CreateSharedString, PoolUsable;
    match op {
      case MakeString(str) => off := b.AddString(str);
      case MakeSharedString(str) => off := b.AddSharedString(str);
      case MakeTable(fields) => off := PerformTable(b, fields, offs, r);
    }
  }

  // ---------- runs ----------

  /** A step remembers at most one more vtable. */
  lemma StepVTables(r: Run, op: Op)
    requires Inv(r) && Step(r, op).Some?
    ensures |Step(r, op).value.state.vtables| <= |r.state.vtables| + 1
  {
    match op {
      case MakeString(b) =>
        hide PaddingBytes, Inv;
      case MakeSharedString(b) =>
        hide PaddingBytes, Inv, PoolUsable, PoolFind;
      case MakeTable(fields) =>
        hide Inv, FilledTable, EndTable, CanEndTable, WithVTable, Open, VTablesGood, Extends, Ready, FieldsLegal, OpenVTable, Reused;
        var filled := FilledTable(r.state, fields, r.offs);
        EndTableSmaller(filled, r.state.Size());
        FilledVTables(r, fields);
        EndTableIs(filled, r.state.Size());
        WithVTableIs(filled, r.state.Size());
    }
  }

  lemma {:induction false} FewVTables(dedup: bool, ops: seq<Op>)
    requires Steps(Start(dedup), ops).Some?
    ensures |Steps(Start(dedup), ops).value.state.vtables| <= |ops|
    decreases |ops|
  {
    hide Inv, Step;
    if ops != [] {
      FewVTables(dedup, ops[..|ops| - 1]);
      RunsKeepInvariant(dedup, ops[..|ops| - 1]);
      StepVTables(Steps(Start(dedup), ops[..|ops| - 1]).value, ops[|ops| - 1]);
    }
  }

  /** Every prefix of a successful run is a successful run. */
  lemma {:induction false} PrefixRuns(dedup: bool, ops: seq<Op>, k: nat)
    requires Steps(Start(dedup), ops).Some? && k <= |ops|
    ensures Steps(Start(dedup), ops[..k]).Some?
    decreases |ops|
  {
    hide Step, Start;
    if k == |ops| {
      assert ops[..k] == ops;
    } else {
      var rest := ops[..|ops| - 1];
      assert rest[..k] == ops[..k];
      PrefixRuns(dedup, rest, k);
    }
  }

  lemma NextStep(dedup: bool, ops: seq<Op>, k: nat)
    requires Steps(Start(dedup), ops).Some? && k < |ops|
    ensures Steps(Start(dedup), ops[..k]).Some? && Steps(Start(dedup), ops[..k + 1]).Some?
    ensures var r := Steps(Start(dedup), ops[..k]).value;
            && Inv(r) && r.ops == ops[..k] && |r.state.vtables| <= k
            && Step(r, ops[k]) == Steps(Start(dedup), ops[..k + 1])
  {
    hide Inv, Step, Start;
    PrefixRuns(dedup, ops, k);
    PrefixRuns(dedup, ops, k + 1);
    RunsKeepInvariant(dedup, ops[..k]);
    FewVTables(dedup, ops[..k]);
    assert ops[..k + 1][..k] == ops[..k];
  }

  /** All steps of a run, on a builder that is new or was cleared. */
  method PerformAll(b: FlatBufferBuilder, ops: seq<Op>) returns (offs: seq<nat>)
    requires b.Valid() && b.model == Start(b.model.dedup).state
    requires Steps(Start(b.model.dedup), ops).Some? && forall i :: 0 <= i < |ops| ==> FitsScratch(|ops|, ops[i])
    modifies b, b.buf, b.buf.buf
    ensures b.Valid() && Steps(Start(old(b.model.dedup)), ops) == Some(Run(b.model, offs, ops))
    ensures b.buf.buf == old(b.buf.buf) || fresh(b.buf.buf)
  {
    hide FlatBufferBuilder.Valid, Inv, Step;
    ghost var start := Start(b.model.dedup);
    offs := [];
    assert ops[..0] == [];
    for k := 0 to |ops|
      invariant b.Valid() && Steps(start, ops[..k]) == Some(Run(b.model, offs, ops[..k]))
      invariant b.buf.buf == old(b.buf.buf) || fresh(b.buf.buf)
    {
      NextStep(start.state.dedup, ops, k);
      var off := Perform(b, ops[k], offs, Steps(start, ops[..k]).value);
      offs := offs + [off];
      assert ops[..k] + [ops[k]] == ops[..k + 1];
    }
    assert ops[..|ops|] == ops;
  }

  /** The buffer a new or cleared builder hands out is exactly the one the theorems about runs speak of. */
  method BuildBuffer(b: FlatBufferBuilder, ops: seq<Op>, root: nat, fileId: Option<seq<byte>>, sizePrefix: bool)
    returns (out: seq<byte>)
    requires b.Valid() && b.model == Start(b.model.dedup).state
    requires Finishable(b.model.dedup, ops, root, fileId, sizePrefix)
    requires forall i :: 0 <= i < |ops| ==> FitsScratch(|ops|, ops[i])
    modifies b, b.buf, b.buf.buf
    ensures b.Valid() && b.model == Finished(old(b.model.dedup), ops, root, fileId, sizePrefix) && out == b.model.data
    ensures b.buf.buf == old(b.buf.buf) || fresh(b.buf.buf)
  {
    hide Steps, Start, Finish;
    var offs := PerformAll(b, ops);
    b.FinishBuffer(offs[root], fileId, sizePrefix);
    FinishedIsFinished(b.model, old(b.model.dedup), ops, root, fileId, sizePrefix);
    out := b.GetBuffer();
  }

  lemma FinishedIsFinished(s: State, dedup: bool, ops: seq<Op>, root: nat, fileId: Option<seq<byte>>, sizePrefix: bool)
    requires Finishable(dedup, ops, root, fileId, sizePrefix) && s == Finished(dedup, ops, root, fileId, sizePrefix)
    ensures s.finished
  {
    hide Steps, Start, PaddingBytes;
  }
}
