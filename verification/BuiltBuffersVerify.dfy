/** The verifier accepts what the builder produces: completeness, including the alignment checks. */
module BuiltBuffersVerify {
  import opened Wrappers
  import opened Bytes
  import opened Alignment
  import opened BuilderModel
  import opened Layout
  import opened BuilderSteps
  import opened TableSteps
  import opened BuilderRuns
  import opened FinishSteps
  import opened TableReader
  import opened TableRoundTrip
  import opened VerifierModel

  // ---------- alignment from the start ----------

  /** The builder aligns from the end; a buffer of aligned size is then aligned from its start, too. */
  lemma AlignedFromStart(size: nat, off: nat, w: nat, minAlign: nat)
    requires Tracked(minAlign) && Tracked(w) && w <= minAlign && off <= size
    requires Aligned(size, minAlign) && Aligned(off, w)
    ensures BitAnd(size - off, w - 1) == 0
  {
    MultipleOfSmaller(size, minAlign, w);
    MaskIsRemainder(size - off, w);
    DifferenceAligned(size, off, w);
    hide BitAnd;
  }

  lemma DifferenceAligned(a: nat, b: nat, s: nat)
    requires s > 0 && b <= a && Aligned(a, s) && Aligned(b, s)
    ensures (a - b) % s == 0
  {
    var i, j := a / s, b / s;
    assert a - b == s * (i - j) by {
      assert s * i - s * j == s * (i - j);
    }
    ModUnique(a - b, s, i - j, 0);
  }

  /** A scalar written by the builder passes the verifier's check. */
  lemma BuiltScalarPasses(buf: Buffer, opts: Options, off: nat, w: nat, minAlign: nat)
    requires Tracked(minAlign) && Tracked(w) && w <= minAlign && Aligned(|buf|, minAlign)
    requires w <= off <= |buf| && w < |buf| && Aligned(off, w)
    ensures VerifyScalar(buf, opts, |buf| - off, w)
  {
    AlignedFromStart(|buf|, off, w, minAlign);
    hide BitAnd, Aligned, VerifyAlignment;
  }

  lemma LoadIsScalar(d: seq<byte>, off: nat, w: nat)
    requires w <= off <= |d|
    ensures InBounds(d, |d| - off, w) && Load(d, |d| - off, w) == Scalar(d, off, w)
  {
  }

  // ---------- strings ----------

  /** A built string passes VerifyString. */
  lemma BuiltStringPasses(buf: Buffer, opts: Options, off: nat, str: seq<byte>, minAlign: nat)
    requires StrAt(buf, off, str) && Tracked(minAlign) && 4 <= minAlign && Aligned(|buf|, minAlign) && |buf| < opts.maxSize
    ensures VerifyString(buf, opts, Some(|buf| - off))
  {
    BuiltScalarPasses(buf, opts, off, 4, minAlign);
    LoadIsScalar(buf, off, 4);
    var end := |buf| - off + 4 + |str|;
    assert buf[end..end + 1] == [0];
    assert FromLE([0]) == 0;
    assert opts.maxSize / 1 == opts.maxSize;
    hide Aligned, VerifyScalar, Scalar, StringData, VerifyAlignment;
  }

  // ---------- tables ----------

  lemma BuiltVTablePasses(buf: Buffer, opts: Options, vt: int, minAlign: nat)
    requires VTableAt(buf, vt) && Tracked(minAlign) && 4 <= minAlign && Aligned(|buf|, minAlign)
    requires Scalar(buf, vt, 2) < |buf|
    ensures VerifyScalar(buf, opts, |buf| - vt, 2)
    ensures var vsize := Load(buf, |buf| - vt, 2);
            VerifyAlignment(opts, vsize, 2) && BitAnd(vsize, 1) == 0 && Verify(buf, |buf| - vt, vsize)
  {
    BuiltScalarPasses(buf, opts, vt, 2, minAlign);
    LoadIsScalar(buf, vt, 2);
    LowBit(Scalar(buf, vt, 2));
    hide BitAnd, Scalar, Aligned;
  }

  /** A built table passes VerifyTableStart. */
  lemma BuiltTableStarts(buf: Buffer, opts: Options, off: nat, m: map<nat, FieldVal>, offs: seq<nat>, minAlign: nat, c: Counters)
    requires TableAt(buf, off, m, offs, minAlign) && Tracked(minAlign) && 4 <= minAlign && Aligned(|buf|, minAlign)
    requires |buf| < TWO_31 && c.depth < opts.maxDepth && c.numTables < opts.maxTables
    ensures VerifyTableStart(buf, opts, |buf| - off, c) == (true, Counters(c.depth + 1, c.numTables + 1))
  {
    var vt := VTableOffset(buf, off);
    assert Scalar(buf, vt, 2) < |buf| && 4 < |buf|;
    hide TableAt;
    BuiltScalarPasses(buf, opts, off, 4, minAlign);
    LoadIsScalar(buf, off, 4);
    BuiltVTablePasses(buf, opts, vt, minAlign);
    hide Aligned, VTableAt, VerifyScalar, Scalar, VerifyAlignment, BitAnd, Verify, Load, Signed32;
  }

  lemma BuiltTableReadable(buf: Buffer, off: nat, m: map<nat, FieldVal>, offs: seq<nat>, minAlign: nat)
    requires TableAt(buf, off, m, offs, minAlign)
    ensures TableReadable(buf, |buf| - off)
    ensures forall id: nat :: id % 2 == 0 ==> FieldOffset(buf, |buf| - off, id) == Slot(buf, VTableOffset(buf, off), id)
  {
    var vt := VTableOffset(buf, off);
    LoadIsScalar(buf, off, 4);
    LoadIsScalar(buf, vt, 2);
    hide TableAt, Scalar, Slot;
    forall id: nat | id % 2 == 0
      ensures FieldOffset(buf, |buf| - off, id) == Slot(buf, vt, id)
    {
      VTableReads(buf, off, id);
    }
  }

  // ---------- fields ----------

  /** A scalar field passes its check. */
  predicate ScalarOk(buf: Buffer, opts: Options, table: nat, id: nat, w: nat) {
    TableReadable(buf, table) && id % 2 == 0 && w > 0 && VerifyFieldScalar(buf, opts, table, id, w)
  }

  /** A pointer field passes its check and leads to `target`. */
  predicate PointerOk(buf: Buffer, opts: Options, table: nat, id: nat, target: Option<nat>) {
    && TableReadable(buf, table) && id % 2 == 0
    && VerifyFieldOffset(buf, opts, table, id) && FieldPointer(buf, opts, table, id) == target
  }

  /** A union's type field passes its check and holds `tag`. */
  predicate TagOk(buf: Buffer, opts: Options, table: nat, typeId: nat, tag: nat) {
    ScalarOk(buf, opts, table, typeId, 1) && UnionTag(buf, opts, table, typeId) == tag
  }

  lemma AbsentPasses(buf: Buffer, opts: Options, off: nat, m: map<nat, FieldVal>, offs: seq<nat>, minAlign: nat, id: nat, w: nat)
    requires TableAt(buf, off, m, offs, minAlign) && FieldId(id) && id !in m && w > 0
    ensures ScalarOk(buf, opts, |buf| - off, id, w) && PointerOk(buf, opts, |buf| - off, id, None)
    ensures TagOk(buf, opts, |buf| - off, id, 0)
  {
    BuiltTableReadable(buf, off, m, offs, minAlign);
    assert FieldOffset(buf, |buf| - off, id) == 0;
    AbsentReads(buf, |buf| - off, id);
    hide NamedFieldAt, VTableAt, TableReadable, FieldOffset, TableAt, GetField;
  }

  lemma AbsentReads(buf: Buffer, table: nat, id: nat)
    requires TableReadable(buf, table) && id % 2 == 0 && FieldOffset(buf, table, id) == 0
    ensures GetField(buf, table, id, 1, 0) == Value(0)
  {
    SlotReadable(buf, table, id);
    hide TableReadable, GetOptionalFieldOffset;
  }

  /** Where the vtable puts a present field, in the two ways of counting. */
  lemma PresentField(buf: Buffer, off: nat, m: map<nat, FieldVal>, offs: seq<nat>, minAlign: nat, id: nat) returns (slot: nat)
    requires TableAt(buf, off, m, offs, minAlign) && id in m
    ensures FieldId(id) && 0 < slot < off <= |buf|
    ensures TableReadable(buf, |buf| - off) && FieldOffset(buf, |buf| - off, id) == slot
    ensures FieldAt(buf, off - slot, m[id], offs, minAlign)
  {
    BuiltTableReadable(buf, off, m, offs, minAlign);
    slot := Slot(buf, VTableOffset(buf, off), id);
    assert NamedFieldAt(buf, off, VTableOffset(buf, off), id, m[id], offs, minAlign);
    hide TableReadable, VTableAt, Slot, Scalar, Aligned, FieldOffset;
  }

  lemma ScalarPasses(buf: Buffer, opts: Options, off: nat, m: map<nat, FieldVal>, offs: seq<nat>, minAlign: nat, id: nat)
    requires TableAt(buf, off, m, offs, minAlign) && Tracked(minAlign) && Aligned(|buf|, minAlign)
    requires id in m && m[id].Val?
    ensures ScalarOk(buf, opts, |buf| - off, id, m[id].width)
    ensures m[id].width == 1 ==> TagOk(buf, opts, |buf| - off, id, m[id].value)
  {
    hide TableAt, TableReadable, Scalar, Aligned, FieldOffset;
    hide VerifyScalar;
    hide GetField, GetPointer;
    var slot := PresentField(buf, off, m, offs, minAlign, id);
    var w, table := m[id].width, |buf| - off;
    BuiltScalarPasses(buf, opts, off - slot, w, minAlign);
    if w == 1 {
      FieldReads(buf, off, m, offs, minAlign, id, 1, 0);
    }
  }

  lemma ReferencePasses(buf: Buffer, opts: Options, off: nat, m: map<nat, FieldVal>, offs: seq<nat>, minAlign: nat, id: nat)
    requires TableAt(buf, off, m, offs, minAlign)
    requires Tracked(minAlign) && 4 <= minAlign && Aligned(|buf|, minAlign) && |buf| < TWO_31
    requires id in m && m[id].Ref?
    ensures m[id].handle < |offs| && offs[m[id].handle] < |buf|
    ensures PointerOk(buf, opts, |buf| - off, id, Some(|buf| - offs[m[id].handle]))
  {
    hide TableAt, TableReadable, FieldOffset;
    hide Scalar, Aligned, VerifyOffset, Load;
    var slot := PresentField(buf, off, m, offs, minAlign, id);
    var at, target := off - slot, offs[m[id].handle];
    BuiltOffsetPasses(buf, opts, at, target, minAlign);
  }

  lemma BuiltOffsetPasses(buf: Buffer, opts: Options, off: nat, target: nat, minAlign: nat)
    requires Tracked(minAlign) && 4 <= minAlign && Aligned(|buf|, minAlign) && |buf| < TWO_31
    requires 4 <= off < |buf| && Aligned(off, 4) && 0 < target < off && Scalar(buf, off, 4) == off - target
    ensures VerifyOffset(buf, opts, |buf| - off) == off - target
    ensures InBounds(buf, |buf| - off, 4) && Load(buf, |buf| - off, 4) == off - target
  {
    BuiltScalarPasses(buf, opts, off, 4, minAlign);
    LoadIsScalar(buf, off, 4);
    hide Scalar, Aligned, VerifyScalar, Load;
  }

  // ---------- one step of the generated Verify ----------

  lemma ScalarStep(buf: Buffer, opts: Options, schemas: Schemas, k: nat, i: nat, table: nat, c: Counters)
    requires k < |schemas| && i < |schemas[k]| && |buf| < TWO_31 && Field(schemas, k, i).kind.ScalarField?
    requires TableReadable(buf, table) && PreviousChecked(buf, opts, schemas, k, i, table)
    requires ScalarOk(buf, opts, table, Field(schemas, k, i).id, Field(schemas, k, i).kind.width)
    ensures PreviousChecked(buf, opts, schemas, k, i + 1, table)
    ensures VerifyFields(buf, opts, schemas, k, i, table, c) == VerifyFields(buf, opts, schemas, k, i + 1, table, c)
  {
    hide TableReadable, VerifyFieldScalar;
  }

  lemma StringStep(buf: Buffer, opts: Options, schemas: Schemas, k: nat, i: nat, table: nat, c: Counters, str: Option<nat>)
    requires k < |schemas| && i < |schemas[k]| && |buf| < TWO_31 && Field(schemas, k, i).kind.StringField?
    requires TableReadable(buf, table) && PreviousChecked(buf, opts, schemas, k, i, table)
    requires PointerOk(buf, opts, table, Field(schemas, k, i).id, str) && VerifyString(buf, opts, str)
    ensures PreviousChecked(buf, opts, schemas, k, i + 1, table)
    ensures VerifyFields(buf, opts, schemas, k, i, table, c) == VerifyFields(buf, opts, schemas, k, i + 1, table, c)
  {
    hide TableReadable, VerifyFieldOffset, FieldPointer, VerifyString;
  }

  lemma UnionStep(buf: Buffer, opts: Options, schemas: Schemas, k: nat, i: nat, table: nat, c: Counters, content: Option<nat>, tag: nat)
    requires k < |schemas| && i < |schemas[k]| && |buf| < TWO_31 && Field(schemas, k, i).kind.UnionField?
    requires TableReadable(buf, table) && PreviousChecked(buf, opts, schemas, k, i, table)
    requires PointerOk(buf, opts, table, Field(schemas, k, i).id, content)
    requires TagOk(buf, opts, table, Field(schemas, k, i).kind.typeId, tag)
    ensures PreviousChecked(buf, opts, schemas, k, i + 1, table)
    ensures VerifyFields(buf, opts, schemas, k, i, table, c) ==
            var cases := Field(schemas, k, i).kind.cases;
            if content.None? || tag !in cases then VerifyFields(buf, opts, schemas, k, i + 1, table, c)
            else
              var (ok, c') := VerifyTable(buf, opts, schemas, cases[tag], content.value, c);
              if ok then VerifyFields(buf, opts, schemas, k, i + 1, table, c') else (false, c')
  {
    hide TableReadable, VerifyFieldOffset, FieldPointer, UnionTag, VerifyTable, VerifyFieldScalar;
  }

  // ---------- tables of a schema ----------

  /** The type of a union: its stored value, or the default NONE. */
  function TagOf(m: map<nat, FieldVal>, typeId: nat): nat {
    if typeId in m && m[typeId].Val? then m[typeId].value else 0
  }

  /** Object h is a table built with the field types of table k, and so are the tables below it. */
  ghost predicate Conforms(ops: seq<Op>, h: nat, schemas: Schemas, k: nat)
    requires k < |schemas|
    decreases h, 1
  {
    && h < |ops| && ops[h].MakeTable?
    && forall i: nat :: i < |schemas[k]| ==> FieldConforms(ops, h, schemas, k, i)
  }

  ghost predicate FieldConforms(ops: seq<Op>, h: nat, schemas: Schemas, k: nat, i: nat)
    requires k < |schemas| && i < |schemas[k]| && h < |ops| && ops[h].MakeTable?
    decreases h, 0
  {
    var f, m := Field(schemas, k, i), ExpectedFields(ops[h].fields);
    f.id in m ==>
      match f.kind
      case ScalarField(w) => m[f.id].Val? && m[f.id].width == w
      case StringField => m[f.id].Ref? && m[f.id].handle < h && !ops[m[f.id].handle].MakeTable?
      case UnionField(typeId, cases) =>
        && m[f.id].Ref? && m[f.id].handle < h
        && (TagOf(m, typeId) in cases ==> Conforms(ops, m[f.id].handle, schemas, cases[TagOf(m, typeId)]))
  }

  /** The table a union field leads the verifier to. */
  function Nested(ops: seq<Op>, h: nat, schemas: Schemas, k: nat, i: nat): (r: Option<(nat, nat)>)
    requires k < |schemas| && i < |schemas[k]| && h < |ops| && ops[h].MakeTable?
    ensures r.Some? ==> r.value.0 < h && ops[r.value.0].MakeTable? && r.value.1 < |schemas|
  {
    var f, m := Field(schemas, k, i), ExpectedFields(ops[h].fields);
    if f.kind.UnionField? && f.id in m && m[f.id].Ref? && m[f.id].handle < h && ops[m[f.id].handle].MakeTable?
       && TagOf(m, f.kind.typeId) in f.kind.cases
    then Some((m[f.id].handle, f.kind.cases[TagOf(m, f.kind.typeId)]))
    else None
  }

  /** How deep the verifier goes, and how many tables it visits, from field i of object h on. */
  function FieldsCost(ops: seq<Op>, h: nat, schemas: Schemas, k: nat, i: nat): Counters
    requires k < |schemas| && i <= |schemas[k]| && h < |ops| && ops[h].MakeTable?
    decreases h, |schemas[k]| - i
  {
    if i == |schemas[k]| then Counters(0, 0)
    else
      var rest := FieldsCost(ops, h, schemas, k, i + 1);
      match Nested(ops, h, schemas, k, i)
      case None => rest
      case Some((child, table)) =>
        var below := TableCost(ops, child, schemas, table);
        Counters(if below.depth > rest.depth then below.depth else rest.depth, rest.numTables + below.numTables)
  }

  function TableCost(ops: seq<Op>, h: nat, schemas: Schemas, k: nat): Counters
    requires k < |schemas| && h < |ops| && ops[h].MakeTable?
    decreases h, |schemas[k]| + 1
  {
    var c := FieldsCost(ops, h, schemas, k, 0);
    Counters(c.depth + 1, c.numTables + 1)
  }

  /** The verifier's limits leave room for tables of this depth and number. */
  predicate Within(opts: Options, c: Counters, cost: Counters) {
    c.depth + cost.depth <= opts.maxDepth && c.numTables + cost.numTables <= opts.maxTables
  }

  /** A finished buffer of a run, and the verifier that is to check it. */
  datatype Job = Job(f: State, offs: seq<nat>, ops: seq<Op>, opts: Options, schemas: Schemas) {
    ghost predicate Valid() {
      Built(f, offs, ops) && f.Size() < TWO_31 && f.Size() < opts.maxSize
    }

    /** Position of object h. */
    function Pos(h: nat): int
      requires h < |offs|
    {
      f.Size() - offs[h]
    }
  }

  /** The verifier is at a table that was built for table k of the schemas. */
  ghost predicate AtTable(j: Job, h: nat, k: nat) {
    && j.Valid() && h < |j.ops| == |j.offs| && j.ops[h].MakeTable?
    && k < |j.schemas| && Conforms(j.ops, h, j.schemas, k)
    && 0 <= j.Pos(h) && TableReadable(j.f.data, j.Pos(h))
    && TableAt(j.f.data, j.offs[h], ExpectedFields(j.ops[h].fields), j.offs, j.f.minAlign)
  }

  lemma ReachTable(j: Job, h: nat, k: nat)
    requires j.Valid() && k < |j.schemas| && Conforms(j.ops, h, j.schemas, k)
    ensures AtTable(j, h, k)
  {
    assert ObjAt(j.f.data, j.offs[h], Expected(j.ops[h]), j.offs, j.f.minAlign);
    BuiltTableReadable(j.f.data, j.offs[h], ExpectedFields(j.ops[h].fields), j.offs, j.f.minAlign);
  }

  lemma AtTableBasics(j: Job, h: nat, k: nat)
    requires AtTable(j, h, k)
    ensures j.Valid() && h < |j.ops| == |j.offs| && j.ops[h].MakeTable? && k < |j.schemas|
    ensures 0 <= j.Pos(h) && TableReadable(j.f.data, j.Pos(h)) && |j.f.data| < TWO_31
  {
    hide TableReadable, TableAt, Conforms, Aligned, ObjAt;
  }

  lemma AtTableConforms(j: Job, h: nat, k: nat, i: nat)
    requires AtTable(j, h, k) && i < |j.schemas[k]|
    ensures FieldConforms(j.ops, h, j.schemas, k, i)
  {
    hide TableReadable, TableAt, FieldConforms, Aligned;
  }

  /** A present field of the table at hand, as it was built. */
  lemma AtTableBuilt(j: Job, h: nat, k: nat)
    requires AtTable(j, h, k)
    ensures TableAt(j.f.data, j.offs[h], ExpectedFields(j.ops[h].fields), j.offs, j.f.minAlign)
    ensures Tracked(j.f.minAlign) && 4 <= j.f.minAlign && Aligned(|j.f.data|, j.f.minAlign) && |j.f.data| < TWO_31
  {
    hide TableReadable, TableAt, Conforms;
  }

  lemma BuiltString(j: Job, h: nat)
    requires j.Valid() && h < |j.ops| && !j.ops[h].MakeTable?
    ensures 0 <= j.Pos(h) && VerifyString(j.f.data, j.opts, Some(j.Pos(h)))
  {
    assert ObjAt(j.f.data, j.offs[h], Expected(j.ops[h]), j.offs, j.f.minAlign);
    hide Aligned, StrAt, VerifyString;
    BuiltStringPasses(j.f.data, j.opts, j.offs[h], j.ops[h].bytes, j.f.minAlign);
  }

  // ---------- each kind of field ----------

  lemma AbsentFieldPasses(j: Job, h: nat, k: nat, id: nat, w: nat)
    requires AtTable(j, h, k) && FieldId(id) && id !in ExpectedFields(j.ops[h].fields) && w > 0
    ensures ScalarOk(j.f.data, j.opts, j.Pos(h), id, w) && PointerOk(j.f.data, j.opts, j.Pos(h), id, None)
    ensures TagOk(j.f.data, j.opts, j.Pos(h), id, 0)
  {
    hide TableAt, AtTable, ScalarOk, PointerOk, TagOk, TableReadable, Aligned;
    AtTableBasics(j, h, k);
    AtTableBuilt(j, h, k);
    AbsentPasses(j.f.data, j.opts, j.offs[h], ExpectedFields(j.ops[h].fields), j.offs, j.f.minAlign, id, w);
  }

  lemma ScalarFieldPasses(j: Job, h: nat, k: nat, id: nat, w: nat)
    requires AtTable(j, h, k) && id in ExpectedFields(j.ops[h].fields)
    requires var v := ExpectedFields(j.ops[h].fields)[id]; v.Val? && v.width == w
    ensures ScalarOk(j.f.data, j.opts, j.Pos(h), id, w)
    ensures w == 1 ==> TagOk(j.f.data, j.opts, j.Pos(h), id, ExpectedFields(j.ops[h].fields)[id].value)
  {
    hide TableAt, AtTable, ScalarOk, TagOk, Aligned;
    AtTableBasics(j, h, k);
    AtTableBuilt(j, h, k);
    ScalarPasses(j.f.data, j.opts, j.offs[h], ExpectedFields(j.ops[h].fields), j.offs, j.f.minAlign, id);
  }

  lemma PointerFieldPasses(j: Job, h: nat, k: nat, id: nat)
    requires AtTable(j, h, k) && id in ExpectedFields(j.ops[h].fields) && ExpectedFields(j.ops[h].fields)[id].Ref?
    ensures var t := ExpectedFields(j.ops[h].fields)[id].handle;
            t < |j.offs| && 0 <= j.Pos(t) && PointerOk(j.f.data, j.opts, j.Pos(h), id, Some(j.Pos(t)))
  {
    hide TableAt, AtTable, PointerOk, Aligned, ExpectedFields, Tracked, TableReadable;
    AtTableBasics(j, h, k);
    var m := ExpectedFields(j.ops[h].fields);
    AtTableBuilt(j, h, k);
    ReferencePasses(j.f.data, j.opts, j.offs[h], m, j.offs, j.f.minAlign, id);
  }

  // ---------- the generated Verify ----------

  /** From field i on the verifier accepts, having visited the nested tables. */
  ghost predicate FieldsAccepted(j: Job, h: nat, k: nat, i: nat, c: Counters) {
    && AtTable(j, h, k) && i <= |j.schemas[k]|
    && PreviousChecked(j.f.data, j.opts, j.schemas, k, i, j.Pos(h))
    && VerifyFields(j.f.data, j.opts, j.schemas, k, i, j.Pos(h), c)
       == (true, c.(numTables := c.numTables + FieldsCost(j.ops, h, j.schemas, k, i).numTables))
  }

  ghost predicate FieldsPending(j: Job, h: nat, k: nat, i: nat, c: Counters) {
    && AtTable(j, h, k) && i <= |j.schemas[k]|
    && PreviousChecked(j.f.data, j.opts, j.schemas, k, i, j.Pos(h))
    && Within(j.opts, c, FieldsCost(j.ops, h, j.schemas, k, i))
  }

  /** A table built with the schema's field types passes the generated Verify, within the verifier's limits. */
  lemma {:induction false} TableVerifies(j: Job, h: nat, k: nat, c: Counters)
    requires j.Valid() && k < |j.schemas| && Conforms(j.ops, h, j.schemas, k)
    requires Within(j.opts, c, TableCost(j.ops, h, j.schemas, k))
    ensures |j.ops| == |j.offs| && 0 <= j.Pos(h)
    ensures VerifyTable(j.f.data, j.opts, j.schemas, k, j.Pos(h), c)
            == (true, c.(numTables := c.numTables + TableCost(j.ops, h, j.schemas, k).numTables))
    decreases h, |j.schemas[k]| + 1
  {
    hide TableAt, Aligned, TableReadable, Conforms, Job.Valid;
    hide AtTable, VerifyTableStart, VerifyFields, FieldsCost;
    ReachTable(j, h, k);
    AtTableBasics(j, h, k);
    AtTableBuilt(j, h, k);
    BuiltTableStarts(j.f.data, j.opts, j.offs[h], ExpectedFields(j.ops[h].fields), j.offs, j.f.minAlign, c);
    FieldsVerify(j, h, k, 0, Counters(c.depth + 1, c.numTables + 1));
  }

  lemma {:induction false} FieldsVerify(j: Job, h: nat, k: nat, i: nat, c: Counters)
    requires FieldsPending(j, h, k, i, c)
    ensures FieldsAccepted(j, h, k, i, c)
    decreases h, |j.schemas[k]| - i, 1
  {
    if i < |j.schemas[k]| {
      hide FieldsPending, FieldsAccepted, AtTable;
      if Field(j.schemas, k, i).kind.ScalarField? {
        ScalarVerifies(j, h, k, i, c);
      } else if Field(j.schemas, k, i).kind.StringField? {
        StringVerifies(j, h, k, i, c);
      } else {
        UnionVerifies(j, h, k, i, c);
      }
    } else {
      hide AtTable, PreviousChecked;
    }
  }

  lemma {:induction false} ScalarVerifies(j: Job, h: nat, k: nat, i: nat, c: Counters)
    requires FieldsPending(j, h, k, i, c) && i < |j.schemas[k]| && Field(j.schemas, k, i).kind.ScalarField?
    ensures FieldsAccepted(j, h, k, i, c)
    decreases h, |j.schemas[k]| - i, 0
  {
    hide AtTable, PreviousChecked, VerifyFields, ScalarOk, PointerOk, TagOk, TableReadable, Job.Valid;
    AtTableBasics(j, h, k);
    var f := Field(j.schemas, k, i);
    AtTableConforms(j, h, k, i);
    if f.id in ExpectedFields(j.ops[h].fields) {
      ScalarFieldPasses(j, h, k, f.id, f.kind.width);
    } else {
      AbsentFieldPasses(j, h, k, f.id, f.kind.width);
    }
    ScalarStep(j.f.data, j.opts, j.schemas, k, i, j.Pos(h), c);
    FieldsVerify(j, h, k, i + 1, c);
  }

  lemma {:induction false} StringVerifies(j: Job, h: nat, k: nat, i: nat, c: Counters)
    requires FieldsPending(j, h, k, i, c) && i < |j.schemas[k]| && Field(j.schemas, k, i).kind.StringField?
    ensures FieldsAccepted(j, h, k, i, c)
    decreases h, |j.schemas[k]| - i, 0
  {
    hide AtTable, PreviousChecked, VerifyFields, PointerOk, TableReadable, VerifyString, Job.Valid, TableCost, VerifyTable, Conforms;
    hide ExpectedFields;
    AtTableBasics(j, h, k);
    var str := StringFieldFound(j, h, k, i);
    StringStep(j.f.data, j.opts, j.schemas, k, i, j.Pos(h), c, str);
    FieldsVerify(j, h, k, i + 1, c);
  }

  lemma StringFieldFound(j: Job, h: nat, k: nat, i: nat) returns (str: Option<nat>)
    requires AtTable(j, h, k) && i < |j.schemas[k]| && Field(j.schemas, k, i).kind.StringField?
    ensures PointerOk(j.f.data, j.opts, j.Pos(h), Field(j.schemas, k, i).id, str) && VerifyString(j.f.data, j.opts, str)
  {
    var f, m := Field(j.schemas, k, i), ExpectedFields(j.ops[h].fields);
    AtTableConforms(j, h, k, i);
    if f.id in m {
      assert j.Valid();
      hide AtTable, PointerOk, VerifyString, Job.Valid, ScalarOk, TagOk;
      PointerFieldPasses(j, h, k, f.id);
      BuiltString(j, m[f.id].handle);
      str := Some(j.Pos(m[f.id].handle));
    } else {
      hide AtTable, PointerOk, ScalarOk, TagOk;
      AbsentFieldPasses(j, h, k, f.id, 1);
      str := None;
    }
  }

  lemma {:induction false} UnionVerifies(j: Job, h: nat, k: nat, i: nat, c: Counters)
    requires FieldsPending(j, h, k, i, c) && i < |j.schemas[k]| && Field(j.schemas, k, i).kind.UnionField?
    ensures FieldsAccepted(j, h, k, i, c)
    decreases h, |j.schemas[k]| - i, 0
  {
    hide AtTable, PreviousChecked, VerifyFields, PointerOk, TagOk, TableReadable, Job.Valid, Nested, TableCost, VerifyTable, Conforms;
    hide ExpectedFields, TagOf;
    AtTableBasics(j, h, k);
    var tag := UnionTagFound(j, h, k, i);
    var content := UnionContentFound(j, h, k, i);
    UnionStep(j.f.data, j.opts, j.schemas, k, i, j.Pos(h), c, content, tag);
    var nested := Nested(j.ops, h, j.schemas, k, i);
    var c' := c;
    if nested.Some? {
      TableVerifies(j, nested.value.0, nested.value.1, c);
      c' := c.(numTables := c.numTables + TableCost(j.ops, nested.value.0, j.schemas, nested.value.1).numTables);
    }
    FieldsVerify(j, h, k, i + 1, c');
  }

  /** A union's type is stored as a byte, if at all. */
  lemma TagKind(j: Job, h: nat, k: nat, i: nat)
    requires AtTable(j, h, k) && i < |j.schemas[k]| && Field(j.schemas, k, i).kind.UnionField?
    ensures var m, typeId := ExpectedFields(j.ops[h].fields), Field(j.schemas, k, i).kind.typeId;
            && FieldId(typeId)
            && (typeId in m ==> m[typeId].Val? && m[typeId].width == 1 && TagOf(m, typeId) == m[typeId].value)
            && (typeId !in m ==> TagOf(m, typeId) == 0)
  {
    hide AtTable, ExpectedFields, TableReadable, Job.Valid, Conforms;
    AtTableBasics(j, h, k);
    TagPrecedes(j.schemas, k, i);
    AtTableConforms(j, h, k, i - 1);
  }

  /** The verifier finds the union's type as it was built. */
  lemma UnionTagFound(j: Job, h: nat, k: nat, i: nat) returns (tag: nat)
    requires AtTable(j, h, k) && i < |j.schemas[k]| && Field(j.schemas, k, i).kind.UnionField?
    ensures tag == TagOf(ExpectedFields(j.ops[h].fields), Field(j.schemas, k, i).kind.typeId)
    ensures TagOk(j.f.data, j.opts, j.Pos(h), Field(j.schemas, k, i).kind.typeId, tag)
  {
    hide AtTable, PointerOk, ScalarOk, TagOk, ExpectedFields, TableReadable, Job.Valid, Conforms, Field, FieldConforms, TagOf;
    AtTableBasics(j, h, k);
    var m, typeId := ExpectedFields(j.ops[h].fields), Field(j.schemas, k, i).kind.typeId;
    TagKind(j, h, k, i);
    tag := TagOf(m, typeId);
    if typeId in m {
      ScalarFieldPasses(j, h, k, typeId, 1);
    } else {
      AbsentFieldPasses(j, h, k, typeId, 1);
    }
  }

  /** The verifier finds the union's content as it was built. */
  lemma UnionContentFound(j: Job, h: nat, k: nat, i: nat) returns (content: Option<nat>)
    requires AtTable(j, h, k) && i < |j.schemas[k]| && Field(j.schemas, k, i).kind.UnionField?
    ensures PointerOk(j.f.data, j.opts, j.Pos(h), Field(j.schemas, k, i).id, content)
    ensures var f, tag := Field(j.schemas, k, i), TagOf(ExpectedFields(j.ops[h].fields), Field(j.schemas, k, i).kind.typeId);
            match Nested(j.ops, h, j.schemas, k, i)
            case None => content.None? || tag !in f.kind.cases
            case Some((child, t)) =>
              && child < |j.offs| && 0 <= j.Pos(child) && content == Some(j.Pos(child)) && Conforms(j.ops, child, j.schemas, t)
              && tag in f.kind.cases && f.kind.cases[tag] == t
  {
    var f, m := Field(j.schemas, k, i), ExpectedFields(j.ops[h].fields);
    AtTableBasics(j, h, k);
    AtTableConforms(j, h, k, i);
    hide AtTable, PointerOk, ScalarOk, TagOk, TableReadable;
    if f.id in m {
      PointerFieldPasses(j, h, k, f.id);
      content := Some(j.Pos(m[f.id].handle));
    } else {
      AbsentFieldPasses(j, h, k, f.id, 1);
      content := None;
    }
  }

  // ---------- whole buffers ----------

  /** The header that Finish writes passes the verifier's own checks and leads to the root. */
  lemma HeaderPasses(s: State, root: nat, fileId: Option<seq<byte>>, sizePrefix: bool, f: State, opts: Options)
    requires FinishedOn(s, root, fileId, sizePrefix, f) && f.Size() < TWO_31 && 0 < root && 8 <= s.Size()
    ensures var start := Prefix(sizePrefix);
            && MIN_BUFFER_SIZE <= f.Size() && InBounds(f.data, start, 4 + |IdBytes(fileId)|)
            && HasIdentifier(f.data, start, IdBytes(fileId))
            && VerifyOffset(f.data, opts, start) == f.Size() - start - root
  {
    hide Aligned, Extends, Scalar, IdBytes, Load;
    var start := Prefix(sizePrefix);
    var p := f.Size() - start;
    LoadIsScalar(f.data, p, 4);
    SmallStartAligned(opts, start);
    assert Load(f.data, start, 4) == p - root;
    hide BitAnd, VerifyAlignment;
  }

  lemma SmallStartAligned(opts: Options, start: nat)
    requires start == 0 || start == 4
    ensures VerifyAlignment(opts, start, 4)
  {
    MaskIsRemainder(start, 4);
  }

  lemma PrefixPasses(s: State, root: nat, fileId: Option<seq<byte>>, f: State, opts: Options)
    requires FinishedOn(s, root, fileId, true, f) && f.Size() < TWO_31 && 8 <= s.Size()
    ensures VerifyScalar(f.data, opts, 0, 4) && Load(f.data, 0, 4) + 4 == f.Size()
  {
    hide Aligned, Extends, Scalar, IdBytes, Load;
    LoadIsScalar(f.data, f.Size(), 4);
    SmallStartAligned(opts, 0);
    hide BitAnd, VerifyAlignment;
  }

  lemma TableTakesEight(d: seq<byte>, off: nat, m: map<nat, FieldVal>, offs: seq<nat>, minAlign: nat)
    requires TableAt(d, off, m, offs, minAlign)
    ensures 8 <= |d|
  {
    hide NamedFieldAt, Slot, Aligned;
  }

  lemma RunHasEight(r: Run, h: nat)
    requires Inv(r) && h < |r.ops| && r.ops[h].MakeTable?
    ensures |r.offs| == |r.ops| && 8 <= r.state.Size() && 0 < r.offs[h] <= r.state.Size()
    ensures Tracked(r.state.minAlign) && 4 <= r.state.minAlign
  {
    hide TablesShareVTables, VTablesGood, PoolAt, SharedInPool, TableAt;
    assert r.offs[h] in r.offs;
    assert ObjAt(r.state.data, r.offs[h], Expected(r.ops[h]), r.offs, r.state.minAlign);
    TableTakesEight(r.state.data, r.offs[h], ExpectedFields(r.ops[h].fields), r.offs, r.state.minAlign);
  }

  /** Once the header is accepted, the verdict on the buffer is the verdict on the root table. */
  lemma VerifyBufferIsVerifyTable(s: State, root: nat, fileId: Option<seq<byte>>, sizePrefix: bool, f: State,
                                  opts: Options, schemas: Schemas, k: nat)
    requires FinishedOn(s, root, fileId, sizePrefix, f) && f.Size() < TWO_31 && 0 < root && 8 <= s.Size() && root < f.Size()
    requires k < |schemas| && (fileId.Some? ==> |fileId.value| == FILE_IDENTIFIER_LENGTH)
    ensures VerifyBuffer(f.data, opts, schemas, k, fileId, sizePrefix)
            == VerifyTable(f.data, opts, schemas, k, f.Size() - root, Counters(0, 0)).0
  {
    HeaderPasses(s, root, fileId, sizePrefix, f, opts);
    if sizePrefix {
      PrefixPasses(s, root, fileId, f, opts);
    }
    hide FinishedOn, VerifyTable, VerifyOffset, VerifyScalar, Load, HasIdentifier;
  }

  /**
   Every buffer built with a schema's field types and finished on the schema's root is accepted by the
   verifier generated for that schema, up to its limits on size, depth and number of tables.
   */
  lemma BuiltBufferVerifies(dedup: bool, ops: seq<Op>, root: nat, fileId: Option<seq<byte>>, sizePrefix: bool,
                            opts: Options, schemas: Schemas, k: nat)
    requires Finishable(dedup, ops, root, fileId, sizePrefix)
    requires k < |schemas| && Conforms(ops, root, schemas, k) && Within(opts, Counters(0, 0), TableCost(ops, root, schemas, k))
    requires Finished(dedup, ops, root, fileId, sizePrefix).Size() < opts.maxSize
    ensures VerifyBuffer(Finished(dedup, ops, root, fileId, sizePrefix).data, opts, schemas, k, fileId, sizePrefix)
  {
    hide Steps, Start, Finish, Inv, Built, VerifyBuffer, VerifyTable, FinishedOn, TableCost;
    assert ops[root].MakeTable?;
    hide Conforms;
    var f, offs := Finished(dedup, ops, root, fileId, sizePrefix), Offsets(dedup, ops);
    ObjectsInFinished(dedup, ops, root, fileId, sizePrefix);
    TableVerifies(Job(f, offs, ops, opts, schemas), root, k, Counters(0, 0));
    RunsKeepInvariant(dedup, ops);
    var r := Steps(Start(dedup), ops).value;
    RunHasEight(r, root);
    FinishLands(r.state, offs[root], fileId, sizePrefix);
    FinishedLonger(r.state, offs[root], fileId, sizePrefix, f);
    VerifyBufferIsVerifyTable(r.state, offs[root], fileId, sizePrefix, f, opts, schemas, k);
  }

  lemma FinishedLonger(s: State, root: nat, fileId: Option<seq<byte>>, sizePrefix: bool, f: State)
    requires FinishedOn(s, root, fileId, sizePrefix, f)
    ensures root < f.Size()
  {
    hide Aligned, Extends, Scalar, IdBytes;
  }
}
