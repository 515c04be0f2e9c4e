/**
 The FlatBuffers verifier and the Verify functions generated for tables, on arbitrary bytes.
 The verifier's own reads are Loads, which have to be inside the buffer.
 */
module VerifierModel {
  import opened Wrappers
  import opened Bytes
  import opened Alignment
  import opened BuilderModel
  import opened TableReader

  const MIN_BUFFER_SIZE := 12

  datatype Options = Options(maxDepth: nat, maxTables: nat, checkAlignment: bool, maxSize: nat)

  const DEFAULT_OPTIONS := Options(64, 1000000, true, MAX_BUFFER_SIZE)

  /** depth_ and num_tables_. */
  datatype Counters = Counters(depth: nat, numTables: nat)

  /** What the generated Verify does for a field. */
  datatype FieldKind =
    | ScalarField(width: nat)
    | StringField
    | UnionField(typeId: nat, cases: map<nat, nat>)

  datatype FieldDecl = FieldDecl(id: nat, kind: FieldKind)

  /** The tables of a schema; a union case names its table by number, so schemas may be recursive. */
  type Schemas = s: seq<seq<FieldDecl>> | SchemasOk(s)

  predicate KindOk(kind: FieldKind, tables: nat) {
    match kind
    case ScalarField(w) => ScalarWidth(w)
    case StringField => true
    case UnionField(typeId, cases) => FieldId(typeId) && forall t <- cases :: cases[t] < tables
  }

  /** Even field identifiers; and the generated code verifies a union's type right before the union. */
  predicate FieldOk(s: seq<seq<FieldDecl>>, k: nat, i: nat)
    requires k < |s| && i < |s[k]|
  {
    var f := s[k][i];
    && FieldId(f.id) && KindOk(f.kind, |s|)
    && (f.kind.UnionField? ==> i > 0 && s[k][i - 1] == FieldDecl(f.kind.typeId, ScalarField(1)))
  }

  predicate SchemasOk(s: seq<seq<FieldDecl>>) {
    forall k: nat, i: nat :: k < |s| && i < |s[k]| ==> FieldOk(s, k, i)
  }

  /** Field number i of table k. */
  function Field(schemas: Schemas, k: nat, i: nat): (f: FieldDecl)
    requires k < |schemas| && i < |schemas[k]|
    ensures FieldOk(schemas, k, i)
  {
    assert FieldOk(schemas, k, i);
    schemas[k][i]
  }

  /** Any range within the buffer. */
  predicate Verify(buf: Buffer, elem: nat, len: nat) {
    len < |buf| && elem <= |buf| - len
  }

  predicate VerifyAlignment(opts: Options, elem: nat, align: nat)
    requires align > 0
  {
    BitAnd(elem, align - 1) == 0 || !opts.checkAlignment
  }

  predicate VerifyScalar(buf: Buffer, opts: Options, elem: nat, w: nat)
    requires w > 0
  {
    VerifyAlignment(opts, elem, w) && Verify(buf, elem, w)
  }

  /** The length and the body of a vector or string; also returns where it ends. */
  function VerifyVectorOrString(buf: Buffer, opts: Options, vec: nat, elemSize: nat): (bool, nat)
    requires elemSize > 0
  {
    if !VerifyScalar(buf, opts, vec, 4) then (false, 0)
    else
      var size := Load(buf, vec, 4);
      if !(size < opts.maxSize / elemSize) then (false, 0)
      else
        var byteSize := 4 + elemSize * size;
        (Verify(buf, vec, byteSize), vec + byteSize)
  }

  /** A pointer (may be null) to a string: the body is in bounds and a NUL follows it. */
  predicate VerifyString(buf: Buffer, opts: Options, str: Option<nat>) {
    match str
    case None => true
    case Some(pos) =>
      var (ok, end) := VerifyVectorOrString(buf, opts, pos, 1);
      ok && Verify(buf, end, 1) && Load(buf, end, 1) == 0
  }

  /** The checked relative offset stored at `start`, or 0 when it is not acceptable. */
  function VerifyOffset(buf: Buffer, opts: Options, start: nat): (o: nat)
    ensures o != 0 ==> InBounds(buf, start, 4) && o == Load(buf, start, 4) && start + o < |buf|
  {
    if !VerifyScalar(buf, opts, start, 4) then 0
    else
      var o := Load(buf, start, 4);
      if o == 0 || Signed32(o) < 0 || !Verify(buf, start + o, 1) then 0 else o
  }

  function VerifyComplexity(opts: Options, c: Counters): (bool, Counters) {
    var c' := Counters(c.depth + 1, c.numTables + 1);
    (c'.depth <= opts.maxDepth && c'.numTables <= opts.maxTables, c')
  }

  /** Every even slot of the table's vtable, used or not, can be looked up. */
  predicate TableReadable(buf: Buffer, table: nat) {
    && InBounds(buf, table, 4)
    && var vtable := table - Signed32(Load(buf, table, 4));
       && InBounds(buf, vtable, 2)
       && Load(buf, vtable, 2) % 2 == 0
       && InBounds(buf, vtable, Load(buf, vtable, 2))
  }

  /** The vtable offset, then the whole vtable. */
  function VerifyTableStart(buf: Buffer, opts: Options, table: nat, c: Counters): (bool, Counters) {
    if !VerifyScalar(buf, opts, table, 4) then (false, c)
    else
      var vtable := Wrap64(table - Signed32(Load(buf, table, 4)));
      var (simple, c') := VerifyComplexity(opts, c);
      if !simple || !VerifyScalar(buf, opts, vtable, 2) then (false, c')
      else
        var vsize := Load(buf, vtable, 2);
        (VerifyAlignment(opts, vsize, 2) && BitAnd(vsize, 1) == 0 && Verify(buf, vtable, vsize), c')
  }

  lemma LowBit(x: nat)
    ensures BitAnd(x, 1) == x % 2
  {
    MaskIsRemainder(x, 2);
  }

  /** What the accessors rely on is what VerifyTableStart checks, whatever the bytes. */
  lemma TableStartReadable(buf: Buffer, opts: Options, table: nat, c: Counters)
    requires |buf| < TWO_31 && VerifyTableStart(buf, opts, table, c).0
    ensures TableReadable(buf, table)
    ensures VerifyTableStart(buf, opts, table, c).1 == Counters(c.depth + 1, c.numTables + 1)
  {
    hide FromLE, BitAnd;
    var o := Load(buf, table, 4);
    SignedBound(buf, table);
    var vtable := Wrap64(table - Signed32(o));
    LowBit(Load(buf, vtable, 2));
  }

  lemma SignedBound(buf: Buffer, pos: int)
    requires InBounds(buf, pos, 4)
    ensures -TWO_31 <= Signed32(Load(buf, pos, 4)) < TWO_31
  {
    FromLEBound(buf[pos..pos + 4]);
    Pow256Values();
  }

  lemma SlotReadable(buf: Buffer, table: nat, id: nat)
    requires TableReadable(buf, table) && id % 2 == 0
    ensures GetOptionalFieldOffset(buf, table, id).Value?
  {
    hide FromLE;
  }

  /** GetOptionalFieldOffset where the vtable has been verified. */
  function FieldOffset(buf: Buffer, table: nat, id: nat): nat
    requires TableReadable(buf, table) && id % 2 == 0
  {
    SlotReadable(buf, table, id);
    GetOptionalFieldOffset(buf, table, id).value
  }

  predicate VerifyFieldScalar(buf: Buffer, opts: Options, table: nat, id: nat, w: nat)
    requires TableReadable(buf, table) && id % 2 == 0 && w > 0
  {
    FieldOffset(buf, table, id) == 0 || VerifyScalar(buf, opts, table + FieldOffset(buf, table, id), w)
  }

  predicate VerifyFieldOffset(buf: Buffer, opts: Options, table: nat, id: nat)
    requires TableReadable(buf, table) && id % 2 == 0
  {
    FieldOffset(buf, table, id) == 0 || VerifyOffset(buf, opts, table + FieldOffset(buf, table, id)) != 0
  }

  /** GetPointer after VerifyFieldOffset. */
  function FieldPointer(buf: Buffer, opts: Options, table: nat, id: nat): (p: Option<nat>)
    requires TableReadable(buf, table) && id % 2 == 0 && VerifyFieldOffset(buf, opts, table, id)
    ensures p.Some? ==> table < p.value < |buf|
  {
    var off := FieldOffset(buf, table, id);
    if off == 0 then None else Some(table + off + Load(buf, table + off, 4))
  }

  lemma TagPrecedes(schemas: Schemas, k: nat, i: nat)
    requires k < |schemas| && i < |schemas[k]| && Field(schemas, k, i).kind.UnionField?
    ensures i > 0 && Field(schemas, k, i - 1) == FieldDecl(Field(schemas, k, i).kind.typeId, ScalarField(1))
  {
  }

  /** A scalar that passed its check can be read. */
  lemma ScalarReadable(buf: Buffer, opts: Options, table: nat, id: nat, w: nat, def: nat)
    requires TableReadable(buf, table) && id % 2 == 0 && w > 0 && VerifyFieldScalar(buf, opts, table, id, w)
    ensures GetField(buf, table, id, w, def).Value?
  {
    SlotReadable(buf, table, id);
    hide TableReadable, BitAnd, GetOptionalFieldOffset, FromLE;
  }

  /** The type of a union whose type field has been verified. */
  function UnionTag(buf: Buffer, opts: Options, table: nat, typeId: nat): nat
    requires TableReadable(buf, table) && typeId % 2 == 0 && VerifyFieldScalar(buf, opts, table, typeId, 1)
  {
    ScalarReadable(buf, opts, table, typeId, 1, 0);
    GetField(buf, table, typeId, 1, 0).value
  }

  /** The field before number i passed its check, if it is a scalar. */
  predicate PreviousChecked(buf: Buffer, opts: Options, schemas: Schemas, k: nat, i: nat, table: nat)
    requires k < |schemas| && i <= |schemas[k]| && TableReadable(buf, table)
  {
    i > 0 && Field(schemas, k, i - 1).kind.ScalarField? ==>
      VerifyFieldScalar(buf, opts, table, Field(schemas, k, i - 1).id, Field(schemas, k, i - 1).kind.width)
  }

  /** The Verify function generated for table k. */
  function VerifyTable(buf: Buffer, opts: Options, schemas: Schemas, k: nat, table: nat, c: Counters): (r: (bool, Counters))
    requires k < |schemas| && |buf| < TWO_31
    ensures r.0 ==> r.1.depth == c.depth
    decreases if table <= |buf| then |buf| - table else 0, |schemas[k]| + 1
  {
    var (started, c1) := VerifyTableStart(buf, opts, table, c);
    if !started then (false, c1)
    else
      TableStartReadable(buf, opts, table, c);
      var (ok, c2) := VerifyFields(buf, opts, schemas, k, 0, table, c1);
      if ok then (true, c2.(depth := c2.depth - 1)) else (false, c2)
  }

  /** The fields of table k from number i on, in the order of the generated code. */
  function VerifyFields(buf: Buffer, opts: Options, schemas: Schemas, k: nat, i: nat, table: nat, c: Counters): (r: (bool, Counters))
    requires k < |schemas| && i <= |schemas[k]| && |buf| < TWO_31
    requires TableReadable(buf, table) && PreviousChecked(buf, opts, schemas, k, i, table)
    ensures r.0 ==> r.1.depth == c.depth
    decreases if table <= |buf| then |buf| - table else 0, |schemas[k]| - i
  {
    hide VerifyString, FieldPointer, TableReadable, VerifyOffset, UnionTag;
    if i == |schemas[k]| then (true, c)
    else
      var f := Field(schemas, k, i);
      match f.kind
      case ScalarField(w) =>
        if VerifyFieldScalar(buf, opts, table, f.id, w) then VerifyFields(buf, opts, schemas, k, i + 1, table, c)
        else (false, c)
      case StringField =>
        if VerifyFieldOffset(buf, opts, table, f.id) && VerifyString(buf, opts, FieldPointer(buf, opts, table, f.id))
        then VerifyFields(buf, opts, schemas, k, i + 1, table, c)
        else (false, c)
      case UnionField(typeId, cases) =>
        if !VerifyFieldOffset(buf, opts, table, f.id) then (false, c)
        else
          var content := FieldPointer(buf, opts, table, f.id);
          TagPrecedes(schemas, k, i);
          var tag := UnionTag(buf, opts, table, typeId);
          if content.None? || tag !in cases then VerifyFields(buf, opts, schemas, k, i + 1, table, c)
          else
            var (ok, c') := VerifyTable(buf, opts, schemas, cases[tag], content.value, c);
            if ok then VerifyFields(buf, opts, schemas, k, i + 1, table, c') else (false, c')
  }

  /** BufferHasIdentifier for an identifier of the asserted length. */
  predicate HasIdentifier(buf: Buffer, start: nat, id: seq<byte>)
    requires InBounds(buf, start, 4 + |id|)
  {
    buf[start + 4..start + 4 + |id|] == id
  }

  /** VerifyBufferFromStart; `start` is the size of the prefix. */
  function VerifyBufferFromStart(buf: Buffer, opts: Options, schemas: Schemas, k: nat, id: Option<seq<byte>>, start: nat): (bool, Counters)
    requires k < |schemas| && |buf| < TWO_31 && start <= 4
    requires id.Some? ==> |id.value| == FILE_IDENTIFIER_LENGTH
  {
    var c := Counters(0, 0);
    if |buf| < MIN_BUFFER_SIZE || (id.Some? && !HasIdentifier(buf, start, id.value)) then (false, c)
    else
      var o := VerifyOffset(buf, opts, start);
      if o == 0 then (false, c) else VerifyTable(buf, opts, schemas, k, start + o, c)
  }

  /** VerifyBuffer, or VerifySizePrefixedBuffer when the buffer starts with its size. */
  predicate VerifyBuffer(buf: Buffer, opts: Options, schemas: Schemas, k: nat, id: Option<seq<byte>>, sizePrefix: bool)
    requires k < |schemas| && |buf| < TWO_31
    requires id.Some? ==> |id.value| == FILE_IDENTIFIER_LENGTH
  {
    if sizePrefix then
      && VerifyScalar(buf, opts, 0, 4)
      && Load(buf, 0, 4) + 4 <= |buf|
      && VerifyBufferFromStart(buf, opts, schemas, k, id, 4).0
    else VerifyBufferFromStart(buf, opts, schemas, k, id, 0).0
  }

  // ---------- soundness ----------

  /** Every accessor generated for table k, on this table and on the tables below it, stays in the buffer. */
  ghost predicate Safe(buf: Buffer, schemas: Schemas, k: nat, table: nat)
    requires k < |schemas|
    decreases if table <= |buf| then |buf| - table else 0, 1
  {
    && (forall id: nat :: id % 2 == 0 ==> GetOptionalFieldOffset(buf, table, id).Value?)
    && forall i :: 0 <= i < |schemas[k]| ==> SafeField(buf, schemas, k, i, table)
  }

  ghost predicate SafeField(buf: Buffer, schemas: Schemas, k: nat, i: nat, table: nat)
    requires k < |schemas| && i < |schemas[k]|
    decreases if table <= |buf| then |buf| - table else 0, 0
  {
    var f := Field(schemas, k, i);
    match f.kind
    case ScalarField(w) => forall def: nat :: GetField(buf, table, f.id, w, def).Value?
    case StringField =>
      var p := GetPointer(buf, table, f.id);
      p.Value? && (p.value.Some? ==>
        GetString(buf, p.value.value).Value? && GetTerminator(buf, p.value.value) == Value(0))
    case UnionField(typeId, cases) =>
      var p := GetPointer(buf, table, f.id);
      var tag := GetField(buf, table, typeId, 1, 0);
      && p.Value? && tag.Value?
      && (p.value.Some? && tag.value in cases ==>
            table < p.value.value <= |buf| && Safe(buf, schemas, cases[tag.value], p.value.value))
  }

  lemma PointerReadable(buf: Buffer, opts: Options, table: nat, id: nat)
    requires TableReadable(buf, table) && id % 2 == 0 && VerifyFieldOffset(buf, opts, table, id)
    ensures var p := FieldPointer(buf, opts, table, id);
            GetPointer(buf, table, id) == Value(if p.None? then None else Some(p.value))
  {
    SlotReadable(buf, table, id);
    hide TableReadable, BitAnd, GetOptionalFieldOffset, FromLE;
  }

  lemma StringReadable(buf: Buffer, opts: Options, pos: nat)
    requires VerifyString(buf, opts, Some(pos))
    ensures GetString(buf, pos).Value? && GetTerminator(buf, pos) == Value(0)
  {
    hide BitAnd, FromLE;
  }

  /** For arbitrary bytes: once the verifier accepts a table, no accessor of it can leave the buffer. */
  lemma {:induction false} TableSound(buf: Buffer, opts: Options, schemas: Schemas, k: nat, table: nat, c: Counters)
    requires k < |schemas| && |buf| < TWO_31 && VerifyTable(buf, opts, schemas, k, table, c).0
    ensures Safe(buf, schemas, k, table)
    decreases if table <= |buf| then |buf| - table else 0, |schemas[k]| + 1
  {
    var c1 := VerifyTableStart(buf, opts, table, c).1;
    TableStartReadable(buf, opts, table, c);
    FieldsSound(buf, opts, schemas, k, 0, table, c1);
    hide TableReadable, GetOptionalFieldOffset, SafeField, VerifyTableStart, VerifyFields;
    forall id: nat | id % 2 == 0
      ensures GetOptionalFieldOffset(buf, table, id).Value?
    {
      SlotReadable(buf, table, id);
    }
  }

  lemma {:induction false} FieldsSound(buf: Buffer, opts: Options, schemas: Schemas, k: nat, i: nat, table: nat, c: Counters)
    requires k < |schemas| && i <= |schemas[k]| && |buf| < TWO_31
    requires TableReadable(buf, table) && PreviousChecked(buf, opts, schemas, k, i, table)
    requires VerifyFields(buf, opts, schemas, k, i, table, c).0
    ensures forall j :: i <= j < |schemas[k]| ==> SafeField(buf, schemas, k, j, table)
    decreases if table <= |buf| then |buf| - table else 0, |schemas[k]| - i
  {
    if i < |schemas[k]| {
      var f := Field(schemas, k, i);
      hide TableReadable, VerifyFieldScalar, VerifyFieldOffset, VerifyString, GetField, GetPointer, GetString, GetTerminator;
      hide FieldPointer, UnionTag, VerifyTable;
      match f.kind {
        case ScalarField(w) =>
          forall def: nat ensures GetField(buf, table, f.id, w, def).Value? {
            ScalarReadable(buf, opts, table, f.id, w, def);
          }
          FieldsSound(buf, opts, schemas, k, i + 1, table, c);
        case StringField =>
          PointerReadable(buf, opts, table, f.id);
          var p := FieldPointer(buf, opts, table, f.id);
          if p.Some? {
            StringReadable(buf, opts, p.value);
          }
          FieldsSound(buf, opts, schemas, k, i + 1, table, c);
        case UnionField(typeId, cases) =>
          UnionSound(buf, opts, schemas, k, i, table, c);
      }
    }
  }

  lemma {:induction false} UnionSound(buf: Buffer, opts: Options, schemas: Schemas, k: nat, i: nat, table: nat, c: Counters)
    requires k < |schemas| && i < |schemas[k]| && |buf| < TWO_31 && Field(schemas, k, i).kind.UnionField?
    requires TableReadable(buf, table) && PreviousChecked(buf, opts, schemas, k, i, table)
    requires VerifyFields(buf, opts, schemas, k, i, table, c).0
    ensures forall j :: i <= j < |schemas[k]| ==> SafeField(buf, schemas, k, j, table)
    decreases if table <= |buf| then |buf| - table else 0, |schemas[k]| - i, 0
  {
    var f := Field(schemas, k, i);
    var (typeId, cases) := (f.kind.typeId, f.kind.cases);
    TagPrecedes(schemas, k, i);
    PointerReadable(buf, opts, table, f.id);
    ScalarReadable(buf, opts, table, typeId, 1, 0);
    var tag, p := UnionTag(buf, opts, table, typeId), FieldPointer(buf, opts, table, f.id);
    assert GetField(buf, table, typeId, 1, 0) == Value(tag);
    hide TableReadable, VerifyFieldScalar, VerifyFieldOffset, VerifyString, GetField, GetPointer, GetString, GetTerminator;
    hide FieldPointer, UnionTag, VerifyTable, Safe;
    if p.None? || tag !in cases {
      FieldsSound(buf, opts, schemas, k, i + 1, table, c);
    } else {
      TableSound(buf, opts, schemas, cases[tag], p.value, c);
      FieldsSound(buf, opts, schemas, k, i + 1, table, VerifyTable(buf, opts, schemas, cases[tag], p.value, c).1);
    }
  }

  /** Accepting a buffer makes the root, and everything reachable from it through accessors, safe to read. */
  lemma VerifyIsSound(buf: Buffer, opts: Options, schemas: Schemas, k: nat, id: Option<seq<byte>>, sizePrefix: bool)
    requires k < |schemas| && |buf| < TWO_31
    requires id.Some? ==> |id.value| == FILE_IDENTIFIER_LENGTH
    requires VerifyBuffer(buf, opts, schemas, k, id, sizePrefix)
    ensures var root := GetRoot(buf, if sizePrefix then 4 else 0);
            root.Value? && 0 < root.value < |buf| && Safe(buf, schemas, k, root.value)
  {
    var start := if sizePrefix then 4 else 0;
    TableSound(buf, opts, schemas, k, start + VerifyOffset(buf, opts, start), Counters(0, 0));
    hide Safe, VerifyTable, BitAnd, FromLE, HasIdentifier;
  }
}
