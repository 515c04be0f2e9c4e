/**
 What the verifier accepts, in terms of positions: a buffer is accepted exactly when everything that can be
 reached from its root is stored inside of it, aligned, terminated, and within the limits on tables.
 */
module VerifierAccepts {
  import opened Wrappers
  import opened Bytes
  import opened Alignment
  import opened BuilderModel
  import opened TableReader
  import opened VerifierModel

  // ---------- the specification ----------

  /** A scalar of w bytes lies in the buffer, is not all of it, and is at a multiple of its width if that is checked. */
  predicate Stored(buf: Buffer, opts: Options, pos: int, w: nat)
    requires w > 0
  {
    0 <= pos && w < |buf| && pos + w <= |buf| && (opts.checkAlignment ==> pos % w == 0)
  }

  /** A table starts with the distance to its vtable, which has an even size and lies in the buffer. */
  predicate TableStored(buf: Buffer, opts: Options, table: int) {
    && Stored(buf, opts, table, 4)
    && var vtable := table - Signed32(Load(buf, table, 4));
       && Stored(buf, opts, vtable, 2)
       && var size := Load(buf, vtable, 2);
          size % 2 == 0 && size < |buf| && vtable + size <= |buf|
  }

  /** A reference leads forward, by less than 2^31, into the buffer. */
  predicate ReferenceStored(buf: Buffer, opts: Options, pos: int) {
    && Stored(buf, opts, pos, 4)
    && 0 < Load(buf, pos, 4) < TWO_31 && pos + Load(buf, pos, 4) < |buf|
  }

  /** A length below the limit, as many bytes, and a NUL. */
  predicate StringStored(buf: Buffer, opts: Options, pos: int) {
    && Stored(buf, opts, pos, 4)
    && var end := pos + 4 + Load(buf, pos, 4);
       Load(buf, pos, 4) < opts.maxSize && end < |buf| && buf[end] == 0
  }

  /** The table, of type t, that the union in field i of a table of type k leads to. */
  function ChildOf(buf: Buffer, schemas: Schemas, k: nat, i: nat, table: nat): (child: Option<(nat, nat)>)
    requires k < |schemas| && i < |schemas[k]|
    ensures child.Some? ==> table < child.value.0 <= |buf| && child.value.1 < |schemas|
  {
    var f := Field(schemas, k, i);
    match f.kind
    case UnionField(typeId, cases) =>
      var p, tag := GetPointer(buf, table, f.id), GetField(buf, table, typeId, 1, 0);
      if p.Value? && p.value.Some? && table < p.value.value <= |buf| && tag.Value? && tag.value in cases
      then Some((p.value.value, cases[tag.value])) else None
    case _ => None
  }

  /** A table of type k, and all that its fields lead to. */
  ghost predicate TreeStored(buf: Buffer, opts: Options, schemas: Schemas, k: nat, table: nat)
    requires k < |schemas|
    decreases if table <= |buf| then |buf| - table else 0, 1
  {
    && TableStored(buf, opts, table)
    && forall i :: 0 <= i < |schemas[k]| ==> FieldStored(buf, opts, schemas, k, i, table)
  }

  ghost predicate FieldStored(buf: Buffer, opts: Options, schemas: Schemas, k: nat, i: nat, table: nat)
    requires k < |schemas| && i < |schemas[k]|
    decreases if table <= |buf| then |buf| - table else 0, 0
  {
    var f := Field(schemas, k, i);
    var offset := GetOptionalFieldOffset(buf, table, f.id);
    && offset.Value?
    && (offset.value != 0 ==>
          var at := table + offset.value;
          match f.kind
          case ScalarField(w) => Stored(buf, opts, at, w)
          case StringField => ReferenceStored(buf, opts, at) && StringStored(buf, opts, at + Load(buf, at, 4))
          case UnionField(_, _) => ReferenceStored(buf, opts, at))
    && match ChildOf(buf, schemas, k, i, table)
       case None => true
       case Some((child, t)) => TreeStored(buf, opts, schemas, t, child)
  }

  /** How deep the tables below a table of type k are nested, and how many there are, itself included. */
  ghost function TreeLoad(buf: Buffer, schemas: Schemas, k: nat, table: nat): Counters
    requires k < |schemas|
    decreases if table <= |buf| then |buf| - table else 0, |schemas[k]| + 1
  {
    var below := FieldsLoad(buf, schemas, k, 0, table);
    Counters(1 + below.depth, 1 + below.numTables)
  }

  ghost function FieldsLoad(buf: Buffer, schemas: Schemas, k: nat, i: nat, table: nat): Counters
    requires k < |schemas| && i <= |schemas[k]|
    decreases if table <= |buf| then |buf| - table else 0, |schemas[k]| - i
  {
    if i == |schemas[k]| then Counters(0, 0)
    else
      var rest := FieldsLoad(buf, schemas, k, i + 1, table);
      match ChildOf(buf, schemas, k, i, table)
      case None => rest
      case Some((child, t)) =>
        var below := TreeLoad(buf, schemas, t, child);
        Counters(if below.depth > rest.depth then below.depth else rest.depth, below.numTables + rest.numTables)
  }

  predicate WithinLimits(opts: Options, c: Counters, load: Counters) {
    c.depth + load.depth <= opts.maxDepth && c.numTables + load.numTables <= opts.maxTables
  }

  /** The header, and the tree below the root that it leads to. */
  ghost predicate BufferStored(buf: Buffer, opts: Options, schemas: Schemas, k: nat, id: Option<seq<byte>>, sizePrefix: bool)
    requires k < |schemas|
    requires id.Some? ==> |id.value| == FILE_IDENTIFIER_LENGTH
  {
    var start := if sizePrefix then 4 else 0;
    && MIN_BUFFER_SIZE <= |buf|
    && (sizePrefix ==> Load(buf, 0, 4) + 4 <= |buf|)
    && (id.Some? ==> buf[start + 4..start + 8] == id.value)
    && ReferenceStored(buf, opts, start)
    && var root := start + Load(buf, start, 4);
       TreeStored(buf, opts, schemas, k, root) && WithinLimits(opts, Counters(0, 0), TreeLoad(buf, schemas, k, root))
  }

  // ---------- the single checks ----------

  /** The mask of the alignment check is divisibility, for every power of two. */
  lemma AlignmentChecked(opts: Options, elem: nat, k: nat)
    ensures VerifyAlignment(opts, elem, Pow2(k)) <==> !opts.checkAlignment || elem % Pow2(k) == 0
  {
    hide BitAnd, Pow2;
    LowBits(elem, k);
  }

  lemma ScalarChecked(buf: Buffer, opts: Options, pos: nat, w: nat)
    requires ScalarWidth(w)
    ensures VerifyScalar(buf, opts, pos, w) <==> Stored(buf, opts, pos, w)
  {
    hide VerifyAlignment;
    var k := AlignmentIsPower(w);
    AlignmentChecked(opts, pos, k);
  }

  lemma ReferenceChecked(buf: Buffer, opts: Options, pos: nat)
    ensures VerifyOffset(buf, opts, pos) != 0 <==> ReferenceStored(buf, opts, pos)
    ensures VerifyOffset(buf, opts, pos) != 0 ==> VerifyOffset(buf, opts, pos) == Load(buf, pos, 4)
  {
    hide VerifyScalar, FromLE, Pow256;
    ScalarChecked(buf, opts, pos, 4);
    if Stored(buf, opts, pos, 4) {
      FromLEBound(buf[pos..pos + 4]);
      Pow256Values();
    }
  }

  lemma StringChecked(buf: Buffer, opts: Options, pos: nat)
    ensures VerifyString(buf, opts, Some(pos)) <==> StringStored(buf, opts, pos)
  {
    hide VerifyScalar, FromLE;
    ScalarChecked(buf, opts, pos, 4);
    assert opts.maxSize / 1 == opts.maxSize;
    if Stored(buf, opts, pos, 4) && pos + 4 + Load(buf, pos, 4) < |buf| {
      ByteLoads(buf, pos + 4 + Load(buf, pos, 4));
    }
  }

  lemma ByteLoads(buf: Buffer, pos: nat)
    requires pos < |buf|
    ensures Load(buf, pos, 1) == buf[pos]
  {
    assert buf[pos..pos + 1] == [buf[pos]];
    assert [buf[pos]][1..] == [];
    assert FromLE([buf[pos]]) == buf[pos] + 256 * FromLE([]);
  }

  lemma StartChecked(buf: Buffer, opts: Options, table: nat, c: Counters)
    requires |buf| < TWO_31
    ensures VerifyTableStart(buf, opts, table, c).0 <==>
            TableStored(buf, opts, table) && WithinLimits(opts, c, Counters(1, 1))
    ensures VerifyTableStart(buf, opts, table, c).0 ==>
            VerifyTableStart(buf, opts, table, c).1 == Counters(c.depth + 1, c.numTables + 1) && TableReadable(buf, table)
  {
    hide VerifyScalar, FromLE, VerifyAlignment, BitAnd;
    ScalarChecked(buf, opts, table, 4);
    if Stored(buf, opts, table, 4) {
      SignedBound(buf, table);
      var vtable := table - Signed32(Load(buf, table, 4));
      ScalarChecked(buf, opts, Wrap64(vtable), 2);
      if Stored(buf, opts, vtable, 2) {
        var size := Load(buf, vtable, 2);
        LowBit(size);
        AlignmentChecked(opts, size, 1);
        assert Pow2(1) == 2;
      }
    }
  }

  // ---------- tables ----------

  /** VerifyTable accepts exactly the stored trees within the limits, and counts their tables. */
  lemma {:induction false} TableAccepts(buf: Buffer, opts: Options, schemas: Schemas, k: nat, table: nat, c: Counters)
    requires k < |schemas| && |buf| < TWO_31
    ensures var (ok, c') := VerifyTable(buf, opts, schemas, k, table, c);
            var load := TreeLoad(buf, schemas, k, table);
            && (ok <==> TreeStored(buf, opts, schemas, k, table) && WithinLimits(opts, c, load))
            && (ok ==> c' == Counters(c.depth, c.numTables + load.numTables))
    decreases if table <= |buf| then |buf| - table else 0, |schemas[k]| + 1
  {
    hide VerifyTableStart, VerifyFields, TableStored, FieldStored, FieldsLoad, TableReadable;
    StartChecked(buf, opts, table, c);
    var (started, c1) := VerifyTableStart(buf, opts, table, c);
    if started {
      FieldsAccept(buf, opts, schemas, k, 0, table, c1);
    }
  }

  /** What is left to check from field i on. */
  ghost predicate FieldsStored(buf: Buffer, opts: Options, schemas: Schemas, k: nat, i: nat, table: nat)
    requires k < |schemas|
  {
    forall j :: i <= j < |schemas[k]| ==> FieldStored(buf, opts, schemas, k, j, table)
  }

  lemma {:induction false} FieldsAccept(buf: Buffer, opts: Options, schemas: Schemas, k: nat, i: nat, table: nat, c: Counters)
    requires k < |schemas| && i <= |schemas[k]| && |buf| < TWO_31
    requires TableReadable(buf, table) && PreviousChecked(buf, opts, schemas, k, i, table)
    requires WithinLimits(opts, c, Counters(0, 0))
    ensures var (ok, c') := VerifyFields(buf, opts, schemas, k, i, table, c);
            var load := FieldsLoad(buf, schemas, k, i, table);
            && (ok <==> FieldsStored(buf, opts, schemas, k, i, table) && WithinLimits(opts, c, load))
            && (ok ==> c' == Counters(c.depth, c.numTables + load.numTables))
    decreases if table <= |buf| then |buf| - table else 0, |schemas[k]| - i
  {
    hide TableReadable, VerifyFieldScalar, VerifyFieldOffset, VerifyString, FieldPointer, UnionTag, VerifyTable, FieldStored, ChildOf, TreeLoad;
    if i < |schemas[k]| {
      var f := Field(schemas, k, i);
      match f.kind {
        case ScalarField(w) =>
          ScalarFieldChecked(buf, opts, schemas, k, i, table);
          if VerifyFieldScalar(buf, opts, table, f.id, w) {
            FieldsAccept(buf, opts, schemas, k, i + 1, table, c);
          }
        case StringField =>
          StringFieldChecked(buf, opts, schemas, k, i, table);
          if VerifyFieldOffset(buf, opts, table, f.id) && VerifyString(buf, opts, FieldPointer(buf, opts, table, f.id)) {
            FieldsAccept(buf, opts, schemas, k, i + 1, table, c);
          }
        case UnionField(typeId, cases) =>
          UnionAccepts(buf, opts, schemas, k, i, table, c);
      }
    }
  }

  lemma ScalarFieldChecked(buf: Buffer, opts: Options, schemas: Schemas, k: nat, i: nat, table: nat)
    requires k < |schemas| && i < |schemas[k]| && TableReadable(buf, table) && Field(schemas, k, i).kind.ScalarField?
    ensures var f := Field(schemas, k, i);
            VerifyFieldScalar(buf, opts, table, f.id, f.kind.width) <==> FieldStored(buf, opts, schemas, k, i, table)
    ensures ChildOf(buf, schemas, k, i, table).None?
  {
    hide TableReadable, VerifyScalar, GetOptionalFieldOffset, Stored, TreeStored;
    var f := Field(schemas, k, i);
    SlotReadable(buf, table, f.id);
    ScalarChecked(buf, opts, table + FieldOffset(buf, table, f.id), f.kind.width);
  }

  lemma StringFieldChecked(buf: Buffer, opts: Options, schemas: Schemas, k: nat, i: nat, table: nat)
    requires k < |schemas| && i < |schemas[k]| && TableReadable(buf, table) && Field(schemas, k, i).kind.StringField?
    ensures var f := Field(schemas, k, i);
            VerifyFieldOffset(buf, opts, table, f.id) && VerifyString(buf, opts, FieldPointer(buf, opts, table, f.id))
            <==> FieldStored(buf, opts, schemas, k, i, table)
    ensures ChildOf(buf, schemas, k, i, table).None?
  {
    hide TableReadable, VerifyScalar, GetOptionalFieldOffset, StringStored, VerifyVectorOrString, VerifyOffset, TreeStored;
    var f := Field(schemas, k, i);
    SlotReadable(buf, table, f.id);
    var at := table + FieldOffset(buf, table, f.id);
    ReferenceChecked(buf, opts, at);
    if ReferenceStored(buf, opts, at) {
      StringChecked(buf, opts, at + Load(buf, at, 4));
    }
  }

  /** The union's content and type, as the verifier and the accessors find them. */
  lemma UnionFieldChecked(buf: Buffer, opts: Options, schemas: Schemas, k: nat, i: nat, table: nat)
    requires k < |schemas| && i < |schemas[k]| && TableReadable(buf, table) && Field(schemas, k, i).kind.UnionField?
    requires PreviousChecked(buf, opts, schemas, k, i, table)
    ensures var f, child := Field(schemas, k, i), ChildOf(buf, schemas, k, i, table);
            FieldStored(buf, opts, schemas, k, i, table) <==>
            VerifyFieldOffset(buf, opts, table, f.id)
            && (child.Some? ==> TreeStored(buf, opts, schemas, child.value.1, child.value.0))
    ensures var f := Field(schemas, k, i);
            VerifyFieldOffset(buf, opts, table, f.id) ==>
              var content := FieldPointer(buf, opts, table, f.id);
              && i > 0 && Field(schemas, k, i - 1) == FieldDecl(f.kind.typeId, ScalarField(1))
              && var tag := UnionTag(buf, opts, table, f.kind.typeId);
                 ChildOf(buf, schemas, k, i, table) ==
                 if content.None? || tag !in f.kind.cases then None else Some((content.value, f.kind.cases[tag]))
  {
    hide TableReadable, VerifyScalar, GetOptionalFieldOffset, VerifyOffset, TreeStored, VerifyFieldScalar, Stored;
    var f := Field(schemas, k, i);
    TagPrecedes(schemas, k, i);
    SlotReadable(buf, table, f.id);
    ReferenceChecked(buf, opts, table + FieldOffset(buf, table, f.id));
    ScalarReadable(buf, opts, table, f.kind.typeId, 1, 0);
    if VerifyFieldOffset(buf, opts, table, f.id) {
      PointerReadable(buf, opts, table, f.id);
    }
  }

  lemma {:induction false} UnionAccepts(buf: Buffer, opts: Options, schemas: Schemas, k: nat, i: nat, table: nat, c: Counters)
    requires k < |schemas| && i < |schemas[k]| && |buf| < TWO_31 && Field(schemas, k, i).kind.UnionField?
    requires TableReadable(buf, table) && PreviousChecked(buf, opts, schemas, k, i, table)
    requires WithinLimits(opts, c, Counters(0, 0))
    ensures var (ok, c') := VerifyFields(buf, opts, schemas, k, i, table, c);
            var load := FieldsLoad(buf, schemas, k, i, table);
            && (ok <==> FieldsStored(buf, opts, schemas, k, i, table) && WithinLimits(opts, c, load))
            && (ok ==> c' == Counters(c.depth, c.numTables + load.numTables))
    decreases if table <= |buf| then |buf| - table else 0, |schemas[k]| - i, 0
  {
    hide TableReadable, VerifyFieldScalar, VerifyFieldOffset, VerifyString, FieldPointer, UnionTag, VerifyTable, FieldStored, ChildOf, TreeLoad, TreeStored;
    UnionFieldChecked(buf, opts, schemas, k, i, table);
    if VerifyFieldOffset(buf, opts, table, Field(schemas, k, i).id) {
      match ChildOf(buf, schemas, k, i, table) {
        case None => FieldsAccept(buf, opts, schemas, k, i + 1, table, c);
        case Some((child, t)) =>
          TableAccepts(buf, opts, schemas, t, child, c);
          var (ok, c') := VerifyTable(buf, opts, schemas, t, child, c);
          if ok {
            FieldsAccept(buf, opts, schemas, k, i + 1, table, c');
          }
      }
    }
  }

  // ---------- buffers ----------

  /** For arbitrary bytes: a buffer is accepted exactly when it is stored as the specification says. */
  lemma VerifyAccepts(buf: Buffer, opts: Options, schemas: Schemas, k: nat, id: Option<seq<byte>>, sizePrefix: bool)
    requires k < |schemas| && |buf| < TWO_31
    requires id.Some? ==> |id.value| == FILE_IDENTIFIER_LENGTH
    ensures VerifyBuffer(buf, opts, schemas, k, id, sizePrefix) <==> BufferStored(buf, opts, schemas, k, id, sizePrefix)
  {
    hide VerifyTable, TreeStored, TreeLoad, VerifyScalar, VerifyOffset, BitAnd, FromLE;
    var start := if sizePrefix then 4 else 0;
    ScalarChecked(buf, opts, 0, 4);
    ReferenceChecked(buf, opts, start);
    if ReferenceStored(buf, opts, start) {
      TableAccepts(buf, opts, schemas, k, start + Load(buf, start, 4), Counters(0, 0));
    }
  }
}
