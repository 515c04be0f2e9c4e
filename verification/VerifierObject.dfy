/** The verifier as the object it is: checking a table moves its two counters. */
module VerifierObject {
  import opened Wrappers
  import opened Bytes
  import opened BuilderModel
  import opened TableReader
  import opened VerifierModel

  class Verifier {
    const buf: Buffer
    const opts: Options
    var depth: nat
    var numTables: nat

    constructor (buf: Buffer, opts: Options)
      requires |buf| < TWO_31
      ensures this.buf == buf && this.opts == opts && Now() == Counters(0, 0)
    {
      this.buf, this.opts := buf, opts;
      depth, numTables := 0, 0;
    }

    function Now(): Counters
      reads this
    {
      Counters(depth, numTables)
    }

    method CheckComplexity() returns (ok: bool)
      modifies this
      ensures (ok, Now()) == VerifyComplexity(opts, old(Now()))
    {
      depth := depth + 1;
      numTables := numTables + 1;
      ok := depth <= opts.maxDepth && numTables <= opts.maxTables;
    }

    /** VerifyTableStart. */
    method CheckTableStart(table: nat) returns (ok: bool)
      modifies this
      ensures (ok, Now()) == VerifyTableStart(buf, opts, table, old(Now()))
    {
      hide VerifyAlignment, Load;
      ok := VerifyScalar(buf, opts, table, 4);
      if !ok {
        return;
      }
      var vtable := Wrap64(table - Signed32(Load(buf, table, 4)));
      var simple := CheckComplexity();
      if !simple || !VerifyScalar(buf, opts, vtable, 2) {
        return false;
      }
      var vsize := Load(buf, vtable, 2);
      ok := VerifyAlignment(opts, vsize, 2) && Alignment.BitAnd(vsize, 1) == 0 && Verify(buf, vtable, vsize);
    }

    /** EndTable: called last by every Verify function. */
    method EndTable() returns (ok: bool)
      requires depth > 0
      modifies this`depth
      ensures ok && depth == old(depth) - 1
    {
      depth := depth - 1;
      ok := true;
    }

    /** The Verify function generated for table k of a schema. */
    method CheckTable(schemas: Schemas, k: nat, table: nat) returns (ok: bool)
      requires k < |schemas| && |buf| < TWO_31
      modifies this
      ensures (ok, Now()) == VerifyTable(buf, opts, schemas, k, table, old(Now()))
      decreases if table <= |buf| then |buf| - table else 0, |schemas[k]| + 1
    {
      hide VerifyTableStart, TableReadable, VerifyFields;
      ghost var c := Now();
      ok := CheckTableStart(table);
      if !ok {
        return;
      }
      TableStartReadable(buf, opts, table, c);
      ok := CheckFields(schemas, k, table);
      if !ok {
        return;
      }
      ok := EndTable();
    }

    /** The fields in turn, up to the first that fails. */
    method CheckFields(schemas: Schemas, k: nat, table: nat) returns (ok: bool)
      requires k < |schemas| && |buf| < TWO_31 && TableReadable(buf, table)
      modifies this
      ensures (ok, Now()) == VerifyFields(buf, opts, schemas, k, 0, table, old(Now()))
      decreases if table <= |buf| then |buf| - table else 0, |schemas[k]|
    {
      hide TableReadable, VerifyFieldScalar, VerifyFieldOffset, VerifyString, FieldPointer, UnionTag, VerifyTable;
      var i := 0;
      while i < |schemas[k]|
        invariant i <= |schemas[k]| && PreviousChecked(buf, opts, schemas, k, i, table)
        invariant VerifyFields(buf, opts, schemas, k, i, table, Now()) == VerifyFields(buf, opts, schemas, k, 0, table, old(Now()))
      {
        ok := CheckField(schemas, k, i, table);
        if !ok {
          return;
        }
        i := i + 1;
      }
      ok := true;
    }

    /** One field; true if the check goes on with the next one. */
    method CheckField(schemas: Schemas, k: nat, i: nat, table: nat) returns (ok: bool)
      requires k < |schemas| && i < |schemas[k]| && |buf| < TWO_31
      requires TableReadable(buf, table) && PreviousChecked(buf, opts, schemas, k, i, table)
      modifies this
      ensures ok ==> PreviousChecked(buf, opts, schemas, k, i + 1, table)
      ensures VerifyFields(buf, opts, schemas, k, i, table, old(Now())) ==
              if ok then VerifyFields(buf, opts, schemas, k, i + 1, table, Now()) else (false, Now())
      decreases if table <= |buf| then |buf| - table else 0, 0
    {
      hide TableReadable, VerifyFieldScalar, VerifyFieldOffset, VerifyString, FieldPointer, UnionTag, VerifyTable;
      var f := Field(schemas, k, i);
      match f.kind {
        case ScalarField(w) =>
          ok := VerifyFieldScalar(buf, opts, table, f.id, w);
        case StringField =>
          ok := VerifyFieldOffset(buf, opts, table, f.id) && VerifyString(buf, opts, FieldPointer(buf, opts, table, f.id));
        case UnionField(typeId, cases) =>
          ok := VerifyFieldOffset(buf, opts, table, f.id);
          if ok {
            var content := FieldPointer(buf, opts, table, f.id);
            TagPrecedes(schemas, k, i);
            var tag := UnionTag(buf, opts, table, typeId);
            if content.Some? && tag in cases {
              ok := CheckTable(schemas, cases[tag], content.value);
            }
          }
      }
    }

    /** VerifyBuffer and VerifySizePrefixedBuffer, on a new verifier. */
    method CheckBuffer(schemas: Schemas, k: nat, id: Option<seq<byte>>, sizePrefix: bool) returns (ok: bool)
      requires k < |schemas| && |buf| < TWO_31 && Now() == Counters(0, 0)
      requires id.Some? ==> |id.value| == FILE_IDENTIFIER_LENGTH
      modifies this
      ensures ok == VerifyBuffer(buf, opts, schemas, k, id, sizePrefix)
      ensures ok ==> Safe(buf, schemas, k, GetRoot(buf, if sizePrefix then 4 else 0).value) && depth == 0
    {
      hide VerifyTable, VerifyOffset, HasIdentifier, Safe, VerifyAlignment;
      var start := if sizePrefix then 4 else 0;
      if sizePrefix && !(VerifyScalar(buf, opts, 0, 4) && Load(buf, 0, 4) + 4 <= |buf|) {
        return false;
      }
      if |buf| < MIN_BUFFER_SIZE || (id.Some? && !HasIdentifier(buf, start, id.value)) {
        return false;
      }
      var o := VerifyOffset(buf, opts, start);
      if o == 0 {
        return false;
      }
      ok := CheckTable(schemas, k, start + o);
      if ok {
        VerifyIsSound(buf, opts, schemas, k, id, sizePrefix);
      }
    }
  }
}
