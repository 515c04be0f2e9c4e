/** The alignment that a builder tracks: exactly the largest that something in the buffer needs. */
module BuilderAlignments {
  import opened Wrappers
  import opened Bytes
  import opened Alignment
  import opened BuilderModel
  import opened BuilderRuns

  function Larger(a: nat, b: nat): nat {
    if a >= b then a else b
  }

  /** A stored scalar needs its width, a stored reference 4; what is not stored needs nothing. */
  function FieldNeeds(f: FieldOp): nat {
    match f
    case AddScalar(_, w, v, def) => if v == def then 1 else w
    case AddReference(_, target) => if target.None? then 1 else 4
  }

  function FieldsNeed(fields: seq<FieldOp>): nat
    decreases |fields|
  {
    if fields == [] then 1 else Larger(FieldsNeed(fields[..|fields| - 1]), FieldNeeds(fields[|fields| - 1]))
  }

  /** Strings and tables start with 4 bytes: a length, or the distance to the vtable. */
  function OpNeeds(op: Op): nat {
    if op.MakeTable? then Larger(4, FieldsNeed(op.fields)) else 4
  }

  function RunNeeds(ops: seq<Op>): nat
    decreases |ops|
  {
    if ops == [] then 1 else Larger(RunNeeds(ops[..|ops| - 1]), OpNeeds(ops[|ops| - 1]))
  }

  lemma FieldTracked(s: State, f: FieldOp, offs: seq<nat>)
    requires FieldLegal(f, |offs|) && forall o <- offs :: 0 < o <= s.Size()
    ensures AddField(s, f, offs).minAlign == Larger(s.minAlign, FieldNeeds(f))
  {
    hide PaddingBytes, LE;
    match f
    case AddReference(_, Some(h)) => assert offs[h] in offs;
    case _ =>
  }

  lemma {:induction false} FieldsTracked(s: State, fields: seq<FieldOp>, offs: seq<nat>)
    requires (forall f <- fields :: FieldLegal(f, |offs|)) && forall o <- offs :: 0 < o <= s.Size()
    ensures AddFields(s, fields, offs).minAlign == Larger(s.minAlign, FieldsNeed(fields))
    decreases |fields|
  {
    hide AddField, FieldLegal, FieldNeeds;
    if fields != [] {
      FieldsTracked(s, fields[..|fields| - 1], offs);
      FieldTracked(AddFields(s, fields[..|fields| - 1], offs), fields[|fields| - 1], offs);
    }
  }

  lemma StringTracked(s: State, b: seq<byte>)
    requires NotNested(s)
    ensures CreateString(s, b).minAlign == Larger(s.minAlign, 4)
  {
    hide PaddingBytes, LE;
  }

  lemma SharedStringTracked(s: State, b: seq<byte>)
    requires NotNested(s) && PoolUsable(s, b)
    ensures CreateSharedString(s, b).0.minAlign == Larger(s.minAlign, 4)
  {
    StringTracked(s, b);
    hide CreateString, PoolFind, StringIn;
  }

  lemma TableTracked(s: State, start: nat)
    requires CanEndTable(s, start)
    ensures EndTable(s, start).0.minAlign == Larger(s.minAlign, 4)
  {
    hide PaddingBytes, LE, OpenVTable, FindVTable, CanEndTable, WriteScalar;
  }

  lemma StepTracked(r: Run, op: Op)
    requires Step(r, op).Some?
    ensures Step(r, op).value.state.minAlign == Larger(r.state.minAlign, OpNeeds(op))
  {
    hide CreateString, CreateSharedString, EndTable, AddFields, CanEndTable, Peak, PoolUsable;
    match op
    case MakeString(b) => StringTracked(r.state, b);
    case MakeSharedString(b) => SharedStringTracked(r.state, b);
    case MakeTable(fields) =>
      FieldsTracked(StartTable(r.state), fields, r.offs);
      TableTracked(FilledTable(r.state, fields, r.offs), r.state.Size());
  }

  /** After any run the tracked alignment is the largest that a stored field, a string or a table needs. */
  lemma {:induction false} RunTracksAlignment(dedup: bool, ops: seq<Op>)
    requires Steps(Start(dedup), ops).Some?
    ensures Steps(Start(dedup), ops).value.state.minAlign == RunNeeds(ops)
    decreases |ops|
  {
    hide Step, OpNeeds;
    if ops != [] {
      RunTracksAlignment(dedup, ops[..|ops| - 1]);
      StepTracked(Steps(Start(dedup), ops[..|ops| - 1]).value, ops[|ops| - 1]);
    }
  }
}
