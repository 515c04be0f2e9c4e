/** Whole runs of a builder: any sequence of strings, shared strings and tables. */
module BuilderRuns {
  import opened Wrappers
  import opened Bytes
  import opened Alignment
  import opened StringOrder
  import opened BuilderModel
  import opened Layout
  import opened BuilderSteps
  import opened TableSteps

  /** One call between StartTable and EndTable; a reference names an earlier object by its number. */
  datatype FieldOp =
    | AddScalar(id: nat, width: nat, value: nat, def: nat)
    | AddReference(id: nat, target: Option<nat>)

  datatype Op =
    | MakeString(bytes: seq<byte>)
    | MakeSharedString(bytes: seq<byte>)
    | MakeTable(fields: seq<FieldOp>)

  /** The objects made so far: `offs[h]` is the offset that `ops[h]` returned. */
  datatype Run = Run(state: State, offs: seq<nat>, ops: seq<Op>)

  // ---------- what the caller may ask ----------

  predicate FieldLegal(f: FieldOp, made: nat) {
    match f
    case AddScalar(id, w, v, def) => FieldId(id) && ScalarWidth(w) && v < Pow256(w)
    case AddReference(id, target) => FieldId(id) && (target.Some? ==> target.value < made)
  }

  predicate FieldsLegal(fields: seq<FieldOp>, made: nat) {
    && (forall f <- fields :: FieldLegal(f, made))
    && (forall i, j :: 0 <= i < j < |fields| ==> fields[i].id != fields[j].id)
  }

  predicate OpLegal(op: Op, made: nat) {
    op.MakeTable? ==> FieldsLegal(op.fields, made)
  }

  // ---------- what the run does ----------

  function AddField(s: State, f: FieldOp, offs: seq<nat>): State
    requires FieldLegal(f, |offs|) && forall o <- offs :: o <= s.Size()
  {
    match f
    case AddScalar(id, w, v, def) => AddElement(s, id, v, def, w)
    case AddReference(id, None) => AddOffset(s, id, 0)
    case AddReference(id, Some(h)) => assert offs[h] in offs; AddOffset(s, id, offs[h])
  }

  lemma AddFieldGrows(s: State, f: FieldOp, offs: seq<nat>)
    requires FieldLegal(f, |offs|) && forall o <- offs :: o <= s.Size()
    ensures s.Size() <= AddField(s, f, offs).Size()
  {
    hide PaddingBytes;
  }

  function AddFields(s: State, fields: seq<FieldOp>, offs: seq<nat>): (r: State)
    requires forall f <- fields :: FieldLegal(f, |offs|)
    requires forall o <- offs :: o <= s.Size()
    ensures s.Size() <= r.Size()
    decreases |fields|
  {
    if fields == [] then s
    else
      var before := AddFields(s, fields[..|fields| - 1], offs);
      AddFieldGrows(before, fields[|fields| - 1], offs);
      AddField(before, fields[|fields| - 1], offs)
  }

  predicate Ready(s: State, offs: seq<nat>) {
    && NotNested(s) && !s.finished && s.maxVoffset == 0
    && (forall o <- offs :: 0 < o <= s.Size())
    && (forall p <- s.pool :: StringIn(s.data, p))
  }

  function FilledTable(s: State, fields: seq<FieldOp>, offs: seq<nat>): State
    requires Ready(s, offs) && FieldsLegal(fields, |offs|)
  {
    AddFields(StartTable(s), fields, offs)
  }

  /** One step: the new state and the offset returned, or None where an assertion fails or a vtable covers too little. */
  function Make(s: State, offs: seq<nat>, op: Op): Option<(State, nat)>
    requires Ready(s, offs) && OpLegal(op, |offs|)
  {
    match op
    case MakeString(b) =>
      var r := CreateString(s, b);
      Some((r, r.Size()))
    case MakeSharedString(b) =>
      if PoolUsable(s, b) then Some(CreateSharedString(s, b)) else None
    case MakeTable(fields) =>
      var filled := FilledTable(s, fields, offs);
      if CanEndTable(filled, s.Size()) then Some(EndTable(filled, s.Size())) else None
  }

  /** The bytes in the buffer while the step runs never exceed this; the builder asserts the bound. */
  function Peak(s: State, offs: seq<nat>, op: Op): nat
    requires Ready(s, offs) && OpLegal(op, |offs|)
  {
    match op
    case MakeString(b) => CreateString(s, b).Size()
    case MakeSharedString(b) => CreateString(s, b).Size()
    case MakeTable(fields) =>
      var filled := FilledTable(s, fields, offs);
      if CanEndTable(filled, s.Size()) then WithVTable(filled, s.Size()).Size() else filled.Size()
  }

  function Step(r: Run, op: Op): Option<Run> {
    if !Ready(r.state, r.offs) || !OpLegal(op, |r.offs|) || Peak(r.state, r.offs, op) >= MAX_BUFFER_SIZE then None
    else
      match Make(r.state, r.offs, op)
      case None => None
      case Some((s, off)) => Some(Run(s, r.offs + [off], r.ops + [op]))
  }

  function Steps(r: Run, ops: seq<Op>): Option<Run>
    decreases |ops|
  {
    if ops == [] then Some(r)
    else
      match Steps(r, ops[..|ops| - 1])
      case None => None
      case Some(before) => Step(before, ops[|ops| - 1])
  }

  function Start(dedup: bool): Run {
    Run(Empty.(dedup := dedup), [], [])
  }

  // ---------- what each step is expected to leave ----------

  function ExpectedField(f: FieldOp): Option<FieldVal> {
    match f
    case AddScalar(id, w, v, def) => if v == def then None else Some(Val(w, v))
    case AddReference(id, target) => if target.None? then None else Some(Ref(target.value))
  }

  function Put(m: map<nat, FieldVal>, f: FieldOp): map<nat, FieldVal> {
    match ExpectedField(f)
    case None => m
    case Some(v) => m[f.id := v]
  }

  /** The fields a table holds: those set to something other than their default. */
  function ExpectedFields(fields: seq<FieldOp>): map<nat, FieldVal>
    decreases |fields|
  {
    if fields == [] then map[] else Put(ExpectedFields(fields[..|fields| - 1]), fields[|fields| - 1])
  }

  function Expected(op: Op): Obj {
    match op
    case MakeString(b) => StrObj(b)
    case MakeSharedString(b) => StrObj(b)
    case MakeTable(fields) => TableObj(ExpectedFields(fields))
  }

  // ---------- the invariant of every run ----------

  ghost predicate ObjectsAt(r: Run) {
    && |r.offs| == |r.ops|
    && forall h :: 0 <= h < |r.ops| ==>
         ObjAt(r.state.data, r.offs[h], Expected(r.ops[h]), r.offs, r.state.minAlign)
  }

  /** Every table refers to one of the remembered vtables. */
  ghost predicate TablesShareVTables(r: Run)
    requires ObjectsAt(r)
  {
    forall h {:trigger r.ops[h]} :: 0 <= h < |r.ops| && r.ops[h].MakeTable? ==>
      (TableHasVTable(r, h); VTableOffset(r.state.data, r.offs[h]) in r.state.vtables)
  }

  lemma TableHasVTable(r: Run, h: nat)
    requires ObjectsAt(r) && h < |r.ops| && r.ops[h].MakeTable?
    ensures 4 <= r.offs[h] <= r.state.Size()
  {
    assert ObjAt(r.state.data, r.offs[h], Expected(r.ops[h]), r.offs, r.state.minAlign);
  }

  /** The pool holds finished strings with pairwise distinct contents, and every shared string is in it. */
  predicate PoolAt(d: seq<byte>, pool: seq<nat>) {
    && (forall p <- pool :: StringIn(d, p) && StrAt(d, p, StringData(d, p)))
    && (forall i, j :: 0 <= i < j < |pool| ==> StringData(d, pool[i]) != StringData(d, pool[j]))
  }

  predicate SharedInPool(r: Run) {
    |r.offs| == |r.ops|
    && forall h :: 0 <= h < |r.ops| && r.ops[h].MakeSharedString? ==> r.offs[h] in r.state.pool
  }

  predicate VTablesGood(s: State) {
    VTablesAt(s.data, s.vtables) && (s.dedup ==> DistinctVTables(s.data, s.vtables))
  }

  ghost predicate Inv(r: Run) {
    && Ready(r.state, r.offs)
    && Tracked(r.state.minAlign) && (r.offs != [] ==> 4 <= r.state.minAlign)
    && r.state.Size() < MAX_BUFFER_SIZE
    && VTablesGood(r.state)
    && ObjectsAt(r) && TablesShareVTables(r)
    && PoolAt(r.state.data, r.state.pool) && SharedInPool(r)
  }

  // ---------- tables under construction ----------

  lemma {:induction false} ExpectedIds(fields: seq<FieldOp>, id: nat)
    requires forall f <- fields :: f.id != id
    ensures id !in ExpectedFields(fields)
    decreases |fields|
  {
    if fields != [] {
      ExpectedIds(fields[..|fields| - 1], id);
    }
  }

  /** What adding fields leaves alone. */
  predicate OnlyFields(s: State, s': State) {
    && Extends(s.data, s'.data) && s.minAlign <= s'.minAlign
    && s' == s.(data := s'.data, minAlign := s'.minAlign, fields := s'.fields, maxVoffset := s'.maxVoffset)
  }

  lemma AddFieldOpens(s: State, start: nat, m: map<nat, FieldVal>, offs: seq<nat>, f: FieldOp)
    requires Open(s, start, m, offs) && FieldLegal(f, |offs|) && f.id !in m
    requires (forall o <- offs :: 0 < o <= s.Size()) && s.Size() + 8 < TWO_32
    ensures var r := AddField(s, f, offs);
            && OnlyFields(s, r)
            && Open(r, start, Put(m, f), offs)
  {
    hide Open, AddElement, AddOffset, Pow256;
    match f
    case AddScalar(id, w, v, def) =>
      AddElementLands(s, start, m, offs, id, v, def, w);
    case AddReference(id, None) =>
      assert AddOffset(s, id, 0) == s by { NullOffsetAddsNothing(s, id); }
    case AddReference(id, Some(h)) =>
      assert offs[h] in offs;
      AddOffsetLands(s, start, m, offs, id, h);
  }

  lemma NullOffsetAddsNothing(s: State, id: nat)
    ensures AddOffset(s, id, 0) == s
  {
  }

  /** Between StartTable and EndTable the fields written so far hold the expected values. */
  lemma {:induction false} AddFieldsOpen(s: State, fields: seq<FieldOp>, offs: seq<nat>)
    requires Ready(s, offs) && Tracked(s.minAlign) && FieldsLegal(fields, |offs|)
    requires FilledTable(s, fields, offs).Size() + 8 < TWO_32
    ensures OnlyFields(StartTable(s), FilledTable(s, fields, offs))
    ensures Open(FilledTable(s, fields, offs), s.Size(), ExpectedFields(fields), offs)
    decreases |fields|
  {
    if fields != [] {
      var rest, last := fields[..|fields| - 1], fields[|fields| - 1];
      var before := FilledTable(s, rest, offs);
      AddFieldGrows(before, last, offs);
      AddFieldsOpen(s, rest, offs);
      ExpectedIds(rest, last.id);
      hide Open, AddField, FieldLegal;
      AddFieldOpens(before, s.Size(), ExpectedFields(rest), offs, last);
      ExtendsTransitive(s.data, before.data, AddField(before, last, offs).data);
    }
  }

  // ---------- every step keeps the invariant ----------

  lemma PoolFrame(x: seq<byte>, d: seq<byte>, pool: seq<nat>)
    requires PoolAt(d, pool)
    ensures PoolAt(x + d, pool)
    ensures forall p <- pool :: StringIn(x + d, p) && StringData(x + d, p) == StringData(d, p)
  {
    hide StrAt;
    forall p | p in pool
      ensures StringIn(x + d, p) && StringData(x + d, p) == StringData(d, p) && StrAt(x + d, p, StringData(d, p))
    {
      StrFrame(x, d, p);
    }
    hide StringIn, StringData;
  }

  lemma VTablesGoodFrame(s: State, s': State)
    requires VTablesGood(s) && Extends(s.data, s'.data) && s'.vtables == s.vtables && s'.dedup == s.dedup
    ensures VTablesGood(s')
  {
    hide VTableAt, VTableContents;
    ExtendsPrefix(s.data, s'.data);
    VTablesFrame(s'.data[..|s'.data| - |s.data|], s.data, s.vtables);
  }

  lemma ObjectsKept(r: Run, d: seq<byte>, offs: seq<nat>, minAlign: nat)
    requires ObjectsAt(r) && Extends(r.state.data, d) && r.offs <= offs && r.state.minAlign <= minAlign
    ensures forall h :: 0 <= h < |r.ops| ==> ObjAt(d, r.offs[h], Expected(r.ops[h]), offs, minAlign)
  {
    ExtendsPrefix(r.state.data, d);
    hide Extends, ObjAt, Expected;
    forall h | 0 <= h < |r.ops|
      ensures ObjAt(d, r.offs[h], Expected(r.ops[h]), offs, minAlign)
    {
      ObjFrame(d[..|d| - |r.state.data|], r.state.data, r.offs[h], Expected(r.ops[h]), r.offs, offs,
               r.state.minAlign, minAlign);
    }
  }

  lemma TableVTableKept(r: Run, h: nat, d: seq<byte>)
    requires ObjectsAt(r) && Extends(r.state.data, d) && h < |r.ops| && r.ops[h].MakeTable?
    ensures 4 <= r.offs[h] <= r.state.Size()
    ensures VTableOffset(d, r.offs[h]) == VTableOffset(r.state.data, r.offs[h])
  {
    TableHasVTable(r, h);
    ExtendsPrefix(r.state.data, d);
    ScalarFrame(d[..|d| - |r.state.data|], r.state.data, r.offs[h], 4);
  }

  /** What a step has to deliver beyond what was there. */
  ghost predicate Delivers(r: Run, op: Op, s: State, off: nat) {
    && Extends(r.state.data, s.data) && r.state.minAlign <= s.minAlign && Tracked(s.minAlign) && 4 <= s.minAlign
    && NotNested(s) && !s.finished && s.maxVoffset == 0
    && s.Size() < MAX_BUFFER_SIZE && 0 < off <= s.Size()
    && ObjAt(s.data, off, Expected(op), r.offs, s.minAlign)
    && VTablesGood(s) && (forall v <- r.state.vtables :: v in s.vtables)
    && (op.MakeTable? ==> 4 <= off && VTableOffset(s.data, off) in s.vtables)
    && PoolAt(s.data, s.pool) && (forall p <- r.state.pool :: p in s.pool)
    && (op.MakeSharedString? ==> off in s.pool)
  }

  lemma DeliveredObjects(r: Run, op: Op, s: State, off: nat)
    requires Inv(r) && Delivers(r, op, s, off)
    ensures ObjectsAt(Run(s, r.offs + [off], r.ops + [op]))
  {
    hide ObjAt, Expected, PoolAt, VTablesGood, Ready, TablesShareVTables, SharedInPool, Extends;
    var r' := Run(s, r.offs + [off], r.ops + [op]);
    ObjectsKept(r, s.data, r'.offs, s.minAlign);
    assert s.data == [] + s.data;
    ObjFrame([], s.data, off, Expected(op), r.offs, r'.offs, s.minAlign, s.minAlign);
  }

  lemma DeliveredTables(r: Run, op: Op, s: State, off: nat)
    requires Inv(r) && Delivers(r, op, s, off) && ObjectsAt(Run(s, r.offs + [off], r.ops + [op]))
    ensures TablesShareVTables(Run(s, r.offs + [off], r.ops + [op]))
  {
    var r' := Run(s, r.offs + [off], r.ops + [op]);
    assert r.state.Size() <= s.Size();
    hide ObjAt, PoolAt, VTablesGood, VTableOffset, Extends, ObjectsAt;
    forall h | 0 <= h < |r'.ops| && r'.ops[h].MakeTable?
      ensures 4 <= r'.offs[h] <= s.Size() && VTableOffset(s.data, r'.offs[h]) in s.vtables
    {
      if h < |r.ops| {
        assert r'.ops[h] == r.ops[h];
        TableVTableKept(r, h, s.data);
      }
    }
  }

  lemma DeliveredKeepsInvariant(r: Run, op: Op, s: State, off: nat)
    requires Inv(r) && Delivers(r, op, s, off)
    ensures Inv(Run(s, r.offs + [off], r.ops + [op]))
  {
    DeliveredObjects(r, op, s, off);
    DeliveredTables(r, op, s, off);
    hide ObjAt, VTablesGood, Extends, ObjectsAt, TablesShareVTables, Expected, Tracked, StrAt;
  }

  lemma StringDelivers(r: Run, b: seq<byte>)
    requires Inv(r) && CreateString(r.state, b).Size() < MAX_BUFFER_SIZE
    ensures var s := CreateString(r.state, b);
            Delivers(r, MakeString(b), s, s.Size())
  {
    hide ObjectsAt, TablesShareVTables, StrAt, CreateString;
    StringShort(r.state, b);
    CreateStringLands(r.state, b);
    var s := CreateString(r.state, b);
    VTablesGoodFrame(r.state, s);
    ExtendsPrefix(r.state.data, s.data);
    PoolFrame(s.data[..|s.data| - |r.state.data|], r.state.data, r.state.pool);
    hide VTablesGood, PoolAt, Extends;
  }

  lemma StringShort(s: State, b: seq<byte>)
    requires NotNested(s)
    ensures |b| <= CreateString(s, b).Size()
  {
    hide PaddingBytes;
  }

  /** Looking a string up in the pool finds the entry with the same bytes, if there is one. */
  lemma {:induction false} PoolFindSearches(d: seq<byte>, pool: seq<nat>, off: nat)
    requires StringIn(d, off) && forall p <- pool :: StringIn(d, p)
    ensures match PoolFind(d, pool, off)
            case Some(p) => p in pool && StringData(d, p) == StringData(d, off)
            case None => forall p <- pool :: StringData(d, p) != StringData(d, off)
  {
    hide StringIn, StringData, StringLessThan;
    if pool != [] {
      assert forall p <- pool[1..] :: p in pool;
      EquivalentIsEqual(StringData(d, pool[0]), StringData(d, off));
      PoolFindSearches(d, pool[1..], off);
    }
  }

  lemma PoolAlwaysUsable(s: State, b: seq<byte>)
    requires NotNested(s) && PoolAt(s.data, s.pool) && Tracked(s.minAlign) && CreateString(s, b).Size() < MAX_BUFFER_SIZE
    ensures PoolUsable(s, b)
  {
    StringShort(s, b);
    CreateStringLands(s, b);
    var made := CreateString(s, b);
    hide CreateString, StringData;
    ExtendsPrefix(s.data, made.data);
    PoolFrame(made.data[..|made.data| - |s.data|], s.data, s.pool);
  }

  /** A repeated shared string returns the earlier offset and leaves the data as it was. */
  lemma SharedStringRepeats(s: State, b: seq<byte>)
    requires NotNested(s) && PoolAt(s.data, s.pool) && Tracked(s.minAlign) && CreateString(s, b).Size() < MAX_BUFFER_SIZE
    requires PoolUsable(s, b)
    ensures var (r, off) := CreateSharedString(s, b);
            if exists p <- s.pool :: StringData(s.data, p) == b
            then r == s.(minAlign := CreateString(s, b).minAlign) && off in s.pool && StringData(s.data, off) == b
            else r == CreateString(s, b).(pool := s.pool + [off]) && off == CreateString(s, b).Size()
  {
    hide CreateString, StringIn, StringData, StringLessThan, PoolFind, PoolAt, StrAt;
    StringShort(s, b);
    CreateStringLands(s, b);
    var made := CreateString(s, b);
    StrAtData(made.data, made.Size(), b);
    PoolFindSearches(made.data, s.pool, made.Size());
    PoolSurvives(s.data, made.data, s.pool);
    assert made.data[made.Size() - s.Size()..] == s.data;
  }

  lemma StrAtData(d: seq<byte>, off: nat, str: seq<byte>)
    requires StrAt(d, off, str)
    ensures StringIn(d, off) && StringData(d, off) == str
  {
  }

  lemma PoolSurvives(d: seq<byte>, d': seq<byte>, pool: seq<nat>)
    requires PoolAt(d, pool) && Extends(d, d')
    ensures forall p <- pool :: StringIn(d, p) && StringIn(d', p) && StringData(d', p) == StringData(d, p)
  {
    hide StringIn, StringData, StrAt;
    ExtendsPrefix(d, d');
    PoolFrame(d'[..|d'| - |d|], d, pool);
  }

  lemma PoolExtended(d: seq<byte>, pool: seq<nat>, off: nat, b: seq<byte>)
    requires PoolAt(d, pool) && StrAt(d, off, b)
    requires forall p <- pool :: StringData(d, p) != b
    ensures PoolAt(d, pool + [off])
  {
    hide StringIn, StringData;
  }

  lemma SharedStringDelivers(r: Run, b: seq<byte>)
    requires Inv(r) && CreateString(r.state, b).Size() < MAX_BUFFER_SIZE && PoolUsable(r.state, b)
    ensures var (s, off) := CreateSharedString(r.state, b);
            Delivers(r, MakeSharedString(b), s, off)
  {
    SharedStringRepeats(r.state, b);
    StringDelivers(r, b);
    var (s, off) := CreateSharedString(r.state, b);
    hide Inv, CreateString, CreateSharedString, StringData, PoolUsable, ObjectsAt, VTablesGood, Extends, PoolAt;
    if p :| p in r.state.pool && StringData(r.state.data, p) == b {
      SharedStringFound(r, b, s, off);
    } else {
      SharedStringNew(r, b, s, off);
    }
  }

  lemma SharedStringNew(r: Run, b: seq<byte>, s: State, off: nat)
    requires Inv(r) && NotNested(r.state) && off == CreateString(r.state, b).Size()
    requires Delivers(r, MakeString(b), CreateString(r.state, b), off)
    requires s == CreateString(r.state, b).(pool := r.state.pool + [off])
    requires forall p <- r.state.pool :: StringData(r.state.data, p) != b
    ensures Delivers(r, MakeSharedString(b), s, off)
  {
    var made := CreateString(r.state, b);
    assert made.pool == r.state.pool;
    ExtendsPrefix(r.state.data, made.data);
    PoolFrame(made.data[..|made.data| - |r.state.data|], r.state.data, r.state.pool);
    hide Inv, StrAt, CreateString, StringData, PoolAt, VTableAt, VTableContents, Extends, StringIn;
    PoolExtended(made.data, r.state.pool, off, b);
  }

  lemma SharedStringFound(r: Run, b: seq<byte>, s: State, off: nat)
    requires Inv(r) && off in r.state.pool && StringData(r.state.data, off) == b
    requires s == r.state.(minAlign := s.minAlign) && Tracked(s.minAlign) && r.state.minAlign <= s.minAlign && 4 <= s.minAlign
    ensures Delivers(r, MakeSharedString(b), s, off)
  {
    hide ObjectsAt, TablesShareVTables, VTableAt, VTableContents, StringData;
  }

  /** Once the fields are legal, only a table that is too large or stores the largest field cannot be ended. */
  lemma TableFailsOnlyOnSize(r: Run, fields: seq<FieldOp>)
    requires Inv(r) && FieldsLegal(fields, |r.offs|) && FilledTable(r.state, fields, r.offs).Size() < MAX_BUFFER_SIZE
    ensures var filled := FilledTable(r.state, fields, r.offs);
            CanEndTable(filled, r.state.Size()) <==>
              Align(filled, 4).Size() + 4 - r.state.Size() < TWO_16 && LARGEST_FIELD !in ExpectedFields(fields)
  {
    hide Inv, FilledTable, FieldsLegal, Align, FieldAt, DistinctIds, MaxTracked, VTableCovers, FieldId, ExpectedFields;
    InvReady(r);
    AddFieldsOpen(r.state, fields, r.offs);
    var filled := FilledTable(r.state, fields, r.offs);
    CoversUnlessLargest(filled);
    LargestTracked(filled.fields);
    forall f | f in filled.fields
      ensures FieldId(f.id) && f.id <= filled.maxVoffset && r.state.Size() <= f.off <= filled.Size()
    {
      assert OpenField(filled, r.state.Size(), f, ExpectedFields(fields), r.offs);
    }
  }

  lemma InvReady(r: Run)
    requires Inv(r)
    ensures Ready(r.state, r.offs) && Tracked(r.state.minAlign)
  {
    hide Ready, VTablesGood, ObjectsAt, TablesShareVTables, PoolAt, SharedInPool;
  }

  lemma LargestTracked(fields: seq<FieldLoc>)
    requires forall f <- fields :: FieldId(f.id)
    ensures LARGEST_FIELD in Ids(fields) <==> exists f <- fields :: f.id >= LARGEST_FIELD
  {
  }

  lemma FilledVTables(r: Run, fields: seq<FieldOp>)
    requires Inv(r) && FieldsLegal(fields, |r.offs|) && FilledTable(r.state, fields, r.offs).Size() < MAX_BUFFER_SIZE
    ensures var filled := FilledTable(r.state, fields, r.offs);
            && OnlyFields(StartTable(r.state), filled) && VTablesGood(filled)
            && Open(filled, r.state.Size(), ExpectedFields(fields), r.offs)
  {
    AddFieldsOpen(r.state, fields, r.offs);
    hide FilledTable, FieldsLegal, Open, ObjectsAt, TablesShareVTables, Extends, VTableAt, VTableContents;
    VTablesGoodFrame(r.state, FilledTable(r.state, fields, r.offs));
  }

  lemma TableLands(s: State, start: nat, m: map<nat, FieldVal>, offs: seq<nat>)
    requires CanEndTable(s, start) && Open(s, start, m, offs) && VTablesGood(s)
    requires WithVTable(s, start).Size() < MAX_BUFFER_SIZE
    ensures var (r, loc) := EndTable(s, start);
            && Extends(s.data, r.data) && s.minAlign <= r.minAlign && Tracked(r.minAlign) && 4 <= r.minAlign
            && r == s.(data := r.data, minAlign := r.minAlign, fields := [], maxVoffset := 0, nested := false, vtables := r.vtables)
            && r.Size() < MAX_BUFFER_SIZE && 4 <= loc <= r.Size()
            && TableAt(r.data, loc, m, offs, r.minAlign)
            && VTablesGood(r) && (forall v <- s.vtables :: v in r.vtables)
            && VTableOffset(r.data, loc) in r.vtables
  {
    EndTableSmaller(s, start);
    EndTableLands(s, start, m, offs);
    VTablesRemembered(s, start, m, offs);
    EndTableState(s, start);
    EndTableExtends(s, start);
    hide EndTable, CanEndTable, WithVTable, Open, Extends, TableAt, VTablesAt, DistinctVTables, VTableOffset, VTableUsed;
    hide Reused, VTableContents, OpenVTable;
  }

  lemma EndTableSmaller(s: State, start: nat)
    requires CanEndTable(s, start)
    ensures EndTable(s, start).0.Size() <= WithVTable(s, start).Size() && s.Size() <= WithVTable(s, start).Size()
  {
    hide PaddingBytes, OpenVTable, FindVTable, CanEndTable;
  }

  lemma PoolKept(s: State, s': State)
    requires PoolAt(s.data, s.pool) && Extends(s.data, s'.data) && s'.pool == s.pool
    ensures PoolAt(s'.data, s'.pool)
  {
    ExtendsPrefix(s.data, s'.data);
    hide PoolAt;
    PoolFrame(s'.data[..|s'.data| - |s.data|], s.data, s.pool);
  }

  lemma TableDelivers(r: Run, fields: seq<FieldOp>)
    requires Inv(r) && FieldsLegal(fields, |r.offs|)
    requires var filled := FilledTable(r.state, fields, r.offs);
             CanEndTable(filled, r.state.Size()) && WithVTable(filled, r.state.Size()).Size() < MAX_BUFFER_SIZE
    ensures var filled := FilledTable(r.state, fields, r.offs);
            var (s, off) := EndTable(filled, r.state.Size());
            Delivers(r, MakeTable(fields), s, off)
  {
    hide FilledTable, EndTable, CanEndTable, WithVTable, Open, Extends, TableAt, ObjectsAt, TablesShareVTables, PoolAt;
    hide FieldsLegal, VTableOffset, VTablesGood;
    var start, filled, m := r.state.Size(), FilledTable(r.state, fields, r.offs), ExpectedFields(fields);
    EndTableSmaller(filled, start);
    FilledVTables(r, fields);
    TableLands(filled, start, m, r.offs);
    var (s, off) := EndTable(filled, start);
    ExtendsTransitive(r.state.data, filled.data, s.data);
    PoolKept(r.state, s);
  }

  // ---------- runs ----------

  lemma StepKeepsInvariant(r: Run, op: Op)
    requires Inv(r) && Step(r, op).Some?
    ensures Inv(Step(r, op).value)
    ensures Step(r, op).value.ops == r.ops + [op] && Step(r, op).value.offs[..|r.offs|] == r.offs
  {
    var r' := Step(r, op).value;
    var s, off := r'.state, r'.offs[|r.offs|];
    match op {
      case MakeString(b) => StringDelivers(r, b);
      case MakeSharedString(b) => SharedStringDelivers(r, b);
      case MakeTable(fields) => TableDelivers(r, fields);
    }
    hide Inv, Delivers, CreateString, CreateSharedString, EndTable, WithVTable, FilledTable, FieldsLegal, CanEndTable, Ready;
    DeliveredKeepsInvariant(r, op, s, off);
  }

  lemma StartInvariant(dedup: bool)
    ensures Inv(Start(dedup)) && Start(dedup).ops == []
  {
  }

  /** Every run keeps the invariant, with and without vtable deduplication. */
  lemma {:induction false} RunsKeepInvariant(dedup: bool, ops: seq<Op>)
    requires Steps(Start(dedup), ops).Some?
    ensures Inv(Steps(Start(dedup), ops).value)
    ensures Steps(Start(dedup), ops).value.ops == ops
    decreases |ops|
  {
    hide Inv, Step, Start;
    if ops == [] {
      StartInvariant(dedup);
    } else {
      RunsKeepInvariant(dedup, ops[..|ops| - 1]);
      StepKeepsInvariant(Steps(Start(dedup), ops[..|ops| - 1]).value, ops[|ops| - 1]);
    }
  }

  /** A legal step fails only on the buffer's size, on a table's size, or on a table that stores the largest field. */
  lemma StepFailsOnlyOnSize(r: Run, op: Op)
    requires Inv(r) && OpLegal(op, |r.offs|)
    ensures Step(r, op).Some? <==>
            && Peak(r.state, r.offs, op) < MAX_BUFFER_SIZE
            && (op.MakeTable? ==>
                  && Align(FilledTable(r.state, op.fields, r.offs), 4).Size() + 4 - r.state.Size() < TWO_16
                  && LARGEST_FIELD !in ExpectedFields(op.fields))
  {
    if Peak(r.state, r.offs, op) < MAX_BUFFER_SIZE {
      match op {
        case MakeString(b) =>
        case MakeSharedString(b) => PoolAlwaysUsable(r.state, b);
        case MakeTable(fields) =>
          var filled := FilledTable(r.state, fields, r.offs);
          if CanEndTable(filled, r.state.Size()) {
            EndTableSmaller(filled, r.state.Size());
          }
          TableFailsOnlyOnSize(r, fields);
      }
    }
    hide Inv, CreateString, CreateSharedString, EndTable, WithVTable, FilledTable, FieldsLegal, CanEndTable, Align, PoolUsable;
    assert Ready(r.state, r.offs);
  }

  // ---------- how much a run needs ----------

  /** Bytes that are enough for a step, whatever the alignment. */
  function Budget(op: Op): nat {
    match op
    case MakeString(b) => |b| + 9
    case MakeSharedString(b) => |b| + 9
    case MakeTable(fields) => 16 * |fields| + 12 + MaxId(fields)
  }

  function TotalBudget(ops: seq<Op>): nat
    decreases |ops|
  {
    if ops == [] then 0 else TotalBudget(ops[..|ops| - 1]) + Budget(ops[|ops| - 1])
  }

  function MaxId(fields: seq<FieldOp>): nat
    decreases |fields|
  {
    if fields == [] then 0
    else
      var m := MaxId(fields[..|fields| - 1]);
      if fields[|fields| - 1].id > m then fields[|fields| - 1].id else m
  }

  lemma {:induction false} MaxIdBounds(fields: seq<FieldOp>)
    ensures forall f <- fields :: f.id <= MaxId(fields)
    decreases |fields|
  {
    if fields != [] {
      MaxIdBounds(fields[..|fields| - 1]);
      assert fields == fields[..|fields| - 1] + [fields[|fields| - 1]];
    }
  }

  lemma AddFieldNeeds(s: State, f: FieldOp, offs: seq<nat>)
    requires FieldLegal(f, |offs|) && Tracked(s.minAlign) && forall o <- offs :: o <= s.Size()
    ensures var r := AddField(s, f, offs);
            && s.Size() <= r.Size() <= s.Size() + 16 && Tracked(r.minAlign)
            && (r.maxVoffset <= s.maxVoffset || r.maxVoffset == f.id)
  {
    match f
    case AddScalar(id, w, v, def) =>
      AlignExtends(s, w);
      hide PaddingBytes, Align, LE, Extends;
    case AddReference(id, None) =>
    case AddReference(id, Some(h)) =>
      assert offs[h] in offs;
      AlignExtends(s, 4);
      AlignWhenAligned(Align(s, 4), 4);
      hide PaddingBytes, Align, LE, Extends;
  }

  lemma {:induction false} AddFieldsNeed(s: State, fields: seq<FieldOp>, offs: seq<nat>)
    requires (forall f <- fields :: FieldLegal(f, |offs|)) && Tracked(s.minAlign) && (forall o <- offs :: o <= s.Size())
    requires s.maxVoffset == 0
    ensures var r := AddFields(s, fields, offs);
            r.Size() <= s.Size() + 16 * |fields| && Tracked(r.minAlign) && r.maxVoffset <= MaxId(fields)
    decreases |fields|
  {
    if fields != [] {
      AddFieldsNeed(s, fields[..|fields| - 1], offs);
      AddFieldNeeds(AddFields(s, fields[..|fields| - 1], offs), fields[|fields| - 1], offs);
    }
    hide AddField, FieldLegal;
  }

  predicate SmallTable(fields: seq<FieldOp>) {
    16 * |fields| + 8 < TWO_16 && MaxId(fields) < LARGEST_FIELD
  }

  /** With enough room left and a small enough table, a legal step succeeds and uses no more than its budget. */
  lemma StepWithinBudget(r: Run, op: Op)
    requires Inv(r) && OpLegal(op, |r.offs|) && r.state.Size() + Budget(op) < MAX_BUFFER_SIZE
    requires op.MakeTable? ==> SmallTable(op.fields)
    ensures Step(r, op).Some? && Step(r, op).value.state.Size() <= r.state.Size() + Budget(op)
  {
    hide CreateString, AddFields, EndTable;
    assert Ready(r.state, r.offs) && Tracked(r.state.minAlign);
    match op {
      case MakeString(b) => StringNeeds(r.state, b);
      case MakeSharedString(b) => SharedStringNeeds(r, b);
      case MakeTable(fields) => TableNeeds(r, fields);
    }
    StepFailsOnlyOnSize(r, op);
    hide Inv, CreateSharedString, WithVTable, FilledTable, Align, CanEndTable, PoolUsable;
  }

  lemma StringNeeds(s: State, b: seq<byte>)
    requires NotNested(s) && Tracked(s.minAlign)
    ensures CreateString(s, b).Size() <= s.Size() + |b| + 9
  {
    StringBodyExtends(s, b);
    CreateStringIsBodyAndLength(s, b);
    hide CreateString, StringBody, Extends;
  }

  lemma SharedStringNeeds(r: Run, b: seq<byte>)
    requires Inv(r) && r.state.Size() + |b| + 9 < MAX_BUFFER_SIZE
    ensures CreateString(r.state, b).Size() < MAX_BUFFER_SIZE && PoolUsable(r.state, b)
    ensures CreateSharedString(r.state, b).0.Size() <= r.state.Size() + |b| + 9
  {
    StringNeeds(r.state, b);
    PoolAlwaysUsable(r.state, b);
    hide CreateString, StringIn, PoolFind, ObjectsAt, TablesShareVTables, VTablesGood, PoolAt, SharedInPool;
  }

  lemma TableNeeds(r: Run, fields: seq<FieldOp>)
    requires Inv(r) && FieldsLegal(fields, |r.offs|) && r.state.Size() + Budget(MakeTable(fields)) < MAX_BUFFER_SIZE
    requires SmallTable(fields)
    ensures var filled := FilledTable(r.state, fields, r.offs);
            && Align(filled, 4).Size() + 4 - r.state.Size() < TWO_16
            && CanEndTable(filled, r.state.Size())
            && WithVTable(filled, r.state.Size()).Size() <= r.state.Size() + Budget(MakeTable(fields))
            && EndTable(filled, r.state.Size()).0.Size() <= r.state.Size() + Budget(MakeTable(fields))
  {
    hide AddFields, EndTable, PaddingBytes, OpenVTable, ObjectsAt, TablesShareVTables, VTablesGood, PoolAt, SharedInPool;
    hide Extends, CanEndTable;
    AddFieldsNeed(StartTable(r.state), fields, r.offs);
    var filled := FilledTable(r.state, fields, r.offs);
    AlignExtends(filled, 4);
    MaxIdBounds(fields);
    ExpectedIds(fields, LARGEST_FIELD);
    TableFailsOnlyOnSize(r, fields);
    EndTableSmaller(filled, r.state.Size());
    PushSize(filled);
  }

  predicate OpsLegal(ops: seq<Op>) {
    forall i :: 0 <= i < |ops| ==> OpLegal(ops[i], i) && (ops[i].MakeTable? ==> SmallTable(ops[i].fields))
  }

  /** A legal run whose strings and tables fit the buffer never hits an assertion of the builder. */
  lemma {:induction false} RunsSucceed(dedup: bool, ops: seq<Op>)
    requires OpsLegal(ops) && TotalBudget(ops) < MAX_BUFFER_SIZE
    ensures Steps(Start(dedup), ops).Some?
    ensures Steps(Start(dedup), ops).value.state.Size() <= TotalBudget(ops)
    decreases |ops|
  {
    hide Inv, Step, Start, Budget, OpLegal;
    if ops == [] {
      StartInvariant(dedup);
      StartEmpty(dedup);
    } else {
      var before, op := ops[..|ops| - 1], ops[|ops| - 1];
      RunsSucceed(dedup, before);
      RunsKeepInvariant(dedup, before);
      var r := Steps(Start(dedup), before).value;
      InvLengths(r);
      StepWithinBudget(r, op);
    }
  }

  lemma StartEmpty(dedup: bool)
    ensures Start(dedup).state.Size() == 0
  {
  }

  lemma InvLengths(r: Run)
    requires Inv(r)
    ensures |r.offs| == |r.ops|
  {
    hide Ready, VTablesGood, TablesShareVTables, PoolAt, SharedInPool, ObjAt;
  }
}
