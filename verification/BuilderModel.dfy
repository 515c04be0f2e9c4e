/**
 The state of a FlatBufferBuilder as a value, and each of its steps as a function.
 Bytes are addressed by their distance from the END of the buffer, as offsets are: pushing
 prepends to `data`, so an offset keeps its meaning whatever is built afterwards.
 */
module BuilderModel {
  import opened Wrappers
  import opened Bytes
  import opened Alignment
  import opened StringOrder

  type pos = n: nat | n > 0 witness 1

  const MAX_BUFFER_SIZE := TWO_31 - 1
  const FILE_IDENTIFIER_LENGTH := 4

  /** Where a field of the table under construction was written. */
  datatype FieldLoc = FieldLoc(off: nat, id: nat)

  /**
   `vtables` and `fields` are the two parts of the scratch area: the offsets of the remembered
   vtables, then the fields of the open table.
   */
  datatype State = State(
    data: seq<byte>,
    vtables: seq<nat>,
    fields: seq<FieldLoc>,
    maxVoffset: nat,
    nested: bool,
    finished: bool,
    minAlign: pos,
    dedup: bool,
    pool: seq<nat>)
  {
    function Size(): nat {
      |data|
    }
  }

  const Empty := State([], [], [], 0, false, false, 1, true, [])

  predicate NotNested(s: State) {
    !s.nested && s.fields == []
  }

  // ---------- raw bytes ----------

  /** The w-byte scalar stored at end-offset `off`. */
  function Scalar(d: seq<byte>, off: nat, w: nat): nat
    requires w <= off <= |d|
  {
    FromLE(d[|d| - off..|d| - off + w])
  }

  function WriteScalar(d: seq<byte>, pos: nat, v: nat, w: nat): (r: seq<byte>)
    requires pos + w <= |d|
    ensures |r| == |d|
  {
    d[..pos] + LE(v, w) + d[pos + w..]
  }

  function Push(s: State, bytes: seq<byte>): State {
    s.(data := bytes + s.data)
  }

  function Pop(s: State, n: nat): State
    requires n <= s.Size()
  {
    s.(data := s.data[n..])
  }

  function TrackMinAlign(s: State, size: nat): State {
    s.(minAlign := if size > s.minAlign then size else s.minAlign)
  }

  function Align(s: State, size: nat): State
    requires size > 0
  {
    Push(TrackMinAlign(s, size), Zeros(PaddingBytes(s.Size(), size)))
  }

  function PreAlign(s: State, len: nat, alignment: nat): State
    requires alignment > 0
  {
    if len == 0 then s
    else Push(TrackMinAlign(s, alignment), Zeros(PaddingBytes(s.Size() + len, alignment)))
  }

  function PushElement(s: State, v: nat, w: nat): State
    requires w > 0
  {
    Push(Align(s, w), LE(v, w))
  }

  // ---------- tables ----------

  /** The sizes of the scalars that a table can hold. */
  predicate ScalarWidth(w: nat) {
    w == 1 || w == 2 || w == 4 || w == 8
  }

  function TrackField(s: State, id: nat, off: nat): State {
    s.(fields := s.fields + [FieldLoc(off, id)],
       maxVoffset := if id > s.maxVoffset then id else s.maxVoffset)
  }

  function AddElement(s: State, id: nat, v: nat, def: nat, w: nat): State
    requires w > 0
  {
    if v == def then s else
      var pushed := PushElement(s, v, w);
      TrackField(pushed, id, pushed.Size())
  }

  /** The relative offset to `off` if it is stored right after the current bytes. */
  function ReferTo(s: State, off: nat): nat
    requires 0 < off <= s.Size()
  {
    s.Size() - off + 4
  }

  function AddOffset(s: State, id: nat, off: nat): State
    requires off <= s.Size()
  {
    if off == 0 then s else
      var aligned := Align(s, 4);
      AddElement(aligned, id, ReferTo(aligned, off), 0, 4)
  }

  function StartTable(s: State): State
    requires NotNested(s)
  {
    s.(nested := true)
  }

  /** The largest identifier that FieldIndexToOffset lets through. */
  const LARGEST_FIELD := 0xFFFE

  /** What FieldIndexToOffset returns: the identifiers 4, 6, 8, ... up to the largest. */
  predicate FieldId(id: nat) {
    4 <= id <= LARGEST_FIELD && id % 2 == 0
  }

  /** The size of the vtable, a 16-bit number that may wrap. */
  function VTableSize(s: State): (size: nat)
    ensures 4 <= size < TWO_16
  {
    var next := Wrap16(s.maxVoffset + 2);
    if next > 4 then next else 4
  }

  /** Every tracked field has its slot inside the vtable. */
  predicate VTableCovers(s: State) {
    forall f <- s.fields :: f.id + 2 <= VTableSize(s)
  }

  predicate DistinctIds(fields: seq<FieldLoc>) {
    forall i, j :: 0 <= i < j < |fields| ==> fields[i].id != fields[j].id
  }

  /** What EndTable relies on and asserts: a slot for each field, no field set twice, and 16-bit table offsets. */
  predicate CanEndTable(s: State, start: nat) {
    && s.nested
    && start <= s.Size()
    && VTableCovers(s)
    && (forall f <- s.fields :: FieldId(f.id) && f.id <= s.maxVoffset && start <= f.off <= s.Size())
    && DistinctIds(s.fields)
    && Align(s, 4).Size() + 4 - start < TWO_16
  }

  // ---------- the largest field ----------

  /** The largest offset is that of a tracked field. */
  predicate MaxTracked(s: State) {
    && (forall f <- s.fields :: FieldId(f.id) && f.id <= s.maxVoffset)
    && (if s.fields == [] then s.maxVoffset == 0 else exists f <- s.fields :: f.id == s.maxVoffset)
  }

  /** Between StartTable and EndTable this holds from the beginning, and tracking a field keeps it. */
  lemma TrackKeepsMax(s: State, id: nat, off: nat)
    requires MaxTracked(s) && FieldId(id)
    ensures MaxTracked(TrackField(s, id, off))
  {
    var r := TrackField(s, id, off);
    assert FieldLoc(off, id) == r.fields[|s.fields|];
    if s.fields != [] && id <= s.maxVoffset {
      var f :| f in s.fields && f.id == s.maxVoffset;
      assert f in r.fields;
    }
  }

  /** The vtable covers every tracked field exactly when the largest identifier is not among them. */
  lemma CoversUnlessLargest(s: State)
    requires MaxTracked(s)
    ensures VTableCovers(s) <==> forall f <- s.fields :: f.id < LARGEST_FIELD
  {
    if s.fields != [] {
      var f :| f in s.fields && f.id == s.maxVoffset;
      if s.maxVoffset == LARGEST_FIELD {
        assert !(f.id + 2 <= VTableSize(s));
      }
    }
  }

  /** A table whose only field is the largest gets a vtable of 4 bytes, and the field's slot is outside of it. */
  lemma LargestFieldWraps()
    ensures var s := AddElement(StartTable(Empty), LARGEST_FIELD, 1, 0, 4);
            && s.fields == [FieldLoc(s.Size(), LARGEST_FIELD)] && FieldId(LARGEST_FIELD)
            && VTableSize(s) == 4 && LARGEST_FIELD >= VTableSize(s) && !CanEndTable(s, 0)
  {
    hide PaddingBytes, LE;
    var s := AddElement(StartTable(Empty), LARGEST_FIELD, 1, 0, 4);
    assert s.maxVoffset == LARGEST_FIELD;
    assert s.fields[0] == FieldLoc(s.Size(), LARGEST_FIELD) && s.fields[0] in s.fields;
  }

  // ---------- vtables ----------

  function FillSlots(vt: seq<byte>, loc: nat, fields: seq<FieldLoc>): (r: seq<byte>)
    requires forall f <- fields :: f.id + 2 <= |vt| && f.off <= loc
    ensures |r| == |vt|
    decreases |fields|
  {
    if fields == [] then vt
    else
      var rest, last := fields[..|fields| - 1], fields[|fields| - 1];
      WriteScalar(FillSlots(vt, loc, rest), last.id, loc - last.off, 2)
  }

  function VTableBytes(size: nat, tableSize: nat, loc: nat, fields: seq<FieldLoc>): (r: seq<byte>)
    requires 4 <= size
    requires forall f <- fields :: f.id + 2 <= size && f.off <= loc
    ensures |r| == size
  {
    FillSlots(WriteScalar(WriteScalar(Zeros(size), 2, tableSize, 2), 0, size, 2), loc, fields)
  }

  predicate VTableMatches(d: seq<byte>, off: nat, vt: seq<byte>) {
    && 2 <= off <= |d|
    && Scalar(d, off, 2) == |vt|
    && |vt| <= off
    && d[|d| - off..|d| - off + |vt|] == vt
  }

  /** The first remembered vtable with exactly these bytes. */
  function FindVTable(d: seq<byte>, vtables: seq<nat>, vt: seq<byte>): (r: Option<nat>)
  {
    if vtables == [] then None
    else if VTableMatches(d, vtables[0], vt) then Some(vtables[0])
    else FindVTable(d, vtables[1..], vt)
  }

  /** The bytes of the vtable EndTable writes for the open table. */
  function OpenVTable(s: State, start: nat): (vt: seq<byte>)
    requires CanEndTable(s, start)
    ensures |vt| == VTableSize(s)
  {
    var loc := PushElement(s, 0, 4).Size();
    VTableBytes(VTableSize(s), loc - start, loc, s.fields)
  }

  /** The buffer once the vtable slot and the new vtable are pushed. */
  function WithVTable(s: State, start: nat): State
    requires CanEndTable(s, start)
  {
    Push(PushElement(s, 0, 4), OpenVTable(s, start)).(fields := [], maxVoffset := 0)
  }

  /** The earlier vtable the new table can share, when deduplication is on. */
  function Reused(s: State, start: nat): Option<nat>
    requires CanEndTable(s, start)
  {
    if s.dedup then FindVTable(WithVTable(s, start).data, s.vtables, OpenVTable(s, start)) else None
  }

  function EndTable(s: State, start: nat): (r: (State, nat))
    requires CanEndTable(s, start)
  {
    var loc := PushElement(s, 0, 4).Size();
    var full := WithVTable(s, start);
    var reused := Reused(s, start);
    var kept := if reused.Some? then Pop(full, full.Size() - loc) else full;
    var vtUse := if reused.Some? then reused.value else full.Size();
    var vtables := if vtUse == kept.Size() then kept.vtables + [vtUse] else kept.vtables;
    (kept.(data := WriteScalar(kept.data, kept.Size() - loc, Wrap32(vtUse - loc), 4),
           vtables := vtables, nested := false), loc)
  }

  // ---------- strings ----------

  function CreateString(s: State, str: seq<byte>): State
    requires NotNested(s)
  {
    PushElement(Push(Push(PreAlign(s, |str| + 1, 4), Zeros(1)), str), |str|, 4)
  }

  predicate StringIn(d: seq<byte>, off: nat) {
    4 <= off <= |d| && 4 + Scalar(d, off, 4) <= off
  }

  /** The contents of the string stored at end-offset `off`. */
  function StringData(d: seq<byte>, off: nat): seq<byte>
    requires StringIn(d, off)
  {
    var pos := |d| - off + 4;
    d[pos..pos + Scalar(d, off, 4)]
  }

  /** Lookup in the pool: the entry that neither precedes nor follows the string at `off`. */
  function PoolFind(d: seq<byte>, pool: seq<nat>, off: nat): (r: Option<nat>)
    requires StringIn(d, off) && forall p <- pool :: StringIn(d, p)
  {
    if pool == [] then None
    else if !StringLessThan(StringData(d, pool[0]), StringData(d, off))
         && !StringLessThan(StringData(d, off), StringData(d, pool[0])) then Some(pool[0])
    else PoolFind(d, pool[1..], off)
  }

  predicate PoolUsable(s: State, str: seq<byte>)
    requires NotNested(s)
  {
    var made := CreateString(s, str);
    StringIn(made.data, made.Size()) && forall p <- s.pool :: StringIn(made.data, p)
  }

  function CreateSharedString(s: State, str: seq<byte>): (r: (State, nat))
    requires NotNested(s) && PoolUsable(s, str)
  {
    var made := CreateString(s, str);
    var off := made.Size();
    match PoolFind(made.data, s.pool, off)
    case Some(p) => (Pop(made, off - s.Size()), p)
    case None => (made.(pool := s.pool + [off]), off)
  }

  // ---------- finishing ----------

  function Finish(s: State, root: nat, fileId: Option<seq<byte>>, sizePrefix: bool): State
    requires !s.finished && NotNested(s) && 0 < root <= s.Size()
    requires fileId.Some? ==> |fileId.value| == FILE_IDENTIFIER_LENGTH
  {
    var prefix := if sizePrefix then 4 else 0;
    var idBytes := if fileId.Some? then fileId.value else [];
    var s1 := TrackMinAlign(s.(vtables := []), prefix);
    var s2 := Push(PreAlign(s1, prefix + 4 + |idBytes|, s1.minAlign), idBytes);
    var s3 := Align(s2, 4);
    var s4 := PushElement(s3, ReferTo(s3, root), 4);
    var s5 := if sizePrefix then PushElement(s4, s4.Size(), 4) else s4;
    s5.(finished := true)
  }
}
