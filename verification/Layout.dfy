/** What a finished object looks like in the buffer, and how each builder step produces it. */
module Layout {
  import opened Wrappers
  import opened Bytes
  import opened Alignment
  import opened BuilderModel

  // ---------- scalars under growth and in-place writes ----------

  /** Building more prepends bytes; what was readable at an end-offset stays readable there. */
  lemma ScalarFrame(x: seq<byte>, d: seq<byte>, off: nat, w: nat)
    requires w <= off <= |d|
    ensures Scalar(x + d, off, w) == Scalar(d, off, w)
  {
    assert (x + d)[|x + d| - off..|x + d| - off + w] == d[|d| - off..|d| - off + w];
  }

  lemma ScalarOfPush(d: seq<byte>, v: nat, w: nat)
    requires v < Pow256(w)
    ensures Scalar(LE(v, w) + d, |d| + w, w) == v
  {
    assert (LE(v, w) + d)[0..w] == LE(v, w);
    ReadsBackExactly(v, w);
  }

  lemma WriteThenRead(d: seq<byte>, pos: nat, v: nat, w: nat)
    requires pos + w <= |d| && v < Pow256(w)
    ensures FromLE(WriteScalar(d, pos, v, w)[pos..pos + w]) == v
  {
    assert WriteScalar(d, pos, v, w)[pos..pos + w] == LE(v, w);
    ReadsBackExactly(v, w);
  }

  lemma WriteElsewhere(d: seq<byte>, pos: nat, v: nat, w: nat, at: nat, n: nat)
    requires pos + w <= |d| && at + n <= |d|
    requires at + n <= pos || pos + w <= at
    ensures WriteScalar(d, pos, v, w)[at..at + n] == d[at..at + n]
  {
  }

  lemma ZerosReadZero(n: nat)
    ensures FromLE(Zeros(n)) == 0
  {
    if n > 0 {
      ZerosReadZero(n - 1);
      assert Zeros(n)[1..] == Zeros(n - 1);
    }
  }

  // ---------- vtable contents ----------

  function SlotOf(vt: seq<byte>, id: nat): nat
    requires id + 2 <= |vt|
  {
    FromLE(vt[id..id + 2])
  }

  predicate Unset(fields: seq<FieldLoc>, id: nat) {
    forall f <- fields :: f.id != id
  }

  predicate SlotFields(vt: seq<byte>, loc: nat, fields: seq<FieldLoc>)
  {
    && DistinctIds(fields)
    && forall f <- fields :: FieldId(f.id) && f.id + 2 <= |vt| && f.off <= loc && loc - f.off < TWO_16
  }

  /** Each slot of a filled vtable holds its field's table offset; the other slots keep their value. */
  lemma {:induction false} SlotsFilled(vt: seq<byte>, loc: nat, fields: seq<FieldLoc>, id: nat)
    requires SlotFields(vt, loc, fields) && id % 2 == 0 && id + 2 <= |vt|
    ensures forall i :: 0 <= i < |fields| && fields[i].id == id ==>
              SlotOf(FillSlots(vt, loc, fields), id) == loc - fields[i].off
    ensures Unset(fields, id) ==> SlotOf(FillSlots(vt, loc, fields), id) == SlotOf(vt, id)
    decreases |fields|
  {
    hide WriteScalar, FromLE, LE, Pow256;
    if fields != [] {
      var rest, last := fields[..|fields| - 1], fields[|fields| - 1];
      SlotsFilled(vt, loc, rest, id);
      var filled := FillSlots(vt, loc, rest);
      Pow256Values();
      if last.id == id {
        WriteThenRead(filled, id, loc - last.off, 2);
      } else {
        WriteElsewhere(filled, last.id, loc - last.off, 2, id, 2);
      }
    }
  }

  lemma BlankVTable(size: nat, tableSize: nat, id: nat)
    requires 4 <= size < TWO_16 && tableSize < TWO_16 && id % 2 == 0 && id + 2 <= size
    ensures var vt := WriteScalar(WriteScalar(Zeros(size), 2, tableSize, 2), 0, size, 2);
            SlotOf(vt, id) == if id == 0 then size else if id == 2 then tableSize else 0
  {
    var a := WriteScalar(Zeros(size), 2, tableSize, 2);
    Pow256Values();
    if id == 0 {
      WriteThenRead(a, 0, size, 2);
    } else {
      WriteElsewhere(a, 0, size, 2, id, 2);
      if id == 2 {
        WriteThenRead(Zeros(size), 2, tableSize, 2);
      } else {
        WriteElsewhere(Zeros(size), 2, tableSize, 2, id, 2);
        assert Zeros(size)[id..id + 2] == Zeros(2);
        ZerosReadZero(2);
      }
    }
  }

  /** A vtable starts with its own size and the table's, and then names exactly the given fields. */
  lemma VTableSlot(size: nat, tableSize: nat, loc: nat, fields: seq<FieldLoc>, id: nat)
    requires 4 <= size < TWO_16 && tableSize < TWO_16 && SlotFields(Zeros(size), loc, fields)
    requires id % 2 == 0 && id + 2 <= size
    ensures var slot := SlotOf(VTableBytes(size, tableSize, loc, fields), id);
            && (id == 0 ==> slot == size)
            && (id == 2 ==> slot == tableSize)
            && (FieldId(id) && Unset(fields, id) ==> slot == 0)
            && (forall i :: 0 <= i < |fields| && fields[i].id == id ==> slot == loc - fields[i].off)
  {
    var blank := WriteScalar(WriteScalar(Zeros(size), 2, tableSize, 2), 0, size, 2);
    BlankVTable(size, tableSize, id);
    SlotsFilled(blank, loc, fields, id);
  }

  // ---------- objects in the buffer ----------

  /** The value of a field: a scalar of some width, or a reference to an earlier object. */
  datatype FieldVal = Val(width: nat, value: nat) | Ref(handle: nat)

  datatype Obj = StrObj(bytes: seq<byte>) | TableObj(fields: map<nat, FieldVal>)

  predicate StrAt(d: seq<byte>, off: nat, str: seq<byte>) {
    && StringIn(d, off)
    && Aligned(off, 4)
    && Scalar(d, off, 4) == |str|
    && 4 + |str| < off
    && StringData(d, off) == str
    && d[|d| - off + 4 + |str|] == 0
  }

  predicate FieldAt(d: seq<byte>, off: nat, v: FieldVal, offs: seq<nat>, minAlign: nat) {
    match v
    case Val(w, x) => ScalarWidth(w) && w <= minAlign && w <= off <= |d| && Aligned(off, w) && Scalar(d, off, w) == x
    case Ref(h) => h < |offs| && 4 <= off <= |d| && Aligned(off, 4) && 0 < offs[h] < off && Scalar(d, off, 4) == off - offs[h]
  }

  /** End-offset of the vtable of the table at `off`. */
  function VTableOffset(d: seq<byte>, off: nat): int
    requires 4 <= off <= |d|
  {
    off + Signed32(Scalar(d, off, 4))
  }

  predicate VTableAt(d: seq<byte>, vt: int) {
    && 4 <= vt <= |d|
    && vt % 2 == 0
    && 4 <= Scalar(d, vt, 2) <= vt
    && Scalar(d, vt, 2) % 2 == 0
  }

  function VTableContents(d: seq<byte>, vt: int): seq<byte>
    requires VTableAt(d, vt)
  {
    d[|d| - vt..|d| - vt + Scalar(d, vt, 2)]
  }

  function Slot(d: seq<byte>, vt: int, id: nat): nat
    requires VTableAt(d, vt) && id % 2 == 0
  {
    if id < Scalar(d, vt, 2) then Scalar(d, vt - id, 2) else 0
  }

  /** Field `id` is named by the vtable, and its value is where the vtable says. */
  predicate NamedFieldAt(d: seq<byte>, off: nat, vt: int, id: nat, v: FieldVal, offs: seq<nat>, minAlign: nat)
    requires VTableAt(d, vt)
  {
    && FieldId(id)
    && 0 < Slot(d, vt, id) < off
    && FieldAt(d, off - Slot(d, vt, id), v, offs, minAlign)
  }

  /** A table and its vtable do not overlap. */
  predicate Apart(d: seq<byte>, off: nat, vt: int)
    requires VTableAt(d, vt)
  {
    vt + 4 <= off || off + Scalar(d, vt, 2) <= vt
  }

  ghost predicate TableAt(d: seq<byte>, off: nat, m: map<nat, FieldVal>, offs: seq<nat>, minAlign: nat) {
    && 4 <= off <= |d|
    && Aligned(off, 4)
    && VTableAt(d, VTableOffset(d, off))
    && Apart(d, off, VTableOffset(d, off))
    && (forall id: nat {:trigger FieldId(id)} ::
          FieldId(id) && id !in m ==> Slot(d, VTableOffset(d, off), id) == 0)
    && (forall id {:trigger m[id]} :: id in m ==>
          NamedFieldAt(d, off, VTableOffset(d, off), id, m[id], offs, minAlign))
  }

  ghost predicate ObjAt(d: seq<byte>, off: nat, obj: Obj, offs: seq<nat>, minAlign: nat) {
    match obj
    case StrObj(str) => StrAt(d, off, str)
    case TableObj(m) => TableAt(d, off, m, offs, minAlign)
  }

  // ---------- objects survive everything built later ----------

  lemma StrFrame(x: seq<byte>, d: seq<byte>, off: nat)
    requires StringIn(d, off)
    ensures StringIn(x + d, off) && StringData(x + d, off) == StringData(d, off)
    ensures forall str :: StrAt(d, off, str) ==> StrAt(x + d, off, str)
  {
    ScalarFrame(x, d, off, 4);
  }

  lemma FieldFrame(x: seq<byte>, d: seq<byte>, off: nat, v: FieldVal, offs: seq<nat>, offs': seq<nat>,
                   minAlign: nat, minAlign': nat)
    requires FieldAt(d, off, v, offs, minAlign) && offs <= offs' && minAlign <= minAlign'
    ensures FieldAt(x + d, off, v, offs', minAlign')
  {
    ScalarFrame(x, d, off, if v.Val? then v.width else 4);
  }

  lemma VTableFrame(x: seq<byte>, d: seq<byte>, vt: int)
    requires VTableAt(d, vt)
    ensures VTableAt(x + d, vt) && VTableContents(x + d, vt) == VTableContents(d, vt)
    ensures forall id: nat {:trigger Slot(d, vt, id)} {:trigger Slot(x + d, vt, id)} ::
              id % 2 == 0 ==> Slot(x + d, vt, id) == Slot(d, vt, id)
  {
    ScalarFrame(x, d, vt, 2);
    forall id: nat | id % 2 == 0
      ensures Slot(x + d, vt, id) == Slot(d, vt, id)
    {
      if id < Scalar(d, vt, 2) {
        ScalarFrame(x, d, vt - id, 2);
      }
    }
  }

  lemma NamedFieldFrame(x: seq<byte>, d: seq<byte>, off: nat, vt: int, id: nat, v: FieldVal,
                        offs: seq<nat>, offs': seq<nat>, minAlign: nat, minAlign': nat)
    requires VTableAt(d, vt) && NamedFieldAt(d, off, vt, id, v, offs, minAlign)
    requires offs <= offs' && minAlign <= minAlign'
    ensures VTableAt(x + d, vt) && NamedFieldAt(x + d, off, vt, id, v, offs', minAlign')
  {
    VTableFrame(x, d, vt);
    FieldFrame(x, d, off - Slot(d, vt, id), v, offs, offs', minAlign, minAlign');
    hide FieldAt, VTableAt, Slot;
  }

  lemma TableFrame(x: seq<byte>, d: seq<byte>, off: nat, m: map<nat, FieldVal>, offs: seq<nat>, offs': seq<nat>,
                   minAlign: nat, minAlign': nat)
    requires TableAt(d, off, m, offs, minAlign) && offs <= offs' && minAlign <= minAlign'
    ensures TableAt(x + d, off, m, offs', minAlign')
    ensures VTableOffset(x + d, off) == VTableOffset(d, off)
  {
    ScalarFrame(x, d, off, 4);
    var vt := VTableOffset(d, off);
    VTableFrame(x, d, vt);
    ScalarFrame(x, d, vt, 2);
    hide VTableAt, Slot, NamedFieldAt, Scalar, FieldId, Aligned;
    forall id | id in m
      ensures NamedFieldAt(x + d, off, vt, id, m[id], offs', minAlign')
    {
      NamedFieldFrame(x, d, off, vt, id, m[id], offs, offs', minAlign, minAlign');
    }
  }

  /** An object, once written, is still there after any bytes are pushed on top of it. */
  lemma ObjFrame(x: seq<byte>, d: seq<byte>, off: nat, obj: Obj, offs: seq<nat>, offs': seq<nat>,
                 minAlign: nat, minAlign': nat)
    requires ObjAt(d, off, obj, offs, minAlign) && offs <= offs' && minAlign <= minAlign'
    ensures ObjAt(x + d, off, obj, offs', minAlign')
  {
    match obj
    case StrObj(str) => StrFrame(x, d, off);
    case TableObj(m) => TableFrame(x, d, off, m, offs, offs', minAlign, minAlign');
  }
}
