/** Reading a finished buffer: table.h and the root accessor of buffer.h. Positions count from the START. */
module TableReader {
  import opened Wrappers
  import opened Bytes

  type Buffer = seq<byte>

  predicate InBounds(buf: Buffer, pos: int, w: nat) {
    0 <= pos && pos + w <= |buf|
  }

  /** ReadScalar where the caller knows that the scalar is inside the buffer. */
  function Load(buf: Buffer, pos: int, w: nat): nat
    requires InBounds(buf, pos, w)
  {
    FromLE(buf[pos..pos + w])
  }

  /** ReadScalar through a pointer: a fault when any of its bytes is outside the buffer. */
  function ReadScalar(buf: Buffer, pos: int, w: nat): Access<nat> {
    if InBounds(buf, pos, w) then Value(Load(buf, pos, w)) else Fault
  }

  /** GetRoot, or GetSizePrefixedRoot when `start` is the size of the prefix. */
  function GetRoot(buf: Buffer, start: nat): Access<int> {
    var o :- ReadScalar(buf, start, 4);
    Value(start + o)
  }

  function GetVTable(buf: Buffer, table: int): Access<int> {
    var o :- ReadScalar(buf, table, 4);
    Value(table - Signed32(o))
  }

  function GetOptionalFieldOffset(buf: Buffer, table: int, field: nat): Access<nat> {
    var vtable :- GetVTable(buf, table);
    var vtsize :- ReadScalar(buf, vtable, 2);
    if field < vtsize then ReadScalar(buf, vtable + field, 2) else Value(0)
  }

  function GetField(buf: Buffer, table: int, field: nat, w: nat, def: nat): Access<nat> {
    var offset :- GetOptionalFieldOffset(buf, table, field);
    if offset != 0 then ReadScalar(buf, table + offset, w) else Value(def)
  }

  /** The position a pointer field leads to, or None for a null pointer. */
  function GetPointer(buf: Buffer, table: int, field: nat): Access<Option<int>> {
    var offset :- GetOptionalFieldOffset(buf, table, field);
    if offset == 0 then Value(None)
    else
      var o :- ReadScalar(buf, table + offset, 4);
      Value(Some(table + offset + o))
  }

  /** String::size, String::str and the terminator that c_str relies on. */
  function GetString(buf: Buffer, str: int): Access<seq<byte>> {
    var size :- ReadScalar(buf, str, 4);
    if str + 4 + size < |buf| then Value(buf[str + 4..str + 4 + size]) else Fault
  }

  function GetTerminator(buf: Buffer, str: int): Access<nat> {
    var size :- ReadScalar(buf, str, 4);
    ReadScalar(buf, str + 4 + size, 1)
  }
}
