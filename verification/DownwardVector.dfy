/** vector_downward.h and allocator.h: a stack of bytes growing down and a scratch stack growing up, in one allocation. */
module DownwardVector {
  import opened Bytes
  import opened Alignment
  import opened BuilderModel

  // ---------- the growth rule ----------

  /** The least multiple of the alignment that is not below x. */
  function RoundUp(x: nat, align: nat): (r: nat)
    requires align > 0
    ensures x <= r < x + align
  {
    x + align - 1 - (x + align - 1) % align
  }

  /** The bit trick used for capacities rounds up to the least multiple of the alignment. */
  lemma RoundUpIsMask(x: nat, k: nat)
    requires k < 64 && x + Pow2(k) - 1 < TWO_64
    ensures BitAnd(x + Pow2(k) - 1, Complement64(Pow2(k) - 1)) == RoundUp(x, Pow2(k))
    ensures Aligned(RoundUp(x, Pow2(k)), Pow2(k))
  {
    hide BitAnd, Pow2, Pow256;
    Pow2Bytes(8);
    Pow256Values();
    var align := Pow2(k);
    var y, m := x + align - 1, align - 1;
    AndWithComplement(y, m, 64);
    assert Complement64(m) == Pow2(64) - 1 - m;
    LowBits(y, k);
    RemainderRemoved(y, align);
  }

  lemma RemainderRemoved(y: nat, m: nat)
    requires m > 0
    ensures Aligned(y - y % m, m)
  {
    ModUnique(y - y % m, m, y / m, 0);
  }

  /** The capacity after growing by at least `len`: half as much again, or the initial size, if that is more. */
  function Grown(reserved: nat, len: nat, initialSize: nat, align: nat): (r: nat)
    requires align > 0
    ensures r >= reserved + len
  {
    var half := if reserved != 0 then reserved / 2 else initialSize;
    RoundUp(reserved + if len > half then len else half, align)
  }

  /** A growing capacity is the least aligned one with room for `len` bytes and for half as much again, or the initial size. */
  lemma GrownIsLeast(reserved: nat, len: nat, initialSize: nat, align: nat)
    requires align > 0
    ensures var r := Grown(reserved, len, initialSize, align);
            && Aligned(r, align)
            && reserved + len <= r && (if reserved == 0 then initialSize <= r else reserved + reserved / 2 <= r)
            && (r < reserved + len + align || r < (if reserved == 0 then initialSize else reserved + reserved / 2) + align)
  {
    var half := if reserved != 0 then reserved / 2 else initialSize;
    RemainderRemoved(reserved + (if len > half then len else half) + align - 1, align);
  }

  // ---------- allocator.h ----------

  /** Copies the used bytes at both ends, to both ends. */
  method MemcpyDownward(oldP: array<byte>, newP: array<byte>, inUseBack: nat, inUseFront: nat)
    requires oldP != newP && inUseFront + inUseBack <= oldP.Length <= newP.Length
    modifies newP
    ensures newP[newP.Length - inUseBack..] == old(oldP[oldP.Length - inUseBack..])
    ensures newP[..inUseFront] == old(oldP[..inUseFront])
  {
    forall i | 0 <= i < inUseBack {
      newP[newP.Length - inUseBack + i] := oldP[oldP.Length - inUseBack + i];
    }
    assert newP[newP.Length - inUseBack..] == old(oldP[oldP.Length - inUseBack..]);
    forall i | 0 <= i < inUseFront {
      newP[i] := oldP[i];
    }
  }

  /** A larger allocation that holds the same bytes at both ends; the bytes in between are arbitrary. */
  method ReallocateDownward(oldP: array<byte>, newSize: nat, inUseBack: nat, inUseFront: nat) returns (newP: array<byte>)
    requires newSize > oldP.Length && inUseFront + inUseBack <= oldP.Length
    ensures fresh(newP) && newP.Length == newSize
    ensures newP[newSize - inUseBack..] == oldP[oldP.Length - inUseBack..]
    ensures newP[..inUseFront] == oldP[..inUseFront]
  {
    newP := new byte[newSize];
    MemcpyDownward(oldP, newP, inUseBack, inUseFront);
  }

  // ---------- vector_downward.h ----------

  lemma TailOfTail(buf: array<byte>, from: nat, n: nat)
    requires from + n <= buf.Length
    ensures buf[from..][n..] == buf[from + n..]
  {
    var a, b := buf[from..][n..], buf[from + n..];
    forall i | 0 <= i < |b|
      ensures a[i] == b[i]
    {
      assert buf[from..][n + i] == buf[from + n + i];
    }
  }

  lemma SliceOfTail(buf: array<byte>, cur: nat, pos: nat, n: nat)
    requires cur + pos + n <= buf.Length
    ensures buf[cur + pos..cur + pos + n] == buf[cur..][pos..pos + n]
  {
    var a, b := buf[cur + pos..cur + pos + n], buf[cur..][pos..pos + n];
    forall i | 0 <= i < n
      ensures a[i] == b[i]
    {
      assert buf[cur..][pos + i] == buf[cur + pos + i];
    }
  }

  lemma Overwritten(made: seq<byte>, below: seq<byte>, bytes: seq<byte>)
    requires |bytes| <= |made| && made[|bytes|..] == below
    ensures made[..0] + bytes + made[0 + |bytes|..] == bytes + below
  {
  }

  /** Pointers into the allocation are indices into `buf`; no allocation yet is null, as in the source. */
  class VectorDownward {
    var buf: array?<byte>
    var reserved: nat
    var size: nat
    var cur: nat
    var scratch: nat
    const initialSize: nat
    const bufferMinAlign: nat
    const maxSize: nat

    ghost predicate Valid()
      reads this, buf
    {
      && bufferMinAlign > 0
      && scratch <= cur <= reserved && size == reserved - cur
      && size < TWO_32 && scratch < TWO_32
      && (if buf == null then reserved == 0 else buf.Length == reserved)
    }

    /** The serialized bytes, newest first. */
    ghost function Data(): (d: seq<byte>)
      requires Valid()
      reads this, buf
      ensures |d| == size
    {
      if buf == null then [] else buf[cur..]
    }

    /** The scratch bytes, oldest first. */
    ghost function Scratch(): (d: seq<byte>)
      requires Valid()
      reads this, buf
      ensures |d| == scratch
    {
      if buf == null then [] else buf[..scratch]
    }

    constructor (initialSize: nat, bufferMinAlign: nat, maxSize: nat)
      requires bufferMinAlign > 0
      ensures Valid() && Data() == [] && Scratch() == []
      ensures this.initialSize == initialSize && this.bufferMinAlign == bufferMinAlign && this.maxSize == maxSize
      ensures buf == null
    {
      this.initialSize, this.bufferMinAlign, this.maxSize := initialSize, bufferMinAlign, maxSize;
      buf, reserved, size, cur, scratch := null, 0, 0, 0, 0;
    }

    /** The unused bytes between the stacks, as a SizeT. */
    function UnusedBufferSize(): nat
      requires scratch <= cur
      reads this
    {
      Wrap32(cur - scratch)
    }

    /** Where the bytes at this distance from the end are: data_at. */
    function DataAt(offset: nat): nat
      requires offset <= reserved
      reads this
    {
      reserved - offset
    }

    /** data_at finds the bytes that the offset names, before and after any growth. */
    lemma DataAtReads(offset: nat, w: nat)
      requires Valid() && w <= offset <= size
      ensures buf == null ==> w == 0
      ensures buf != null ==> buf[DataAt(offset)..DataAt(offset) + w] == Data()[|Data()| - offset..|Data()| - offset + w]
    {
    }

    /** The scalar at cur_ + pos. */
    function ReadData(pos: nat, w: nat): (v: nat)
      requires Valid() && 0 < w && pos + w <= size
      reads this, buf
      ensures v == FromLE(Data()[pos..pos + w])
    {
      SliceOfTail(buf, cur, pos, w);
      FromLE(buf[cur + pos..cur + pos + w])
    }

    /** The scalar at buf_ + pos, in the scratch stack. */
    function ReadScratch(pos: nat, w: nat): (v: nat)
      requires Valid() && 0 < w && pos + w <= scratch
      reads this, buf
      ensures v == FromLE(Scratch()[pos..pos + w])
    {
      assert buf[pos..pos + w] == Scratch()[pos..pos + w];
      FromLE(buf[pos..pos + w])
    }

    /** The n bytes at cur_ + pos. */
    function Bytes(pos: nat, n: nat): (s: seq<byte>)
      requires Valid() && pos + n <= size
      reads this, buf
      ensures s == Data()[pos..pos + n]
    {
      if n == 0 then []
      else
        SliceOfTail(buf, cur, pos, n);
        buf[cur + pos..cur + pos + n]
    }

    /** memcmp of n bytes at cur_ + a and at cur_ + b. */
    predicate SameData(a: nat, b: nat, n: nat)
      requires Valid() && a + n <= size && b + n <= size
      reads this, buf
      ensures SameData(a, b, n) <==> Data()[a..a + n] == Data()[b..b + n]
    {
      Bytes(a, n) == Bytes(b, n)
    }

    method Reallocate(len: nat)
      requires Valid() && len > 0
      modifies this`buf, this`reserved, this`cur, this`scratch
      ensures Valid() && Data() == old(Data()) && Scratch() == old(Scratch())
      ensures reserved == Grown(old(reserved), len, initialSize, bufferMinAlign) && fresh(buf)
      ensures cur - scratch >= len + old(cur - scratch)
    {
      hide Grown, RoundUp;
      var oldScratchSize := Wrap32(scratch);
      reserved := Grown(reserved, len, initialSize, bufferMinAlign);
      if buf != null {
        buf := ReallocateDownward(buf, reserved, size, oldScratchSize);
      } else {
        buf := new byte[reserved];
      }
      cur := reserved - size;
      scratch := oldScratchSize;
    }

    /** Afterwards at least `len` bytes are free between the stacks, and both stacks are as they were. */
    method EnsureSpace(len: nat)
      requires Valid() && size < maxSize
      modifies this`buf, this`reserved, this`cur, this`scratch
      ensures Valid() && Data() == old(Data()) && Scratch() == old(Scratch())
      ensures cur - scratch >= len && (len > 0 ==> buf != null)
      ensures buf == old(buf) || fresh(buf)
      ensures reserved == if len > Wrap32(old(cur - scratch))
                          then Grown(old(reserved), len, initialSize, bufferMinAlign) else old(reserved)
    {
      if len > UnusedBufferSize() {
        Reallocate(len);
      }
    }

    /** Room for `len` more bytes of data, whose values are not set yet. */
    method MakeSpace(len: nat)
      requires Valid() && size < maxSize && size + len < TWO_32
      modifies this`buf, this`reserved, this`cur, this`scratch, this`size
      ensures Valid() && Scratch() == old(Scratch())
      ensures size == old(size) + len && Data()[len..] == old(Data())
      ensures buf == old(buf) || fresh(buf)
      ensures len > 0 ==> buf != null
    {
      if len > 0 {
        EnsureSpace(len);
        TailOfTail(buf, cur - len, len);
        cur := cur - len;
        size := Wrap32(size + len);
      }
    }

    method Push(bytes: seq<byte>)
      requires Valid() && size < maxSize && size + |bytes| < TWO_32
      modifies this, buf
      ensures Valid() && Data() == bytes + old(Data()) && Scratch() == old(Scratch())
      ensures buf == old(buf) || fresh(buf)
    {
      if |bytes| > 0 {
        CopyToNewSpace(bytes);
      }
    }

    /** memcpy to what make_space returns. */
    method CopyToNewSpace(bytes: seq<byte>)
      requires Valid() && size < maxSize && size + |bytes| < TWO_32 && |bytes| > 0
      modifies this, buf
      ensures Valid() && Data() == bytes + old(Data()) && Scratch() == old(Scratch())
      ensures buf == old(buf) || fresh(buf)
    {
      MakeSpace(|bytes|);
      ghost var made := Data();
      CopyIn(0, bytes);
      Overwritten(made, old(Data()), bytes);
    }

    /** memcpy to cur_ + pos. */
    method CopyIn(pos: nat, bytes: seq<byte>)
      requires Valid() && buf != null && pos + |bytes| <= size
      modifies buf
      ensures Valid() && Scratch() == old(Scratch())
      ensures Data() == old(Data())[..pos] + bytes + old(Data())[pos + |bytes|..]
    {
      forall i | 0 <= i < |bytes| {
        buf[cur + pos + i] := bytes[i];
      }
    }

    /** Stores a scalar at cur_ + pos. */
    method Write(pos: nat, v: nat, w: nat)
      requires Valid() && 0 < w && pos + w <= size
      modifies buf
      ensures Valid() && Scratch() == old(Scratch())
      ensures Data() == WriteScalar(old(Data()), pos, v, w)
    {
      CopyIn(pos, LE(v, w));
    }

    method PushSmall(v: nat, w: nat)
      requires Valid() && size < maxSize && size + w < TWO_32 && w > 0
      modifies this, buf
      ensures Valid() && Data() == LE(v, w) + old(Data()) && Scratch() == old(Scratch())
      ensures buf == old(buf) || fresh(buf)
    {
      CopyToNewSpace(LE(v, w));
    }

    method ScratchPushSmall(bytes: seq<byte>)
      requires Valid() && size < maxSize && scratch + |bytes| < TWO_32 && |bytes| > 0
      modifies this, buf
      ensures Valid() && Data() == old(Data()) && Scratch() == old(Scratch()) + bytes
      ensures buf == old(buf) || fresh(buf)
      ensures size == old(size)
    {
      EnsureSpace(|bytes|);
      CopyToScratch(bytes);
      scratch := scratch + |bytes|;
    }

    /** Stores into the free bytes above the scratch stack. */
    method CopyToScratch(bytes: seq<byte>)
      requires Valid() && buf != null && |bytes| <= cur - scratch
      modifies buf
      ensures buf[..scratch + |bytes|] == old(buf[..scratch]) + bytes
      ensures buf[cur..] == old(buf[cur..])
    {
      forall i | 0 <= i < |bytes| {
        buf[scratch + i] := bytes[i];
      }
    }

    method Fill(zeroPadBytes: nat)
      requires Valid() && size < maxSize && size + zeroPadBytes < TWO_32
      modifies this, buf
      ensures Valid() && Data() == Zeros(zeroPadBytes) + old(Data()) && Scratch() == old(Scratch())
      ensures buf == old(buf) || fresh(buf)
    {
      MakeSpace(zeroPadBytes);
      ghost var made := Data();
      ZeroFirst(zeroPadBytes);
      Overwritten(made, old(Data()), Zeros(zeroPadBytes));
    }

    method ZeroFirst(n: nat)
      requires Valid() && n <= size && (n > 0 ==> buf != null)
      modifies buf
      ensures Valid() && Scratch() == old(Scratch())
      ensures Data() == old(Data())[..0] + Zeros(n) + old(Data())[0 + n..]
    {
      for i := 0 to n
        invariant buf != null ==> forall k :: cur <= k < cur + i ==> buf[k] == 0
        invariant buf != null ==> forall k :: 0 <= k < reserved && !(cur <= k < cur + i) ==> buf[k] == old(buf[k])
      {
        buf[cur + i] := 0;
      }
    }

    method Pop(bytesToRemove: nat)
      requires Valid() && bytesToRemove <= size
      modifies this`cur, this`size
      ensures Valid() && Data() == old(Data())[bytesToRemove..] && Scratch() == old(Scratch())
    {
      cur := cur + bytesToRemove;
      size := size - bytesToRemove;
    }

    method ScratchPop(bytesToRemove: nat)
      requires Valid() && bytesToRemove <= scratch
      modifies this`scratch
      ensures Valid() && Data() == old(Data()) && Scratch() == old(Scratch()[..scratch - bytesToRemove])
    {
      scratch := scratch - bytesToRemove;
    }

    method ClearScratch()
      requires Valid()
      modifies this`scratch
      ensures Valid() && Data() == old(Data()) && Scratch() == []
    {
      scratch := 0;
    }

    /** Forgets both stacks but keeps the allocation. */
    method Clear()
      requires Valid()
      modifies this`cur, this`size, this`scratch, this`reserved
      ensures Valid() && Data() == [] && Scratch() == [] && reserved == old(reserved)
    {
      if buf != null {
        cur := reserved;
      } else {
        reserved := 0;
        cur := 0;
      }
      size := 0;
      ClearScratch();
    }
  }
}
