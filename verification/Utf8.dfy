/** UTF-8 at the level of bits: ToUTF8 and FromUTF8 of util.h. */
module Utf8 {
  import opened Wrappers

  type octet = bv8

  // ---------- encoding ----------

  /** The number of bits that a sequence of i + 1 bytes can represent. */
  function MaxBits(i: nat): nat {
    6 + i * 5 + if i == 0 then 1 else 0
  }

  /** Byte j of the continuation: six bits and the mark 10. */
  function ContinuationByte(ucc: bv32, j: nat): octet
    requires j < 5
  {
    ((((ucc >> (6 * j)) & 0x3F) | 0x80) & 0xFF) as octet
  }

  function Continuation(ucc: bv32, n: nat): (s: seq<octet>)
    requires n <= 5
    ensures |s| == n
  {
    if n == 0 then [] else [ContinuationByte(ucc, n - 1)] + Continuation(ucc, n - 1)
  }

  /** The first byte: leading ones that give the length, and the highest bits. */
  function FirstByte(ucc: bv32, i: nat): octet
    requires i < 6
  {
    (((0xFE << (MaxBits(i) - 6 * i)) | (ucc >> (6 * i))) & 0xFF) as octet
  }

  /** The least number of continuation bytes that is enough. */
  function ExtraBytes(ucc: bv32): (i: nat)
    requires ucc & 0x8000_0000 == 0
    ensures i < 6
  {
    if ucc < 0x80 then 0
    else if ucc < 0x800 then 1
    else if ucc < 0x1_0000 then 2
    else if ucc < 0x20_0000 then 3
    else if ucc < 0x400_0000 then 4
    else 5
  }

  function ToUTF8(ucc: bv32): (s: seq<octet>)
    requires ucc & 0x8000_0000 == 0
  {
    var i := ExtraBytes(ucc);
    [FirstByte(ucc, i)] + Continuation(ucc, i)
  }

  /** The loop over the encodings; it always returns from within. */
  method Encode(ucc: bv32) returns (s: seq<octet>)
    requires ucc & 0x8000_0000 == 0
    ensures s == ToUTF8(ucc)
  {
    hide ToUTF8, FirstByte, ContinuationByte, ExtraBytes, Continuation;
    var i := 0;
    while i < 6
      invariant i <= ExtraBytes(ucc)
    {
      FitsIsExtra(ucc, i);
      if ucc < (1 << MaxBits(i)) {
        s := [FirstByte(ucc, i)];
        var j := i;
        FirstThenRest(ucc);
        while j > 0
          invariant 0 <= j <= i && s + Continuation(ucc, j) == ToUTF8(ucc)
        {
          j := j - 1;
          NextContinuation(ucc, j);
          assert s + Continuation(ucc, j + 1) == (s + [ContinuationByte(ucc, j)]) + Continuation(ucc, j);
          s := s + [ContinuationByte(ucc, j)];
        }
        NoContinuation(ucc);
        return;
      }
      i := i + 1;
    }
    assert false;
  }

  lemma FirstThenRest(ucc: bv32)
    requires ucc & 0x8000_0000 == 0
    ensures ToUTF8(ucc) == [FirstByte(ucc, ExtraBytes(ucc))] + Continuation(ucc, ExtraBytes(ucc))
  {
    hide FirstByte, ContinuationByte, ExtraBytes;
  }

  lemma NextContinuation(ucc: bv32, j: nat)
    requires j < 5
    ensures Continuation(ucc, j + 1) == [ContinuationByte(ucc, j)] + Continuation(ucc, j)
  {
    hide ContinuationByte;
  }

  lemma NoContinuation(ucc: bv32)
    ensures Continuation(ucc, 0) == []
  {
  }

  lemma FitsIsExtra(ucc: bv32, i: nat)
    requires ucc & 0x8000_0000 == 0 && i < 6 && i <= ExtraBytes(ucc)
    ensures ucc < (1 << MaxBits(i)) <==> i == ExtraBytes(ucc)
  {
    if i == 5 {
      TopBitClear(ucc);
    }
  }

  lemma TopBitClear(ucc: bv32)
    requires ucc & 0x8000_0000 == 0
    ensures ucc < 0x8000_0000
  {
  }

  // ---------- decoding ----------

  /** A code point and the number of bytes it took. */
  datatype Decoded = Decoded(ucc: bv32, len: nat)

  /** The byte at i; behind the end is the terminator. */
  function At(s: seq<octet>, i: nat): octet {
    if i < |s| then s[i] else 0
  }

  /** The number of leading one bits, up to six. */
  function LeadingOnes(b: octet): (n: nat)
    ensures n <= 6
  {
    if b & 0x80 == 0 then 0
    else if b & 0x40 == 0 then 1
    else if b & 0x20 == 0 then 2
    else if b & 0x10 == 0 then 3
    else if b & 0x08 == 0 then 4
    else if b & 0x04 == 0 then 5
    else 6
  }

  predicate Tail(b: octet) {
    b & 0xC0 == 0x80
  }

  /** Appends the bits of n continuation bytes. */
  function Gather(s: seq<octet>, i: nat, n: nat, ucc: bv32): Option<bv32>
    decreases n
  {
    if n == 0 then Some(ucc)
    else if !Tail(At(s, i)) then None
    else Gather(s, i + 1, n - 1, (ucc << 6) | ((At(s, i) & 0x3F) as bv32))
  }

  predicate Surrogate(ucc: bv32) {
    0xD800 <= ucc <= 0xDFFF
  }

  /** The code points that need exactly this many bytes. */
  predicate ShortestFor(ucc: bv32, len: nat) {
    if len == 2 then 0x80 <= ucc <= 0x7FF
    else if len == 3 then 0x800 <= ucc <= 0xFFFF
    else if len == 4 then 0x1_0000 <= ucc <= 0x10_FFFF
    else true
  }

  function FirstBits(b: octet, len: nat): bv32
    requires 2 <= len <= 4
  {
    (b & ((1 << (7 - len)) - 1)) as bv32
  }

  /** FromUTF8, at position i of a NUL-terminated string. */
  function FromUTF8(s: seq<octet>, i: nat): Option<Decoded> {
    var b := At(s, i);
    var len := LeadingOnes(b);
    if (b << len) & 0x80 != 0 then None
    else if len == 0 then Some(Decoded(b as bv32, 1))
    else if len < 2 || len > 4 then None
    else
      match Gather(s, i + 1, len - 1, FirstBits(b, len))
      case None => None
      case Some(ucc) => if Surrogate(ucc) || !ShortestFor(ucc, len) then None else Some(Decoded(ucc, len))
  }

  /** The loop over the masks. */
  method CountLeadingOnes(b: octet) returns (len: nat)
    ensures len == LeadingOnes(b)
  {
    len := 0;
    var mask: octet := 0x80;
    while mask >= 0x04
      invariant len <= 6 && mask == (0x80 as octet) >> len
      invariant len <= LeadingOnes(b)
      decreases 6 - len
    {
      NextOne(b, len);
      if b & mask != 0 {
        len := len + 1;
      } else {
        break;
      }
      mask := mask >> 1;
    }
  }

  lemma NextOne(b: octet, n: nat)
    requires n < 6 && n <= LeadingOnes(b)
    ensures b & (0x80 >> n) != 0 <==> n < LeadingOnes(b)
  {
  }

  method Decode(s: seq<octet>, i: nat) returns (r: Option<Decoded>)
    ensures r == FromUTF8(s, i)
  {
    var b := At(s, i);
    var len := CountLeadingOnes(b);
    if (b << len) & 0x80 != 0 {
      return None;
    }
    if len == 0 {
      return Some(Decoded(b as bv32, 1));
    }
    if len < 2 || len > 4 {
      return None;
    }
    var ucc := FirstBits(b, len);
    ghost var all := Gather(s, i + 1, len - 1, ucc);
    for k := 0 to len - 1
      invariant all == Gather(s, i + 1 + k, len - 1 - k, ucc)
    {
      if !Tail(At(s, i + 1 + k)) {
        return None;
      }
      ucc := (ucc << 6) | ((At(s, i + 1 + k) & 0x3F) as bv32);
    }
    if Surrogate(ucc) {
      return None;
    }
    if !ShortestFor(ucc, len) {
      return None;
    }
    return Some(Decoded(ucc, len));
  }

  // ---------- RFC 3629 ----------

  predicate InTail(b: octet) {
    0x80 <= b <= 0xBF
  }

  /** UTF8-char of section 4 of RFC 3629, by its grammar. */
  predicate Rfc3629(c: seq<octet>) {
    match |c|
    case 1 => c[0] <= 0x7F
    case 2 => 0xC2 <= c[0] <= 0xDF && InTail(c[1])
    case 3 =>
      && InTail(c[2])
      && (|| (c[0] == 0xE0 && 0xA0 <= c[1] <= 0xBF)
          || (0xE1 <= c[0] <= 0xEC && InTail(c[1]))
          || (c[0] == 0xED && 0x80 <= c[1] <= 0x9F)
          || (0xEE <= c[0] <= 0xEF && InTail(c[1])))
    case 4 =>
      && InTail(c[2]) && InTail(c[3])
      && (|| (c[0] == 0xF0 && 0x90 <= c[1] <= 0xBF)
          || (0xF1 <= c[0] <= 0xF3 && InTail(c[1]))
          || (c[0] == 0xF4 && 0x80 <= c[1] <= 0x8F))
    case _ => false
  }

  lemma TailIsInTail(b: octet)
    ensures Tail(b) <==> InTail(b)
  {
  }

  /** What the first byte says about the length. */
  lemma LengthByte(b: octet)
    ensures LeadingOnes(b) == 0 <==> b <= 0x7F
    ensures LeadingOnes(b) == 2 <==> 0xC0 <= b <= 0xDF
    ensures LeadingOnes(b) == 3 <==> 0xE0 <= b <= 0xEF
    ensures LeadingOnes(b) == 4 <==> 0xF0 <= b <= 0xF7
    ensures LeadingOnes(b) <= 4 && LeadingOnes(b) != 1 ==> (b << LeadingOnes(b)) & 0x80 == 0
  {
  }

  // ---------- the bits of each length ----------

  function Low6(x: bv32): octet {
    (((x & 0x3F) | 0x80) & 0xFF) as octet
  }

  function Lead2(u: bv32): octet {
    ((0x1FC0 | (u >> 6)) & 0xFF) as octet
  }

  function Lead3(u: bv32): octet {
    ((0xFE0 | (u >> 12)) & 0xFF) as octet
  }

  function Lead4(u: bv32): octet {
    ((0x7F0 | (u >> 18)) & 0xFF) as octet
  }

  /** The restrictions of the grammar on the second byte. */
  predicate SecondOk3(a: octet, b: octet) {
    (a == 0xE0 ==> 0xA0 <= b) && (a == 0xED ==> b <= 0x9F)
  }

  predicate SecondOk4(a: octet, b: octet) {
    a <= 0xF4 && (a == 0xF0 ==> 0x90 <= b) && (a == 0xF4 ==> b <= 0x8F)
  }

  lemma Continuations(u: bv32)
    ensures ContinuationByte(u, 0) == Low6(u) && ContinuationByte(u, 1) == Low6(u >> 6) && ContinuationByte(u, 2) == Low6(u >> 12)
  {
  }

  lemma FirstByteOf1(u: bv32)
    ensures FirstByte(u, 0) == (u & 0xFF) as octet
  {
  }

  lemma FirstByteOf2(u: bv32)
    ensures FirstByte(u, 1) == Lead2(u)
  {
  }

  lemma FirstByteOf3(u: bv32)
    ensures FirstByte(u, 2) == Lead3(u)
  {
    assert MaxBits(2) - 6 * 2 == 4;
    Lead3Is(u);
    hide Lead3;
  }

  lemma Lead3Is(u: bv32)
    ensures Lead3(u) == (((0xFE << 4) | (u >> 12)) & 0xFF) as octet
  {
  }

  lemma FirstByteOf4(u: bv32)
    ensures FirstByte(u, 3) == Lead4(u)
  {
    assert MaxBits(3) - 6 * 3 == 3;
    Lead4Is(u);
    hide Lead4;
  }

  lemma Lead4Is(u: bv32)
    ensures Lead4(u) == (((0xFE << 3) | (u >> 18)) & 0xFF) as octet
  {
  }

  lemma FirstBitsAre(b: octet)
    ensures FirstBits(b, 2) == (b & 0x1F) as bv32
    ensures FirstBits(b, 3) == (b & 0x0F) as bv32
    ensures FirstBits(b, 4) == (b & 0x07) as bv32
  {
  }

  /** Six more bits. */
  function Extended(u: bv32, b: octet): bv32 {
    (u << 6) | ((b & 0x3F) as bv32)
  }

  lemma Bits2(a: octet, b: octet)
    requires 0xC0 <= a <= 0xDF && InTail(b)
    ensures var u := Extended((a & 0x1F) as bv32, b);
            && (0x80 <= u <= 0x7FF <==> 0xC2 <= a) && !Surrogate(u)
            && Low6(u) == b && Lead2(u) == a
  {
  }

  lemma Bits3(a: octet, b: octet, c: octet)
    requires 0xE0 <= a <= 0xEF && InTail(b) && InTail(c)
    ensures var u := Extended(Extended((a & 0x0F) as bv32, b), c);
            && (0x800 <= u <= 0xFFFF && !Surrogate(u) <==> SecondOk3(a, b))
            && Low6(u) == c && Low6(u >> 6) == b && Lead3(u) == a
  {
  }

  /** The code point u has the bits of these four bytes, and is in range exactly when the grammar allows them. */
  predicate BitsOf4(u: bv32, a: octet, b: octet, c: octet, d: octet) {
    && (0x1_0000 <= u <= 0x10_FFFF <==> SecondOk4(a, b))
    && (0x1_0000 <= u ==> !Surrogate(u))
    && Low6(u) == d && Low6(u >> 6) == c && Low6(u >> 12) == b && Lead4(u) == a
  }

  lemma Bits4(a: octet, b: octet, c: octet, d: octet)
    requires 0xF0 <= a <= 0xF7 && InTail(b) && InTail(c) && InTail(d)
    ensures BitsOf4(Extended(Extended(Extended((a & 0x07) as bv32, b), c), d), a, b, c, d)
  {
    hide Extended, Low6, Lead4, SecondOk4, InTail, Surrogate;
    Range4(a, b, c, d);
    Parts4(a, b, c, d);
  }

  lemma Range4(a: octet, b: octet, c: octet, d: octet)
    requires 0xF0 <= a <= 0xF7 && InTail(b) && InTail(c) && InTail(d)
    ensures var u := Extended(Extended(Extended((a & 0x07) as bv32, b), c), d);
            (0x1_0000 <= u <= 0x10_FFFF <==> SecondOk4(a, b)) && (0x1_0000 <= u ==> !Surrogate(u))
  {
  }

  lemma Parts4(a: octet, b: octet, c: octet, d: octet)
    requires 0xF0 <= a <= 0xF7 && InTail(b) && InTail(c) && InTail(d)
    ensures var u := Extended(Extended(Extended((a & 0x07) as bv32, b), c), d);
            Low6(u) == d && Low6(u >> 6) == c && Low6(u >> 12) == b && Lead4(u) == a
  {
  }

  lemma SmallCodePoint(u: bv32)
    requires u <= 0x10_FFFF
    ensures u & 0x8000_0000 == 0
  {
  }

  lemma Encoded1(u: bv32)
    requires u < 0x80
    ensures u & 0x8000_0000 == 0 && ToUTF8(u) == [(u & 0xFF) as octet]
  {
    FirstByteOf1(u);
    hide FirstByte;
  }

  lemma Encoded2(u: bv32)
    requires 0x80 <= u <= 0x7FF
    ensures u & 0x8000_0000 == 0 && ToUTF8(u) == [Lead2(u), Low6(u)]
  {
    hide FirstByte, ContinuationByte, Low6, Lead2, Lead3, Lead4;
    FirstByteOf2(u);
    Continuations(u);
    assert Continuation(u, 1) == [Low6(u)];
  }

  lemma Encoded3(u: bv32)
    requires 0x800 <= u <= 0xFFFF
    ensures u & 0x8000_0000 == 0 && ToUTF8(u) == [Lead3(u), Low6(u >> 6), Low6(u)]
  {
    hide FirstByte, ContinuationByte, Low6, Lead2, Lead3, Lead4;
    FirstByteOf3(u);
    Continuations(u);
    assert Continuation(u, 1) == [Low6(u)];
    assert Continuation(u, 2) == [Low6(u >> 6), Low6(u)];
  }

  lemma Encoded4(u: bv32)
    requires 0x1_0000 <= u <= 0x10_FFFF
    ensures u & 0x8000_0000 == 0
    ensures ToUTF8(u) == [Lead4(u), Low6(u >> 12), Low6(u >> 6), Low6(u)]
  {
    hide FirstByte, ContinuationByte, Low6, Lead2, Lead3, Lead4;
    FirstByteOf4(u);
    Continuations(u);
    assert Continuation(u, 1) == [Low6(u)];
    assert Continuation(u, 2) == [Low6(u >> 6), Low6(u)];
    assert Continuation(u, 3) == [Low6(u >> 12), Low6(u >> 6), Low6(u)];
  }

  // ---------- the theorems ----------

  /** The sequence at position i, if it is well-formed. */
  predicate WellFormedAt(s: seq<octet>, i: nat, n: nat) {
    1 <= n <= 4 && i + n <= |s| && Rfc3629(s[i..i + n])
  }

  /** FromUTF8 accepts exactly the sequences of RFC 3629, and encoding its result gives back the bytes it consumed. */
  lemma FromUTF8Accepts(s: seq<octet>, i: nat)
    requires i < |s|
    ensures FromUTF8(s, i).Some? <==> exists n :: WellFormedAt(s, i, n)
    ensures FromUTF8(s, i).Some? ==>
              var d := FromUTF8(s, i).value;
              && WellFormedAt(s, i, d.len) && d.ucc <= 0x10_FFFF && !Surrogate(d.ucc)
              && d.ucc & 0x8000_0000 == 0 && ToUTF8(d.ucc) == s[i..i + d.len]
  {
    var a := s[i];
    LengthByte(a);
    hide LeadingOnes, ToUTF8, Tail, FirstBits, Low6;
    if a <= 0x7F {
      assert s[i..i + 1] == [a];
      Encoded1(a as bv32);
      assert WellFormedAt(s, i, 1);
    } else if 0xC0 <= a <= 0xDF {
      Accepts2(s, i);
      OneLength(s, i);
    } else if 0xE0 <= a <= 0xEF {
      Accepts3(s, i);
      OneLength(s, i);
    } else if 0xF0 <= a <= 0xF7 {
      Accepts4(s, i);
      OneLength(s, i);
    } else {
      OneLength(s, i);
    }
  }

  /** The first byte fixes the length of a well-formed sequence. */
  lemma OneLength(s: seq<octet>, i: nat)
    requires i < |s|
    ensures forall n :: WellFormedAt(s, i, n) ==>
              n == if s[i] <= 0x7F then 1 else if 0xC2 <= s[i] <= 0xDF then 2
                   else if 0xE0 <= s[i] <= 0xEF then 3 else 4
    ensures (exists n :: WellFormedAt(s, i, n)) ==> s[i] <= 0x7F || 0xC2 <= s[i] <= 0xF4
  {
    forall n | WellFormedAt(s, i, n)
      ensures n == if s[i] <= 0x7F then 1 else if 0xC2 <= s[i] <= 0xDF then 2
                   else if 0xE0 <= s[i] <= 0xEF then 3 else 4
      ensures s[i] <= 0x7F || 0xC2 <= s[i] <= 0xF4
    {
      assert s[i..i + n][0] == s[i];
    }
  }

  /** What a decoded sequence of n bytes has to look like. */
  predicate Accepted(s: seq<octet>, i: nat, n: nat, r: Option<Decoded>) {
    && (r.Some? <==> WellFormedAt(s, i, n))
    && (r.Some? ==>
          && r.value.len == n && r.value.ucc <= 0x10_FFFF && !Surrogate(r.value.ucc)
          && r.value.ucc & 0x8000_0000 == 0 && ToUTF8(r.value.ucc) == s[i..i + n])
  }

  lemma Shape2(s: seq<octet>, i: nat)
    requires 0xC0 <= At(s, i) <= 0xDF
    ensures var u := Extended((At(s, i) & 0x1F) as bv32, At(s, i + 1));
            FromUTF8(s, i) ==
            if InTail(At(s, i + 1)) && !Surrogate(u) && ShortestFor(u, 2) then Some(Decoded(u, 2)) else None
  {
    hide LeadingOnes, Tail, FirstBits, Extended, Surrogate, ShortestFor, InTail;
    LengthByte(At(s, i));
    TailIsInTail(At(s, i + 1));
    FirstBitsAre(At(s, i));
    Gather1(s, i + 1, (At(s, i) & 0x1F) as bv32);
  }

  lemma Grammar2(s: seq<octet>, i: nat)
    requires i < |s| && 0xC0 <= s[i] <= 0xDF
    ensures WellFormedAt(s, i, 2) <==> 0xC2 <= s[i] && InTail(At(s, i + 1))
    ensures InTail(At(s, i + 1)) ==> i + 2 <= |s| && s[i..i + 2] == [s[i], s[i + 1]]
  {
    if i + 2 <= |s| {
      assert s[i..i + 2] == [s[i], s[i + 1]];
    }
  }

  lemma Accepts2(s: seq<octet>, i: nat)
    requires i < |s| && 0xC0 <= s[i] <= 0xDF
    ensures Accepted(s, i, 2, FromUTF8(s, i))
  {
    hide FromUTF8, WellFormedAt, ToUTF8, Low6, Extended, InTail, Surrogate;
    Shape2(s, i);
    Grammar2(s, i);
    var a, b := s[i], At(s, i + 1);
    if InTail(b) {
      Bits2(a, b);
      if 0xC2 <= a {
        Encoded2(Extended((a & 0x1F) as bv32, b));
      }
    }
  }

  lemma Gather1(s: seq<octet>, i: nat, u: bv32)
    ensures Gather(s, i, 1, u) == if Tail(At(s, i)) then Some(Extended(u, At(s, i))) else None
  {
    hide Tail;
    assert Gather(s, i + 1, 0, Extended(u, At(s, i))) == Some(Extended(u, At(s, i)));
  }

  lemma Gather2(s: seq<octet>, i: nat, u: bv32)
    ensures Gather(s, i, 2, u) ==
            if Tail(At(s, i)) && Tail(At(s, i + 1)) then Some(Extended(Extended(u, At(s, i)), At(s, i + 1))) else None
  {
    hide Tail;
    Gather1(s, i + 1, Extended(u, At(s, i)));
  }

  lemma Gather3(s: seq<octet>, i: nat, u: bv32)
    ensures Gather(s, i, 3, u) ==
            if Tail(At(s, i)) && Tail(At(s, i + 1)) && Tail(At(s, i + 2))
            then Some(Extended(Extended(Extended(u, At(s, i)), At(s, i + 1)), At(s, i + 2))) else None
  {
    hide Tail;
    Gather2(s, i + 1, Extended(u, At(s, i)));
  }

  lemma Shape3(s: seq<octet>, i: nat)
    requires 0xE0 <= At(s, i) <= 0xEF
    ensures var u := Extended(Extended((At(s, i) & 0x0F) as bv32, At(s, i + 1)), At(s, i + 2));
            FromUTF8(s, i) ==
            if InTail(At(s, i + 1)) && InTail(At(s, i + 2)) && !Surrogate(u) && ShortestFor(u, 3)
            then Some(Decoded(u, 3)) else None
  {
    hide LeadingOnes, Tail, FirstBits, Extended, Surrogate, ShortestFor, InTail;
    LengthByte(At(s, i));
    TailIsInTail(At(s, i + 1));
    TailIsInTail(At(s, i + 2));
    FirstBitsAre(At(s, i));
    Gather2(s, i + 1, (At(s, i) & 0x0F) as bv32);
  }

  lemma Grammar3(s: seq<octet>, i: nat)
    requires i < |s| && 0xE0 <= s[i] <= 0xEF
    ensures WellFormedAt(s, i, 3) <==>
            && InTail(At(s, i + 1)) && InTail(At(s, i + 2))
            && SecondOk3(s[i], At(s, i + 1))
    ensures InTail(At(s, i + 1)) && InTail(At(s, i + 2)) ==> i + 3 <= |s| && s[i..i + 3] == [s[i], s[i + 1], s[i + 2]]
  {
    if i + 3 <= |s| {
      assert s[i..i + 3] == [s[i], s[i + 1], s[i + 2]];
    }
  }

  lemma Accepts3(s: seq<octet>, i: nat)
    requires i < |s| && 0xE0 <= s[i] <= 0xEF
    ensures Accepted(s, i, 3, FromUTF8(s, i))
  {
    hide FromUTF8, WellFormedAt, ToUTF8, Extended, InTail, Surrogate, ShortestFor, SecondOk3, SecondOk4;
    Shape3(s, i);
    Grammar3(s, i);
    if InTail(At(s, i + 1)) && InTail(At(s, i + 2)) {
      Verdict3(s[i], At(s, i + 1), At(s, i + 2));
    }
  }

  lemma Verdict3(a: octet, b: octet, c: octet)
    requires 0xE0 <= a <= 0xEF && InTail(b) && InTail(c)
    ensures var u := Extended(Extended((a & 0x0F) as bv32, b), c);
            && (!Surrogate(u) && ShortestFor(u, 3) <==> SecondOk3(a, b))
            && (ShortestFor(u, 3) ==> u <= 0x10_FFFF && u & 0x8000_0000 == 0 && ToUTF8(u) == [a, b, c])
  {
    hide ToUTF8, Low6, Extended, InTail, Surrogate, Lead3, Lead4, SecondOk3, SecondOk4;
    var u := Extended(Extended((a & 0x0F) as bv32, b), c);
    Bits3(a, b, c);
    if 0x800 <= u <= 0xFFFF {
      Encoded3(u);
    }
  }

  lemma Shape4(s: seq<octet>, i: nat)
    requires 0xF0 <= At(s, i) <= 0xF7
    ensures var u := Extended(Extended(Extended((At(s, i) & 0x07) as bv32, At(s, i + 1)), At(s, i + 2)), At(s, i + 3));
            FromUTF8(s, i) ==
            if InTail(At(s, i + 1)) && InTail(At(s, i + 2)) && InTail(At(s, i + 3)) && !Surrogate(u) && ShortestFor(u, 4)
            then Some(Decoded(u, 4)) else None
  {
    hide LeadingOnes, Tail, FirstBits, Extended, Surrogate, ShortestFor, InTail;
    LengthByte(At(s, i));
    TailIsInTail(At(s, i + 1));
    TailIsInTail(At(s, i + 2));
    TailIsInTail(At(s, i + 3));
    FirstBitsAre(At(s, i));
    Gather3(s, i + 1, (At(s, i) & 0x07) as bv32);
  }

  lemma Grammar4(s: seq<octet>, i: nat)
    requires i < |s| && 0xF0 <= s[i] <= 0xF7
    ensures WellFormedAt(s, i, 4) <==>
            && InTail(At(s, i + 1)) && InTail(At(s, i + 2)) && InTail(At(s, i + 3))
            && SecondOk4(s[i], At(s, i + 1))
    ensures InTail(At(s, i + 1)) && InTail(At(s, i + 2)) && InTail(At(s, i + 3)) ==>
            i + 4 <= |s| && s[i..i + 4] == [s[i], s[i + 1], s[i + 2], s[i + 3]]
  {
    if i + 4 <= |s| {
      assert s[i..i + 4] == [s[i], s[i + 1], s[i + 2], s[i + 3]];
    }
  }

  lemma Accepts4(s: seq<octet>, i: nat)
    requires i < |s| && 0xF0 <= s[i] <= 0xF7
    ensures Accepted(s, i, 4, FromUTF8(s, i))
  {
    hide FromUTF8, WellFormedAt, ToUTF8, Extended, InTail, Surrogate, ShortestFor, SecondOk3, SecondOk4;
    Shape4(s, i);
    Grammar4(s, i);
    if InTail(At(s, i + 1)) && InTail(At(s, i + 2)) && InTail(At(s, i + 3)) {
      Verdict4(s[i], At(s, i + 1), At(s, i + 2), At(s, i + 3));
    }
  }

  lemma Verdict4(a: octet, b: octet, c: octet, d: octet)
    requires 0xF0 <= a <= 0xF7 && InTail(b) && InTail(c) && InTail(d)
    ensures var u := Extended(Extended(Extended((a & 0x07) as bv32, b), c), d);
            && (!Surrogate(u) && ShortestFor(u, 4) <==> SecondOk4(a, b))
            && (ShortestFor(u, 4) ==> u <= 0x10_FFFF && u & 0x8000_0000 == 0 && ToUTF8(u) == [a, b, c, d])
  {
    hide ToUTF8, Extended, InTail, Surrogate, SecondOk4, BitsOf4, ShortestFor;
    Bits4(a, b, c, d);
    VerdictOf4(Extended(Extended(Extended((a & 0x07) as bv32, b), c), d), a, b, c, d);
  }

  lemma VerdictOf4(u: bv32, a: octet, b: octet, c: octet, d: octet)
    requires BitsOf4(u, a, b, c, d)
    ensures !Surrogate(u) && ShortestFor(u, 4) <==> SecondOk4(a, b)
    ensures ShortestFor(u, 4) ==> u <= 0x10_FFFF && u & 0x8000_0000 == 0 && ToUTF8(u) == [a, b, c, d]
  {
    hide ToUTF8, Low6, Surrogate, Lead4, SecondOk4;
    if 0x1_0000 <= u <= 0x10_FFFF {
      Encoded4(u);
    }
  }

  /** Group number j from the end: six bits of u, with the mark of a continuation byte. */
  predicate GroupAt(s: seq<octet>, u: bv32, j: nat)
    requires j < |s| && j < 5
  {
    GroupByte(s[|s| - 1 - j], u, j)
  }

  predicate GroupByte(c: octet, u: bv32, j: nat)
    requires j < 5
  {
    c as bv32 == 0x80 | ((u >> (6 * j)) & 0x3F)
  }

  /**
   The function encodes more than the code points of Unicode: a number of up to 31 bits gets the least of six
   lengths, as many leading ones, and its bits in groups of six from the end.
   */
  lemma ToUTF8Layout(u: bv32)
    requires u & 0x8000_0000 == 0
    ensures var s, n := ToUTF8(u), ExtraBytes(u);
            && |s| == n + 1
            && s[0] as bv32 == FirstOf(u, n)
            && forall j :: 0 <= j < n ==> GroupAt(s, u, j)
    ensures ExtraBytes(u) == if u < 0x80 then 0 else if u < 0x800 then 1 else if u < 0x1_0000 then 2
                             else if u < 0x20_0000 then 3 else if u < 0x400_0000 then 4 else 5
  {
    hide FirstByte, ContinuationByte, ExtraBytes, Continuation, ToUTF8, FirstOf, GroupAt;
    var n := ExtraBytes(u);
    FirstThenRest(u);
    FirstByteIs(u);
    forall j | 0 <= j < n ensures GroupAt(ToUTF8(u), u, j) {
      GroupFound(u, FirstByte(u, n), n, j);
    }
    LengthIs(u);
  }

  lemma GroupFound(u: bv32, first: octet, n: nat, j: nat)
    requires j < n <= 5
    ensures GroupAt([first] + Continuation(u, n), u, j)
  {
    hide ContinuationByte, Continuation, GroupByte;
    ContinuationIs(u, n, j);
    GroupOf(u, j);
    assert ([first] + Continuation(u, n))[n - j] == Continuation(u, n)[n - 1 - j];
  }

  /** The leading ones of a sequence with n further bytes, and the bits above the groups. */
  function FirstOf(u: bv32, n: nat): bv32
    requires n < 6
  {
    if n == 0 then u
    else if n == 1 then 0xC0 | (u >> 6)
    else if n == 2 then 0xE0 | (u >> 12)
    else if n == 3 then 0xF0 | (u >> 18)
    else if n == 4 then 0xF8 | (u >> 24)
    else 0xFC | (u >> 30)
  }

  lemma LengthIs(u: bv32)
    requires u & 0x8000_0000 == 0
    ensures ExtraBytes(u) == if u < 0x80 then 0 else if u < 0x800 then 1 else if u < 0x1_0000 then 2
                             else if u < 0x20_0000 then 3 else if u < 0x400_0000 then 4 else 5
  {
  }

  lemma FirstByteIs(u: bv32)
    requires u & 0x8000_0000 == 0
    ensures FirstByte(u, ExtraBytes(u)) as bv32 == FirstOf(u, ExtraBytes(u))
  {
    hide FirstByte;
    LengthIs(u);
    if u < 0x80 {
      First0(u);
    } else if u < 0x800 {
      First1(u);
    } else if u < 0x1_0000 {
      First2(u);
    } else if u < 0x20_0000 {
      First3(u);
    } else if u < 0x400_0000 {
      First4(u);
    } else {
      First5(u);
    }
  }

  lemma First0(u: bv32)
    requires u < 0x80
    ensures FirstByte(u, 0) as bv32 == u
  {
  }

  function LeadOf1(u: bv32): octet {
    (((0xFE << 5) | (u >> 6)) & 0xFF) as octet
  }

  lemma First1(u: bv32)
    requires u < 0x800
    ensures FirstByte(u, 1) as bv32 == 0xC0 | (u >> 6)
  {
    hide FirstByte, LeadOf1;
    LeadIs1(u);
    LeadBits1(u);
  }

  lemma LeadIs1(u: bv32)
    ensures FirstByte(u, 1) == LeadOf1(u)
  {
    assert MaxBits(1) - 6 * 1 == 5;
  }

  lemma LeadBits1(u: bv32)
    requires u < 0x800
    ensures LeadOf1(u) as bv32 == 0xC0 | (u >> 6)
  {
  }

  function LeadOf2(u: bv32): octet {
    (((0xFE << 4) | (u >> 12)) & 0xFF) as octet
  }

  lemma First2(u: bv32)
    requires u < 0x1_0000
    ensures FirstByte(u, 2) as bv32 == 0xE0 | (u >> 12)
  {
    hide FirstByte, LeadOf2;
    LeadIs2(u);
    LeadBits2(u);
  }

  lemma LeadIs2(u: bv32)
    ensures FirstByte(u, 2) == LeadOf2(u)
  {
    assert MaxBits(2) - 6 * 2 == 4;
  }

  lemma LeadBits2(u: bv32)
    requires u < 0x1_0000
    ensures LeadOf2(u) as bv32 == 0xE0 | (u >> 12)
  {
  }

  function LeadOf3(u: bv32): octet {
    (((0xFE << 3) | (u >> 18)) & 0xFF) as octet
  }

  lemma First3(u: bv32)
    requires u < 0x20_0000
    ensures FirstByte(u, 3) as bv32 == 0xF0 | (u >> 18)
  {
    hide FirstByte, LeadOf3;
    LeadIs3(u);
    LeadBits3(u);
  }

  lemma LeadIs3(u: bv32)
    ensures FirstByte(u, 3) == LeadOf3(u)
  {
    assert MaxBits(3) - 6 * 3 == 3;
  }

  lemma LeadBits3(u: bv32)
    requires u < 0x20_0000
    ensures LeadOf3(u) as bv32 == 0xF0 | (u >> 18)
  {
  }

  function LeadOf4(u: bv32): octet {
    (((0xFE << 2) | (u >> 24)) & 0xFF) as octet
  }

  lemma First4(u: bv32)
    requires u < 0x400_0000
    ensures FirstByte(u, 4) as bv32 == 0xF8 | (u >> 24)
  {
    hide FirstByte, LeadOf4;
    LeadIs4(u);
    LeadBits4(u);
  }

  lemma LeadIs4(u: bv32)
    ensures FirstByte(u, 4) == LeadOf4(u)
  {
    assert MaxBits(4) - 6 * 4 == 2;
  }

  lemma LeadBits4(u: bv32)
    requires u < 0x400_0000
    ensures LeadOf4(u) as bv32 == 0xF8 | (u >> 24)
  {
  }

  function LeadOf5(u: bv32): octet {
    (((0xFE << 1) | (u >> 30)) & 0xFF) as octet
  }

  lemma First5(u: bv32)
    requires u & 0x8000_0000 == 0
    ensures FirstByte(u, 5) as bv32 == 0xFC | (u >> 30)
  {
    hide FirstByte, LeadOf5;
    LeadIs5(u);
    LeadBits5(u);
  }

  lemma LeadIs5(u: bv32)
    ensures FirstByte(u, 5) == LeadOf5(u)
  {
    assert MaxBits(5) - 6 * 5 == 1;
  }

  lemma LeadBits5(u: bv32)
    requires u & 0x8000_0000 == 0
    ensures LeadOf5(u) as bv32 == 0xFC | (u >> 30)
  {
  }

  lemma GroupOf(u: bv32, j: nat)
    requires j < 5
    ensures GroupByte(ContinuationByte(u, j), u, j)
  {
  }

  lemma {:induction false} ContinuationIs(u: bv32, n: nat, j: nat)
    requires j < n <= 5
    ensures Continuation(u, n)[n - 1 - j] == ContinuationByte(u, j)
    decreases n
  {
    hide ContinuationByte;
    if j < n - 1 {
      ContinuationIs(u, n - 1, j);
    }
  }

  /** Conversely, every code point that is not a surrogate is encoded as a sequence that decodes to it. */
  lemma ToUTF8Decodes(u: bv32, rest: seq<octet>)
    requires u <= 0x10_FFFF && !Surrogate(u)
    ensures u & 0x8000_0000 == 0 && FromUTF8(ToUTF8(u) + rest, 0) == Some(Decoded(u, |ToUTF8(u)|))
  {
    SmallCodePoint(u);
    var s := ToUTF8(u) + rest;
    hide LeadingOnes, Tail, FirstBits, Low6, Extended, FirstByte, ContinuationByte, ToUTF8;
    if u < 0x80 {
      Encoded1(u);
      OneBack(u);
      LengthByte((u & 0xFF) as octet);
      assert At(s, 0) == (u & 0xFF) as octet;
    } else if u <= 0x7FF {
      Decodes2(u, s);
    } else if u <= 0xFFFF {
      Decodes3(u, s);
    } else {
      Decodes4(u, s);
    }
  }

  lemma Decodes2(u: bv32, s: seq<octet>)
    requires 0x80 <= u <= 0x7FF && u & 0x8000_0000 == 0 && ToUTF8(u) <= s
    ensures FromUTF8(s, 0) == Some(Decoded(u, |ToUTF8(u)|))
  {
    hide FromUTF8, Low6, Extended, ToUTF8, Lead2, InTail;
    Encoded2(u);
    Back2(u);
    assert At(s, 0) == ToUTF8(u)[0] && At(s, 1) == ToUTF8(u)[1];
    Shape2(s, 0);
  }

  lemma Decodes3(u: bv32, s: seq<octet>)
    requires 0x800 <= u <= 0xFFFF && !Surrogate(u) && u & 0x8000_0000 == 0 && ToUTF8(u) <= s
    ensures FromUTF8(s, 0) == Some(Decoded(u, |ToUTF8(u)|))
  {
    hide FromUTF8, Low6, Extended, ToUTF8, Lead3, InTail;
    Encoded3(u);
    Back3(u);
    assert At(s, 0) == ToUTF8(u)[0] && At(s, 1) == ToUTF8(u)[1] && At(s, 2) == ToUTF8(u)[2];
    Shape3(s, 0);
  }

  lemma Decodes4(u: bv32, s: seq<octet>)
    requires 0x1_0000 <= u <= 0x10_FFFF && u & 0x8000_0000 == 0 && ToUTF8(u) <= s
    ensures FromUTF8(s, 0) == Some(Decoded(u, |ToUTF8(u)|))
  {
    hide FromUTF8, Low6, Extended, ToUTF8, Lead4, InTail;
    Encoded4(u);
    Back4(u);
    assert At(s, 0) == ToUTF8(u)[0] && At(s, 1) == ToUTF8(u)[1] && At(s, 2) == ToUTF8(u)[2] && At(s, 3) == ToUTF8(u)[3];
    Shape4(s, 0);
  }

  lemma OneBack(u: bv32)
    requires u < 0x80
    ensures ((u & 0xFF) as octet) as bv32 == u && (u & 0xFF) as octet <= 0x7F
  {
  }

  lemma Back2(u: bv32)
    requires 0x80 <= u <= 0x7FF
    ensures var a := Lead2(u);
            0xC0 <= a <= 0xDF && InTail(Low6(u)) && Extended((a & 0x1F) as bv32, Low6(u)) == u
  {
  }

  lemma Back3(u: bv32)
    requires 0x800 <= u <= 0xFFFF
    ensures var a := Lead3(u);
            && 0xE0 <= a <= 0xEF && InTail(Low6(u)) && InTail(Low6(u >> 6))
            && Extended(Extended((a & 0x0F) as bv32, Low6(u >> 6)), Low6(u)) == u
  {
  }

  lemma Back4(u: bv32)
    requires 0x1_0000 <= u <= 0x10_FFFF
    ensures var a := Lead4(u);
            && 0xF0 <= a <= 0xF7 && InTail(Low6(u)) && InTail(Low6(u >> 6)) && InTail(Low6(u >> 12))
            && Extended(Extended(Extended((a & 0x07) as bv32, Low6(u >> 12)), Low6(u >> 6)), Low6(u)) == u
  {
  }
}
