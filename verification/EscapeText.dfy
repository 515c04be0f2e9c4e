/** EscapeString of util.h, and a decoder after section 7 of RFC 8259 with the \xHH escape added. */
module EscapeText {
  import opened Wrappers
  import opened Utf8

  const BACKSLASH: octet := 0x5C
  const QUOTE: octet := 0x22
  const LETTER_U: octet := 0x75
  const LETTER_X: octet := 0x78

  // ---------- hexadecimal ----------

  function HexDigit(n: octet): octet
    requires n < 16
  {
    if n < 10 then 0x30 + n else 0x37 + n
  }

  function HexValue(c: octet): (r: Option<octet>)
    ensures r.Some? ==> r.value < 16
  {
    if 0x30 <= c <= 0x39 then Some(c - 0x30)
    else if 0x41 <= c <= 0x46 then Some(c - 0x37)
    else if 0x61 <= c <= 0x66 then Some(c - 0x57)
    else None
  }

  lemma HexRoundTrip(n: octet)
    requires n < 16
    ensures HexValue(HexDigit(n)) == Some(n)
  {
  }

  /** IntToStringHex with two digits. */
  function Hex2(b: octet): (s: seq<octet>)
    ensures |s| == 2
  {
    [HexDigit(b >> 4), HexDigit(b & 0xF)]
  }

  function Nibble(u: bv32, k: nat): (n: octet)
    requires k < 4
    ensures n < 16
  {
    if k == 0 then (u & 0xF) as octet
    else if k == 1 then ((u >> 4) & 0xF) as octet
    else if k == 2 then ((u >> 8) & 0xF) as octet
    else ((u >> 12) & 0xF) as octet
  }

  /** IntToStringHex with four digits. */
  function Hex4(u: bv32): (s: seq<octet>)
    ensures |s| == 4
  {
    [HexDigit(Nibble(u, 3)), HexDigit(Nibble(u, 2)), HexDigit(Nibble(u, 1)), HexDigit(Nibble(u, 0))]
  }

  // ---------- escaping ----------

  /** The letter of a two-character escape. */
  function ShortEscape(c: octet): Option<octet> {
    if c == 0x0A then Some(0x6E)
    else if c == 0x09 then Some(0x74)
    else if c == 0x0D then Some(0x72)
    else if c == 0x08 then Some(0x62)
    else if c == 0x0C then Some(0x66)
    else if c == QUOTE then Some(QUOTE)
    else if c == BACKSLASH then Some(BACKSLASH)
    else None
  }

  predicate Printable(c: octet) {
    0x20 <= c <= 0x7E
  }

  function UnicodeEscape(u: bv32): seq<octet> {
    [BACKSLASH, LETTER_U] + Hex4(u)
  }

  function HighSurrogate(u: bv32): bv32 {
    ((u - 0x1_0000) >> 10) + 0xD800
  }

  function LowSurrogate(u: bv32): bv32 {
    ((u - 0x1_0000) & 0x3FF) + 0xDC00
  }

  /** The short escapes are those that the decoder knows, except for the slash. */
  lemma ShortEscapeIs(c: octet, letter: octet)
    ensures ShortEscape(c) == Some(letter) <==> letter != 0x2F && ShortValue(letter) == Some(c)
  {
  }

  /** The text for a code point: one escape, or a surrogate pair. */
  function CodePointText(u: bv32): seq<octet> {
    if u <= 0xFFFF then UnicodeEscape(u) else UnicodeEscape(HighSurrogate(u)) + UnicodeEscape(LowSurrogate(u))
  }

  /** The text for what stands at position i, and the number of bytes it covers; None where the code gives up. */
  function Piece(s: seq<octet>, i: nat, allowNonUtf8: bool, naturalUtf8: bool): (r: Option<(seq<octet>, nat)>)
    requires i < |s|
    ensures r.Some? ==> 0 < r.value.1 <= |s| - i
  {
    var c := s[i];
    if ShortEscape(c).Some? then Some(([BACKSLASH, ShortEscape(c).value], 1))
    else if Printable(c) then Some(([c], 1))
    else
      FromUTF8Accepts(s, i);
      match FromUTF8(s, i)
      case None => if allowNonUtf8 then Some(([BACKSLASH, LETTER_X] + Hex2(c), 1)) else None
      case Some(d) => Some((if naturalUtf8 then s[i..i + d.len] else CodePointText(d.ucc), d.len))
  }

  function EscapeFrom(s: seq<octet>, i: nat, allowNonUtf8: bool, naturalUtf8: bool): Option<seq<octet>>
    requires i <= |s|
    decreases |s| - i
  {
    if i == |s| then Some([])
    else
      match Piece(s, i, allowNonUtf8, naturalUtf8)
      case None => None
      case Some((text, n)) =>
        match EscapeFrom(s, i + n, allowNonUtf8, naturalUtf8)
        case None => None
        case Some(rest) => Some(text + rest)
  }

  /** The quoted text; None where the code returns false. */
  function Escaped(s: seq<octet>, allowNonUtf8: bool, naturalUtf8: bool): Option<seq<octet>> {
    match EscapeFrom(s, 0, allowNonUtf8, naturalUtf8)
    case None => None
    case Some(body) => Some([QUOTE] + body + [QUOTE])
  }

  /** The loop, appending to the text and skipping the characters that were recognized. */
  method EscapeString(s: seq<octet>, text0: seq<octet>, allowNonUtf8: bool, naturalUtf8: bool)
    returns (ok: bool, text: seq<octet>)
    ensures ok <==> Escaped(s, allowNonUtf8, naturalUtf8).Some?
    ensures ok ==> text == text0 + Escaped(s, allowNonUtf8, naturalUtf8).value
  {
    hide Piece;
    text := text0 + [QUOTE];
    ghost var done: seq<octet> := [];
    var i := 0;
    ghost var all := EscapeFrom(s, 0, allowNonUtf8, naturalUtf8);
    assert all.Some? ==> done + all.value == all.value;
    while i < |s|
      invariant i <= |s| && text == text0 + [QUOTE] + done
      invariant match EscapeFrom(s, i, allowNonUtf8, naturalUtf8)
                case None => all.None?
                case Some(rest) => all == Some(done + rest)
      decreases |s| - i
    {
      var piece := NextPiece(s, i, allowNonUtf8, naturalUtf8);
      if piece.None? {
        return false, text;
      }
      var (t, n) := piece.value;
      ghost var rest := EscapeFrom(s, i + n, allowNonUtf8, naturalUtf8);
      if rest.Some? {
        assert done + (t + rest.value) == (done + t) + rest.value;
      }
      text := text + t;
      done := done + t;
      i := i + n;
    }
    text := text + [QUOTE];
    assert text == text0 + ([QUOTE] + done + [QUOTE]);
    return true, text;
  }

  /** One turn of the loop. */
  method NextPiece(s: seq<octet>, i: nat, allowNonUtf8: bool, naturalUtf8: bool) returns (r: Option<(seq<octet>, nat)>)
    requires i < |s|
    ensures r == Piece(s, i, allowNonUtf8, naturalUtf8)
  {
    hide FromUTF8, CodePointText, Hex2, ShortEscape;
    var c := s[i];
    if ShortEscape(c).Some? {
      return Some(([BACKSLASH, ShortEscape(c).value], 1));
    }
    if Printable(c) {
      return Some(([c], 1));
    }
    FromUTF8Accepts(s, i);
    var d := Utf8.Decode(s, i);
    if d.None? {
      return if allowNonUtf8 then Some(([BACKSLASH, LETTER_X] + Hex2(c), 1)) else None;
    }
    return Some((if naturalUtf8 then s[i..i + d.value.len] else CodePointText(d.value.ucc), d.value.len));
  }

  // ---------- the decoder ----------

  function ShortValue(c: octet): Option<octet> {
    if c == 0x6E then Some(0x0A)
    else if c == 0x74 then Some(0x09)
    else if c == 0x72 then Some(0x0D)
    else if c == 0x62 then Some(0x08)
    else if c == 0x66 then Some(0x0C)
    else if c == QUOTE || c == BACKSLASH || c == 0x2F then Some(c)
    else None
  }

  function ReadHex2(t: seq<octet>, i: nat): Option<octet> {
    if i + 2 > |t| then None
    else
      match (HexValue(t[i]), HexValue(t[i + 1]))
      case (Some(a), Some(b)) => Some((a << 4) | b)
      case _ => None
  }

  function ReadHex4(t: seq<octet>, i: nat): Option<bv32> {
    match (ReadHex2(t, i), ReadHex2(t, i + 2))
    case (Some(a), Some(b)) => Some(((a as bv32) << 8) | (b as bv32))
    case _ => None
  }

  predicate IsHigh(u: bv32) {
    0xD800 <= u <= 0xDBFF
  }

  predicate IsLow(u: bv32) {
    0xDC00 <= u <= 0xDFFF
  }

  function Combined(high: bv32, low: bv32): bv32 {
    ((high - 0xD800) << 10) + (low - 0xDC00) + 0x1_0000
  }

  /** A \u escape, or a pair of them. */
  function UnicodeValue(t: seq<octet>): Option<(seq<octet>, nat)> {
    match ReadHex4(t, 2)
    case None => None
    case Some(u) =>
      if IsHigh(u) then
        if |t| < 8 || t[6] != BACKSLASH || t[7] != LETTER_U then None
        else
          match ReadHex4(t, 8)
          case None => None
          case Some(low) =>
            var c := Combined(u, low);
            if !IsLow(low) || c & 0x8000_0000 != 0 then None else Some((ToUTF8(c), 12))
      else if IsLow(u) || u & 0x8000_0000 != 0 then None
      else Some((ToUTF8(u), 6))
  }

  /** The bytes for the next character of the text, and its length; raw control characters are not allowed. */
  function Unit(t: seq<octet>): (r: Option<(seq<octet>, nat)>)
    requires t != []
    ensures r.Some? ==> 0 < r.value.1
  {
    if t[0] == BACKSLASH then
      if |t| < 2 then None
      else if ShortValue(t[1]).Some? then Some(([ShortValue(t[1]).value], 2))
      else if t[1] == LETTER_X then
        match ReadHex2(t, 2)
        case None => None
        case Some(b) => Some(([b], 4))
      else if t[1] == LETTER_U then UnicodeValue(t)
      else None
    else if t[0] == QUOTE || t[0] < 0x20 then None
    else Some(([t[0]], 1))
  }

  function Unescaped(t: seq<octet>): Option<seq<octet>>
    decreases |t|
  {
    if t == [] then Some([])
    else
      match Unit(t)
      case None => None
      case Some((bytes, n)) =>
        if n > |t| then None
        else
          match Unescaped(t[n..])
          case None => None
          case Some(rest) => Some(bytes + rest)
  }

  /** A quoted text. */
  function Unquoted(t: seq<octet>): Option<seq<octet>> {
    if |t| >= 2 && t[0] == QUOTE && t[|t| - 1] == QUOTE then Unescaped(t[1..|t| - 1]) else None
  }

  // ---------- one piece ----------

  lemma Hex2Reads(t: seq<octet>, i: nat, b: octet)
    requires i + 2 <= |t| && t[i..i + 2] == Hex2(b)
    ensures ReadHex2(t, i) == Some(b)
  {
    hide HexDigit, HexValue;
    assert t[i] == t[i..i + 2][0] && t[i + 1] == t[i..i + 2][1];
    NibblesOf(b);
    HexRoundTrip(b >> 4);
    HexRoundTrip(b & 0xF);
  }

  lemma NibblesOf(b: octet)
    ensures b >> 4 < 16 && b & 0xF < 16 && ((b >> 4) << 4) | (b & 0xF) == b
  {
  }

  lemma Hex4Reads(t: seq<octet>, i: nat, u: bv32)
    requires u <= 0xFFFF && i + 4 <= |t| && t[i..i + 4] == Hex4(u)
    ensures ReadHex4(t, i) == Some(u)
  {
    hide HexDigit, HexValue, Nibble;
    assert t[i] == t[i..i + 4][0] && t[i + 1] == t[i..i + 4][1] && t[i + 2] == t[i..i + 4][2] && t[i + 3] == t[i..i + 4][3];
    HexRoundTrip(Nibble(u, 3));
    HexRoundTrip(Nibble(u, 2));
    HexRoundTrip(Nibble(u, 1));
    HexRoundTrip(Nibble(u, 0));
    NibblesOf4(u);
  }

  lemma NibblesOf4(u: bv32)
    requires u <= 0xFFFF
    ensures ((((Nibble(u, 3) << 4) | Nibble(u, 2)) as bv32) << 8) | (((Nibble(u, 1) << 4) | Nibble(u, 0)) as bv32) == u
  {
  }

  lemma SurrogatePair(u: bv32)
    requires 0x1_0000 <= u <= 0x10_FFFF
    ensures IsHigh(HighSurrogate(u)) && IsLow(LowSurrogate(u)) && Combined(HighSurrogate(u), LowSurrogate(u)) == u
    ensures HighSurrogate(u) <= 0xFFFF && LowSurrogate(u) <= 0xFFFF
  {
    PairRanges(u);
    PairCombines(u);
    hide HighSurrogate, LowSurrogate, Combined, IsHigh, IsLow;
  }

  lemma PairRanges(u: bv32)
    requires 0x1_0000 <= u <= 0x10_FFFF
    ensures IsHigh(HighSurrogate(u)) && IsLow(LowSurrogate(u))
    ensures HighSurrogate(u) <= 0xFFFF && LowSurrogate(u) <= 0xFFFF
  {
  }

  lemma PairCombines(u: bv32)
    ensures Combined(HighSurrogate(u), LowSurrogate(u)) == u
  {
    SplitAtTen(u - 0x1_0000);
    TakenBack((u - 0x1_0000) >> 10, (u - 0x1_0000) & 0x3FF);
  }

  lemma TakenBack(h: bv32, l: bv32)
    ensures (h + 0xD800) - 0xD800 == h && (l + 0xDC00) - 0xDC00 == l
  {
  }

  lemma SplitAtTen(x: bv32)
    ensures ((x >> 10) << 10) + (x & 0x3FF) == x
  {
  }

  lemma SurrogateKinds(u: bv32)
    requires !Surrogate(u)
    ensures !IsHigh(u) && !IsLow(u)
  {
  }

  /** The text for a code point decodes to its UTF-8 bytes. */
  lemma CodePointUnit(u: bv32, rest: seq<octet>)
    requires u <= 0x10_FFFF && !Surrogate(u) && u & 0x8000_0000 == 0
    ensures Unit(CodePointText(u) + rest) == Some((ToUTF8(u), |CodePointText(u)|))
  {
    hide Hex4, ReadHex4, ToUTF8, HighSurrogate, LowSurrogate, Combined, IsHigh, IsLow, Surrogate;
    var t := CodePointText(u) + rest;
    if u <= 0xFFFF {
      assert t[2..6] == Hex4(u);
      Hex4Reads(t, 2, u);
      SurrogateKinds(u);
    } else {
      var high, low := HighSurrogate(u), LowSurrogate(u);
      SurrogatePair(u);
      assert t[2..6] == Hex4(high);
      assert t[8..12] == Hex4(low);
      Hex4Reads(t, 2, high);
      Hex4Reads(t, 8, low);
    }
  }

  /** A piece that is not copied decodes, as one unit, to the bytes it covers. */
  lemma PieceUnit(s: seq<octet>, i: nat, allowNonUtf8: bool, naturalUtf8: bool, rest: seq<octet>)
    requires i < |s| && Piece(s, i, allowNonUtf8, naturalUtf8).Some?
    requires naturalUtf8 ==> ShortEscape(s[i]).Some? || Printable(s[i]) || FromUTF8(s, i).None?
    ensures var (text, n) := Piece(s, i, allowNonUtf8, naturalUtf8).value;
            text != [] && Unit(text + rest) == Some((s[i..i + n], |text|))
  {
    hide FromUTF8, ToUTF8, CodePointText, Hex2, ReadHex2;
    var c := s[i];
    var (text, n) := Piece(s, i, allowNonUtf8, naturalUtf8).value;
    FromUTF8Accepts(s, i);
    if ShortEscape(c).Some? || Printable(c) {
      assert s[i..i + 1] == [c];
    } else if FromUTF8(s, i).None? {
      assert s[i..i + 1] == [c];
      assert (text + rest)[2..4] == Hex2(c);
      Hex2Reads(text + rest, 2, c);
    } else {
      CodePointUnit(FromUTF8(s, i).value.ucc, rest);
      CodePointTextNotEmpty(FromUTF8(s, i).value.ucc);
    }
  }

  lemma CodePointTextNotEmpty(u: bv32)
    ensures CodePointText(u) != []
  {
    hide Hex4;
  }

  lemma UnitThenRest(text: seq<octet>, rest: seq<octet>, bytes: seq<octet>)
    requires text != [] && Unit(text + rest) == Some((bytes, |text|))
    ensures Unescaped(text + rest) == match Unescaped(rest) case None => None case Some(r) => Some(bytes + r)
  {
    hide Unit;
    assert (text + rest)[|text|..] == rest;
  }

  // ---------- copied bytes ----------

  /** Bytes that stand for themselves in a text. */
  predicate Plain(raw: seq<octet>) {
    forall k :: 0 <= k < |raw| ==> raw[k] >= 0x20 && raw[k] != QUOTE && raw[k] != BACKSLASH
  }

  lemma PlainUnit(c: octet, rest: seq<octet>)
    requires c >= 0x20 && c != QUOTE && c != BACKSLASH
    ensures Unit([c] + rest) == Some(([c], 1))
  {
  }

  lemma {:induction false} PlainDecodes(raw: seq<octet>, rest: seq<octet>)
    requires Plain(raw)
    ensures Unescaped(raw + rest) == match Unescaped(rest) case None => None case Some(r) => Some(raw + r)
    decreases |raw|
  {
    hide Unescaped, Unit;
    if raw == [] {
      assert raw + rest == rest;
      if Unescaped(rest).Some? {
        assert raw + Unescaped(rest).value == Unescaped(rest).value;
      }
    } else {
      assert raw + rest == [raw[0]] + (raw[1..] + rest);
      PlainDecodes(raw[1..], rest);
      PlainUnit(raw[0], raw[1..] + rest);
      UnitThenRest([raw[0]], raw[1..] + rest, [raw[0]]);
      if Unescaped(rest).Some? {
        assert raw + Unescaped(rest).value == [raw[0]] + (raw[1..] + Unescaped(rest).value);
      }
    }
  }

  /** A control character that has no short escape and would be copied. */
  predicate RawControl(c: octet) {
    c < 0x20 && c != 0x08 && c != 0x09 && c != 0x0A && c != 0x0C && c != 0x0D
  }

  /** The bytes of a sequence that is copied: one control character, or all plain. */
  lemma CopiedBytes(s: seq<octet>, i: nat)
    requires i < |s| && FromUTF8(s, i).Some? && ShortEscape(s[i]).None? && !Printable(s[i])
    ensures var n := FromUTF8(s, i).value.len;
            && 0 < n <= |s| - i
            && if RawControl(s[i]) then n == 1
               else Plain(s[i..i + n]) && forall k :: i <= k < i + n ==> !RawControl(s[k])
  {
    hide FromUTF8, ToUTF8;
    FromUTF8Accepts(s, i);
    OneLength(s, i);
    var n := FromUTF8(s, i).value.len;
    assert WellFormedAt(s, i, n);
    var c := s[i..i + n];
    assert forall k :: 0 <= k < n ==> c[k] == s[i + k];
    hide WellFormedAt;
    if n > 1 {
      LongSequence(c);
    }
  }

  lemma LongSequence(c: seq<octet>)
    requires Rfc3629(c) && |c| > 1
    ensures forall k :: 0 <= k < |c| ==> c[k] >= 0x80
  {
  }

  // ---------- the text of each piece ----------

  /** Hexadecimal digits are in upper case. */
  predicate UpperHex(c: octet) {
    0x30 <= c <= 0x39 || 0x41 <= c <= 0x46
  }

  /** One escape of four digits for each unit of UTF-16. */
  predicate UnicodeText(text: seq<octet>, units: nat) {
    && |text| == 6 * units
    && forall k :: 0 <= k < |text| ==>
         if k % 6 == 0 then text[k] == BACKSLASH else if k % 6 == 1 then text[k] == LETTER_U else UpperHex(text[k])
  }

  /** Which form of text stands for which bytes; what it decodes to is the round trip below. */
  lemma PieceText(s: seq<octet>, i: nat, allowNonUtf8: bool, naturalUtf8: bool)
    requires i < |s|
    ensures var c, r, d := s[i], Piece(s, i, allowNonUtf8, naturalUtf8), FromUTF8(s, i);
            if c == QUOTE || c == BACKSLASH || (c < 0x20 && !RawControl(c)) then
              r.Some? && r.value.1 == 1 && |r.value.0| == 2 && r.value.0[0] == BACKSLASH && ShortValue(r.value.0[1]) == Some(c)
            else if 0x20 <= c < 0x7F then r == Some(([c], 1))
            else if d.Some? && naturalUtf8 then r == Some((s[i..i + d.value.len], d.value.len))
            else if d.Some? then
              r.Some? && r.value.1 == d.value.len && UnicodeText(r.value.0, if d.value.ucc <= 0xFFFF then 1 else 2)
            else if allowNonUtf8 then
              && r.Some? && r.value.1 == 1 && |r.value.0| == 4 && r.value.0[..2] == [BACKSLASH, LETTER_X]
              && UpperHex(r.value.0[2]) && UpperHex(r.value.0[3])
            else r.None?
  {
    hide FromUTF8, CodePointText, HexDigit;
    var c := s[i];
    ShortEscapes(c);
    DigitIsUpper(c >> 4);
    DigitIsUpper(c & 0xF);
    if FromUTF8(s, i).Some? {
      FromUTF8Accepts(s, i);
      CodePointIsText(FromUTF8(s, i).value.ucc);
    }
  }

  lemma ShortEscapes(c: octet)
    ensures ShortEscape(c).Some? <==> c == QUOTE || c == BACKSLASH || (c < 0x20 && !RawControl(c))
    ensures ShortEscape(c).Some? ==> ShortValue(ShortEscape(c).value) == Some(c)
  {
  }

  lemma DigitIsUpper(n: octet)
    ensures n < 16 ==> UpperHex(HexDigit(n))
  {
  }

  lemma EscapeIsText(u: bv32)
    ensures UnicodeText(UnicodeEscape(u), 1)
  {
    hide HexDigit, Nibble;
    DigitIsUpper(Nibble(u, 0));
    DigitIsUpper(Nibble(u, 1));
    DigitIsUpper(Nibble(u, 2));
    DigitIsUpper(Nibble(u, 3));
  }

  lemma CodePointIsText(u: bv32)
    ensures UnicodeText(CodePointText(u), if u <= 0xFFFF then 1 else 2)
  {
    hide UnicodeEscape, HighSurrogate, LowSurrogate;
    EscapeIsText(u);
    EscapeIsText(HighSurrogate(u));
    EscapeIsText(LowSurrogate(u));
    var a, b := UnicodeEscape(HighSurrogate(u)), UnicodeEscape(LowSurrogate(u));
    forall k | 0 <= k < 12
      ensures (a + b)[k] == if k < 6 then a[k] else b[k - 6]
    {
    }
  }

  // ---------- the theorems ----------

  /** Nothing from position i on is copied although RFC 8259 wants it escaped. */
  predicate Clean(s: seq<octet>, i: nat, naturalUtf8: bool) {
    naturalUtf8 ==> forall k :: i <= k < |s| ==> !RawControl(s[k])
  }

  lemma RawControlFails(c: octet, rest: seq<octet>)
    requires RawControl(c)
    ensures Unescaped([c] + rest) == None
  {
  }

  lemma CleanStep(s: seq<octet>, i: nat, n: nat, naturalUtf8: bool)
    requires i + n <= |s| && forall k :: i <= k < i + n ==> !RawControl(s[k])
    ensures Clean(s, i, naturalUtf8) <==> Clean(s, i + n, naturalUtf8)
  {
    hide RawControl;
    if Clean(s, i + n, naturalUtf8) && naturalUtf8 {
      forall k | i <= k < |s| ensures !RawControl(s[k]) {
      }
    }
  }

  /** What was escaped from position i on decodes to the bytes from there on. */
  lemma {:induction false} EscapeFromDecodes(s: seq<octet>, i: nat, allowNonUtf8: bool, naturalUtf8: bool)
    requires i <= |s| && EscapeFrom(s, i, allowNonUtf8, naturalUtf8).Some?
    ensures Unescaped(EscapeFrom(s, i, allowNonUtf8, naturalUtf8).value) == Some(s[i..]) <==> Clean(s, i, naturalUtf8)
    decreases |s| - i
  {
    hide Piece, Unescaped, Clean;
    if i < |s| {
      var (text, n) := Piece(s, i, allowNonUtf8, naturalUtf8).value;
      var rest := EscapeFrom(s, i + n, allowNonUtf8, naturalUtf8).value;
      EscapeFromDecodes(s, i + n, allowNonUtf8, naturalUtf8);
      assert s[i..] == s[i..i + n] + s[i + n..];
      PieceDecodes(s, i, allowNonUtf8, naturalUtf8, rest);
    } else {
      assert s[i..] == [];
      NothingLeft(s, naturalUtf8);
    }
  }

  lemma NothingLeft(s: seq<octet>, naturalUtf8: bool)
    ensures Unescaped([]) == Some([]) && Clean(s, |s|, naturalUtf8)
  {
  }

  /** One step of the induction: the piece at position i in front of the decoded rest. */
  lemma PieceDecodes(s: seq<octet>, i: nat, allowNonUtf8: bool, naturalUtf8: bool, rest: seq<octet>)
    requires i < |s| && Piece(s, i, allowNonUtf8, naturalUtf8).Some?
    requires var n := Piece(s, i, allowNonUtf8, naturalUtf8).value.1;
             Unescaped(rest) == Some(s[i + n..]) <==> Clean(s, i + n, naturalUtf8)
    ensures var (text, n) := Piece(s, i, allowNonUtf8, naturalUtf8).value;
            Unescaped(text + rest) == Some(s[i..i + n] + s[i + n..]) <==> Clean(s, i, naturalUtf8)
  {
    hide FromUTF8, Unescaped, Unit, Clean, ToUTF8, Hex2, CodePointText, ShortEscape, Plain;
    var (text, n) := Piece(s, i, allowNonUtf8, naturalUtf8).value;
    if naturalUtf8 && ShortEscape(s[i]).None? && !Printable(s[i]) && FromUTF8(s, i).Some? {
      CopiedBytes(s, i);
      if RawControl(s[i]) {
        assert s[i..i + 1] == [s[i]];
        RawControlFails(s[i], rest);
        NotClean(s, i);
      } else {
        PlainDecodes(s[i..i + n], rest);
        CleanStep(s, i, n, naturalUtf8);
      }
    } else {
      PieceUnit(s, i, allowNonUtf8, naturalUtf8, rest);
      UnitThenRest(text, rest, s[i..i + n]);
      PieceClean(s, i, allowNonUtf8, naturalUtf8);
    }
    if Unescaped(rest).Some? {
      SamePrefix(s[i..i + n], Unescaped(rest).value, s[i + n..]);
    }
  }

  lemma SamePrefix(p: seq<octet>, a: seq<octet>, b: seq<octet>)
    ensures p + a == p + b <==> a == b
  {
    if p + a == p + b {
      assert a == (p + a)[|p|..] && b == (p + b)[|p|..];
    }
  }

  lemma NotClean(s: seq<octet>, i: nat)
    requires i < |s| && RawControl(s[i])
    ensures !Clean(s, i, true)
  {
  }

  lemma PieceClean(s: seq<octet>, i: nat, allowNonUtf8: bool, naturalUtf8: bool)
    requires i < |s| && Piece(s, i, allowNonUtf8, naturalUtf8).Some?
    requires naturalUtf8 ==> ShortEscape(s[i]).Some? || Printable(s[i]) || FromUTF8(s, i).None?
    ensures var n := Piece(s, i, allowNonUtf8, naturalUtf8).value.1;
            Clean(s, i, naturalUtf8) <==> Clean(s, i + n, naturalUtf8)
  {
    hide FromUTF8, ToUTF8, Hex2, CodePointText, ShortEscape, Clean;
    var n := Piece(s, i, allowNonUtf8, naturalUtf8).value.1;
    ShortEscapes(s[i]);
    if naturalUtf8 {
      if FromUTF8(s, i).None? && ShortEscape(s[i]).None? && !Printable(s[i]) {
        InvalidIsHigh(s, i);
      }
      assert n == 1;
      CleanStep(s, i, 1, true);
    } else {
      NaturalOnly(s, i);
      NaturalOnly(s, i + n);
    }
  }

  lemma NaturalOnly(s: seq<octet>, i: nat)
    ensures Clean(s, i, false)
  {
  }

  /** A byte that starts no valid sequence is not ASCII. */
  lemma InvalidIsHigh(s: seq<octet>, i: nat)
    requires i < |s| && FromUTF8(s, i).None?
    ensures s[i] >= 0x80
  {
    LengthByte(s[i]);
    hide LeadingOnes, Gather;
  }

  /**
   Escaping loses nothing: with allow_non_utf8 every byte string gets a text, and the decoder recovers it; unless
   natural_utf8 is set and a control character without a short escape was copied, which RFC 8259 does not allow.
   */
  lemma EscapeRoundTrip(s: seq<octet>, naturalUtf8: bool)
    ensures Escaped(s, true, naturalUtf8).Some?
    ensures Unquoted(Escaped(s, true, naturalUtf8).value) == Some(s) <==> Clean(s, 0, naturalUtf8)
  {
    hide Piece, Unescaped, Clean;
    AllowedSucceeds(s, 0, naturalUtf8);
    EscapeFromDecodes(s, 0, true, naturalUtf8);
    var body := EscapeFrom(s, 0, true, naturalUtf8).value;
    var t := [QUOTE] + body + [QUOTE];
    assert t[1..|t| - 1] == body && s[0..] == s;
  }

  lemma {:induction false} AllowedSucceeds(s: seq<octet>, i: nat, naturalUtf8: bool)
    requires i <= |s|
    ensures EscapeFrom(s, i, true, naturalUtf8).Some?
    decreases |s| - i
  {
    if i < |s| {
      PieceAllowed(s, i, naturalUtf8);
      hide Piece;
      AllowedSucceeds(s, i + Piece(s, i, true, naturalUtf8).value.1, naturalUtf8);
    }
  }

  lemma PieceAllowed(s: seq<octet>, i: nat, naturalUtf8: bool)
    requires i < |s|
    ensures Piece(s, i, true, naturalUtf8).Some?
  {
  }

  /** A copied control character that no JSON reader has to accept. */
  lemma NaturalCopiesControls()
    ensures Escaped([0x01], true, true) == Some([QUOTE, 0x01, QUOTE]) && Unquoted([QUOTE, 0x01, QUOTE]) == None
  {
    var s: seq<octet> := [0x01];
    LengthByte(0x01);
    assert s[0..1] == s;
    assert Piece(s, 0, true, true) == Some((s, 1));
    assert EscapeFrom(s, 1, true, true) == Some([]);
    assert s + [] == s;
    var t: seq<octet> := [QUOTE, 0x01, QUOTE];
    assert [QUOTE] + s + [QUOTE] == t;
    assert t[1..2] == s;
    RawControlFails(0x01, []);
  }

  /** A concatenation of well-formed sequences. */
  ghost predicate Utf8Text(s: seq<octet>, i: nat)
    requires i <= |s|
    decreases |s| - i
  {
    i == |s| || exists n: nat :: WellFormedAt(s, i, n) && Utf8Text(s, i + n)
  }

  lemma TextStep(s: seq<octet>, i: nat, n: nat)
    requires i < |s| && WellFormedAt(s, i, n)
    ensures Utf8Text(s, i) <==> Utf8Text(s, i + n)
  {
    SameLength(s, i, n);
    hide WellFormedAt;
  }

  lemma TextEnds(s: seq<octet>, i: nat)
    requires i < |s| && forall n :: !WellFormedAt(s, i, n)
    ensures !Utf8Text(s, i)
  {
  }

  /** Without allow_non_utf8, exactly the UTF-8 texts are escaped. */
  lemma {:induction false} StrictEscapes(s: seq<octet>, i: nat, naturalUtf8: bool)
    requires i <= |s|
    ensures EscapeFrom(s, i, false, naturalUtf8).Some? <==> Utf8Text(s, i)
    decreases |s| - i
  {
    hide Piece, FromUTF8, WellFormedAt, ToUTF8;
    if i < |s| {
      FromUTF8Accepts(s, i);
      PieceIsSequence(s, i, naturalUtf8);
      if FromUTF8(s, i).Some? {
        var n := FromUTF8(s, i).value.len;
        StrictEscapes(s, i + n, naturalUtf8);
        TextStep(s, i, n);
      } else {
        TextEnds(s, i);
      }
      hide Utf8Text;
    }
  }

  lemma SameLength(s: seq<octet>, i: nat, n: nat)
    requires i < |s| && WellFormedAt(s, i, n)
    ensures forall m: nat :: WellFormedAt(s, i, m) ==> m == n
  {
    OneLength(s, i);
    hide WellFormedAt;
  }

  /** Without allow_non_utf8, a piece covers one well-formed sequence. */
  lemma PieceIsSequence(s: seq<octet>, i: nat, naturalUtf8: bool)
    requires i < |s|
    ensures var p := Piece(s, i, false, naturalUtf8);
            (p.Some? <==> FromUTF8(s, i).Some?) && (p.Some? ==> p.value.1 == FromUTF8(s, i).value.len)
  {
    hide ToUTF8, CodePointText, Gather;
    LengthByte(s[i]);
    if s[i] <= 0x7F {
      assert FromUTF8(s, i) == Some(Decoded(s[i] as bv32, 1));
    }
    hide FromUTF8, LeadingOnes;
    if ShortEscape(s[i]).Some? || Printable(s[i]) {
      AsciiOnly(s[i]);
    }
  }

  lemma AsciiOnly(c: octet)
    requires ShortEscape(c).Some? || Printable(c)
    ensures c <= 0x7F
  {
  }
}
