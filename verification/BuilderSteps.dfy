/** What each builder step leaves in the buffer: strings, fields and whole tables. */
module BuilderSteps {
  import opened Wrappers
  import opened Bytes
  import opened Alignment
  import opened BuilderModel
  import opened Layout

  /** d' is d with more bytes pushed on top. */
  predicate Extends(d: seq<byte>, d': seq<byte>) {
    |d| <= |d'| && d'[|d'| - |d|..] == d
  }

  lemma ExtendsLength(d: seq<byte>, d': seq<byte>)
    requires Extends(d, d')
    ensures |d| <= |d'|
  {
  }

  lemma ExtendsPrefix(d: seq<byte>, d': seq<byte>)
    requires Extends(d, d')
    ensures d' == d'[..|d'| - |d|] + d
  {
  }

  lemma PushExtends(x: seq<byte>, d: seq<byte>)
    ensures Extends(d, x + d)
  {
  }

  lemma ExtendsTransitive(a: seq<byte>, b: seq<byte>, c: seq<byte>)
    requires Extends(a, b) && Extends(b, c)
    ensures Extends(a, c)
  {
    assert c[|c| - |a|..] == c[|c| - |b|..][|b| - |a|..];
  }

  /** The alignments the builder tracks: those of 1-, 2-, 4- and 8-byte scalars. */
  predicate Tracked(minAlign: nat) {
    minAlign == 1 || minAlign == 2 || minAlign == 4 || minAlign == 8
  }

  lemma AlignExtends(s: State, w: nat)
    requires ScalarWidth(w) && Tracked(s.minAlign)
    ensures var r := Align(s, w);
            && Extends(s.data, r.data) && Aligned(r.Size(), w) && r.Size() < s.Size() + w
            && Tracked(r.minAlign) && s.minAlign <= r.minAlign && w <= r.minAlign
            && r == s.(data := r.data, minAlign := r.minAlign)
  {
    hide PaddingBytes;
    PaddingOfAlignment(s.Size(), w);
  }

  lemma PushElementLands(s: State, v: nat, w: nat)
    requires ScalarWidth(w) && Tracked(s.minAlign) && v < Pow256(w)
    ensures var r := PushElement(s, v, w);
            && Extends(s.data, r.data)
            && Aligned(r.Size(), w) && s.Size() + w <= r.Size() < s.Size() + 2 * w
            && Scalar(r.data, r.Size(), w) == v
            && Tracked(r.minAlign) && s.minAlign <= r.minAlign && w <= r.minAlign
            && r == s.(data := r.data, minAlign := r.minAlign)
  {
    hide PaddingBytes, Align, LE, Pow256, FromLE;
    AlignExtends(s, w);
    var aligned := Align(s, w);
    ScalarOfPush(aligned.data, v, w);
    AlignedPlus(aligned.Size(), w);
  }

  /** PreAlign leaves room so that `len` more bytes end on a 4-byte boundary. */
  lemma PreAlignMakesRoom(s: State, len: nat, alignment: nat)
    requires len > 0 && IsAlignment(alignment)
    ensures var r := PreAlign(s, len, alignment);
            && Extends(s.data, r.data) && r.Size() < s.Size() + alignment && Aligned(r.Size() + len, alignment)
            && r == s.(data := r.data, minAlign := if alignment > s.minAlign then alignment else s.minAlign)
  {
    hide PaddingBytes, Aligned;
    PaddingOfAlignment(s.Size() + len, alignment);
    assert PreAlign(s, len, alignment).Size() + len == s.Size() + len + PaddingBytes(s.Size() + len, alignment);
  }

  lemma AlignWhenAligned(s: State, w: nat)
    requires IsAlignment(w) && Aligned(s.Size(), w) && w <= s.minAlign
    ensures Align(s, w) == s
  {
    hide PaddingBytes;
    AlignedNeedsNoPadding(s.Size(), w);
    assert Zeros(0) + s.data == s.data;
  }

  function StringBody(s: State, str: seq<byte>): State {
    Push(Push(PreAlign(s, |str| + 1, 4), Zeros(1)), str)
  }

  /** No padding is needed before a string's length: PreAlign already made room for it. */
  lemma StringBodyAligned(s: State, str: seq<byte>)
    ensures var body := StringBody(s, str);
            Align(body, 4) == body && Aligned(body.Size(), 4)
  {
    var len := |str| + 1;
    PreAlignMakesRoom(s, len, 4);
    var body := StringBody(s, str);
    hide PaddingBytes, PreAlign, Extends;
    assert body.Size() == PreAlign(s, len, 4).Size() + len;
    AlignWhenAligned(body, 4);
  }

  lemma StringBytes(len: seq<byte>, str: seq<byte>, d: seq<byte>)
    requires |len| == 4
    ensures var r := len + (str + (Zeros(1) + d));
            |r| == 4 + |str| + 1 + |d| && r[4..4 + |str|] == str && r[4 + |str|] == 0
  {
  }

  lemma StringBytesLand(str: seq<byte>, d: seq<byte>)
    requires |str| < TWO_32 && Aligned(|str| + 1 + |d| + 4, 4)
    ensures StrAt(LE(|str|, 4) + (str + (Zeros(1) + d)), |str| + 1 + |d| + 4, str)
  {
    hide LE, Pow256, FromLE, Aligned, Zeros, Scalar;
    Pow256Values();
    ScalarOfPush(str + (Zeros(1) + d), |str|, 4);
    StringBytes(LE(|str|, 4), str, d);
  }

  lemma CreateStringIsBodyAndLength(s: State, str: seq<byte>)
    requires NotNested(s)
    ensures CreateString(s, str) == Push(StringBody(s, str), LE(|str|, 4))
  {
    StringBodyAligned(s, str);
    hide PaddingBytes, LE, PreAlign, Align, Aligned;
  }

  lemma StringBodyExtends(s: State, str: seq<byte>)
    ensures var body := StringBody(s, str);
            && Extends(s.data, body.data)
            && s.Size() + |str| + 1 <= body.Size() < s.Size() + |str| + 5
            && body == s.(data := body.data, minAlign := if 4 > s.minAlign then 4 else s.minAlign)
  {
    PreAlignMakesRoom(s, |str| + 1, 4);
    hide PreAlign, Aligned;
    var pre := PreAlign(s, |str| + 1, 4);
    assert StringBody(s, str).data[|str| + 1..] == pre.data;
    ExtendsTransitive(s.data, pre.data, StringBody(s, str).data);
  }

  /** CreateString leaves a length-prefixed, NUL-terminated, 4-aligned copy of its argument. */
  lemma CreateStringLands(s: State, str: seq<byte>)
    requires NotNested(s) && |str| < TWO_32 && Tracked(s.minAlign)
    ensures var r := CreateString(s, str);
            && Extends(s.data, r.data)
            && s.Size() + |str| + 5 <= r.Size() < s.Size() + |str| + 9
            && StrAt(r.data, r.Size(), str)
            && Tracked(r.minAlign) && s.minAlign <= r.minAlign && 4 <= r.minAlign
            && r == s.(data := r.data, minAlign := r.minAlign)
  {
    hide PaddingBytes, LE, PreAlign, Align, Aligned, StrAt, CreateString, Extends, Zeros;
    var body := StringBody(s, str);
    StringBodyAligned(s, str);
    AlignedPlus(body.Size(), 4);
    StringBodyExtends(s, str);
    CreateStringIsBodyAndLength(s, str);
    StringBytesLand(str, PreAlign(s, |str| + 1, 4).data);
    var r := CreateString(s, str);
    assert r.data[4..] == body.data;
    ExtendsTransitive(s.data, body.data, r.data);
  }

  // ---------- the open table ----------

  function Ids(fields: seq<FieldLoc>): set<nat> {
    set f <- fields :: f.id
  }

  /** The fields written so far for the open table hold the values m. */
  ghost predicate Open(s: State, start: nat, m: map<nat, FieldVal>, offs: seq<nat>) {
    && s.nested && start <= s.Size()
    && Tracked(s.minAlign)
    && MaxTracked(s) && s.maxVoffset % 2 == 0
    && DistinctIds(s.fields)
    && Ids(s.fields) == m.Keys
    && (forall f <- s.fields :: OpenField(s, start, f, m, offs))
  }

  ghost predicate OpenField(s: State, start: nat, f: FieldLoc, m: map<nat, FieldVal>, offs: seq<nat>) {
    && FieldId(f.id) && f.id <= s.maxVoffset && f.id in m
    && start < f.off <= s.Size()
    && FieldAt(s.data, f.off, m[f.id], offs, s.minAlign)
  }

  lemma OpenFrame(s: State, s': State, start: nat, m: map<nat, FieldVal>, offs: seq<nat>)
    requires Open(s, start, m, offs) && Extends(s.data, s'.data)
    requires s' == s.(data := s'.data, minAlign := s'.minAlign) && Tracked(s'.minAlign) && s.minAlign <= s'.minAlign
    ensures Open(s', start, m, offs)
  {
    ExtendsPrefix(s.data, s'.data);
    forall f | f in s.fields
      ensures OpenField(s', start, f, m, offs)
    {
      FieldFrame(s'.data[..|s'.data| - |s.data|], s.data, f.off, m[f.id], offs, offs, s.minAlign, s'.minAlign);
    }
  }

  lemma IdsOfAppend(fields: seq<FieldLoc>, f: FieldLoc)
    requires DistinctIds(fields) && f.id !in Ids(fields)
    ensures Ids(fields + [f]) == Ids(fields) + {f.id} && DistinctIds(fields + [f])
  {
    var all := fields + [f];
    assert all[|fields|] == f;
    forall g | g in fields ensures g in all {
      var i :| 0 <= i < |fields| && fields[i] == g;
      assert all[i] == g;
    }
    forall i, j | 0 <= i < j < |all|
      ensures all[i].id != all[j].id
    {
      assert all[i] in fields && all[i].id in Ids(fields);
    }
  }

  lemma TrackFieldOpens(s: State, start: nat, m: map<nat, FieldVal>, offs: seq<nat>, id: nat, v: FieldVal)
    requires Open(s, start, m, offs) && FieldId(id) && id !in m && start < s.Size()
    requires FieldAt(s.data, s.Size(), v, offs, s.minAlign)
    ensures Open(TrackField(s, id, s.Size()), start, m[id := v], offs)
  {
    hide FieldAt, DistinctIds, FromLE, Scalar, MaxTracked;
    var r := TrackField(s, id, s.Size());
    TrackKeepsMax(s, id, s.Size());
    IdsOfAppend(s.fields, FieldLoc(s.Size(), id));
    forall f | f in r.fields
      ensures OpenField(r, start, f, m[id := v], offs)
    {
      if f in s.fields {
        assert OpenField(s, start, f, m, offs) && f.id in Ids(s.fields);
      }
    }
  }

  /** AddElement stores a value that differs from its default, and nothing otherwise. */
  lemma AddElementLands(s: State, start: nat, m: map<nat, FieldVal>, offs: seq<nat>, id: nat, v: nat, def: nat, w: nat)
    requires Open(s, start, m, offs) && FieldId(id) && id !in m && ScalarWidth(w) && v < Pow256(w)
    ensures var r := AddElement(s, id, v, def, w);
            && Open(r, start, if v == def then m else m[id := Val(w, v)], offs)
            && Extends(s.data, r.data) && s.minAlign <= r.minAlign
            && r == s.(data := r.data, minAlign := r.minAlign, fields := r.fields, maxVoffset := r.maxVoffset)
  {
    if v != def {
      hide PaddingBytes, PushElement, Pow256, FromLE, Scalar, DistinctIds, OpenField, Open;
      PushElementLands(s, v, w);
      var pushed := PushElement(s, v, w);
      OpenFrame(s, pushed, start, m, offs);
      TrackFieldOpens(pushed, start, m, offs, id, Val(w, v));
    }
  }

  /** On an aligned size PushElement pads nothing. */
  lemma NextToAligned(s: State, v: nat, w: nat)
    requires ScalarWidth(w) && Aligned(s.Size(), w)
    ensures PushElement(s, v, w).Size() == s.Size() + w
  {
    hide PaddingBytes;
    AlignedNeedsNoPadding(s.Size(), w);
  }

  /** AddOffset stores a relative offset that leads back to the object it was given. */
  lemma AddOffsetLands(s: State, start: nat, m: map<nat, FieldVal>, offs: seq<nat>, id: nat, h: nat)
    requires Open(s, start, m, offs) && FieldId(id) && id !in m && h < |offs| && 0 < offs[h] <= s.Size()
    requires s.Size() + 8 < TWO_32
    ensures var r := AddOffset(s, id, offs[h]);
            && Open(r, start, m[id := Ref(h)], offs)
            && Extends(s.data, r.data) && s.minAlign <= r.minAlign
            && r == s.(data := r.data, minAlign := r.minAlign, fields := r.fields, maxVoffset := r.maxVoffset)
  {
    assert Tracked(s.minAlign);
    hide PaddingBytes, Align, PushElement, Pow256, FromLE, Scalar, DistinctIds, OpenField, Open;
    var aligned := Align(s, 4);
    AlignExtends(s, 4);
    OpenFrame(s, aligned, start, m, offs);
    var v := ReferTo(aligned, offs[h]);
    Pow256Values();
    PushElementLands(aligned, v, 4);
    var pushed := PushElement(aligned, v, 4);
    ExtendsTransitive(s.data, aligned.data, pushed.data);
    OpenFrame(aligned, pushed, start, m, offs);
    AlignedPlus(aligned.Size(), 4);
    NextToAligned(aligned, v, 4);
    TrackFieldOpens(pushed, start, m, offs, id, Ref(h));
  }
}
