/** Finish: the root offset leads to the root, and the whole buffer is aligned from its start. */
module FinishSteps {
  import opened Wrappers
  import opened Bytes
  import opened Alignment
  import opened BuilderModel
  import opened Layout
  import opened BuilderSteps

  function Prefix(sizePrefix: bool): nat {
    if sizePrefix then 4 else 0
  }

  function IdBytes(fileId: Option<seq<byte>>): seq<byte> {
    if fileId.Some? then fileId.value else []
  }

  /** The state once the header's padding and the file identifier are in the buffer. */
  function HeaderRoom(s: State, fileId: Option<seq<byte>>, sizePrefix: bool): State {
    var s1 := TrackMinAlign(s.(vtables := []), Prefix(sizePrefix));
    Push(PreAlign(s1, Prefix(sizePrefix) + 4 + |IdBytes(fileId)|, s1.minAlign), IdBytes(fileId))
  }

  /** The state right before the root offset is pushed. */
  function BeforeRoot(s: State, fileId: Option<seq<byte>>, sizePrefix: bool): State {
    Align(HeaderRoom(s, fileId, sizePrefix), 4)
  }

  lemma MultipleOfSmaller(n: nat, big: nat, small: nat)
    requires Tracked(big) && Tracked(small) && small <= big && Aligned(n, big)
    ensures Aligned(n, small)
  {
    var k := n / big;
    if small == big {
    } else if small == 1 {
      ModUnique(n, 1, n, 0);
    } else if small == 2 {
      if big == 4 { ModUnique(n, 2, 2 * k, 0); } else { ModUnique(n, 2, 4 * k, 0); }
    } else {
      ModUnique(n, 4, 2 * k, 0);
    }
  }

  lemma AlignedShift(n: nat, k: nat)
    requires Aligned(n + 4 * k, 4)
    ensures Aligned(n, 4)
  {
    ModUnique(n, 4, (n + 4 * k) / 4 - k, 0);
  }

  lemma HeaderRoomLands(s: State, fileId: Option<seq<byte>>, sizePrefix: bool)
    requires Tracked(s.minAlign) && 4 <= s.minAlign
    ensures var r := HeaderRoom(s, fileId, sizePrefix);
            && Extends(s.data, r.data) && |s.data| + |IdBytes(fileId)| <= r.Size()
            && Aligned(r.Size() + (Prefix(sizePrefix) + 4), s.minAlign)
            && r == s.(data := r.data, vtables := [])
            && IdBytes(fileId) <= r.data
  {
    hide PaddingBytes, PreAlign, Aligned, Extends;
    var id := IdBytes(fileId);
    var len := Prefix(sizePrefix) + 4 + |id|;
    var s1 := TrackMinAlign(s.(vtables := []), Prefix(sizePrefix));
    assert s1 == s.(vtables := []);
    PreAlignMakesRoom(s1, len, s1.minAlign);
    var s2 := PreAlign(s1, len, s1.minAlign);
    PushExtends(id, s2.data);
    ExtendsTransitive(s.data, s2.data, id + s2.data);
    ExtendsLength(s.data, s2.data);
    var r := HeaderRoom(s, fileId, sizePrefix);
    assert r == Push(s2, id) == s2.(data := id + s2.data);
    assert |r.data| == |id| + |s2.data|;
    assert r.Size() + (Prefix(sizePrefix) + 4) == s2.Size() + len;
  }

  /** Once some object exists the padding goes before the header, and the header stays aligned. */
  lemma BeforeRootLands(s: State, fileId: Option<seq<byte>>, sizePrefix: bool)
    requires Tracked(s.minAlign) && 4 <= s.minAlign
    ensures BeforeRoot(s, fileId, sizePrefix) == HeaderRoom(s, fileId, sizePrefix)
    ensures Aligned(BeforeRoot(s, fileId, sizePrefix).Size(), 4)
  {
    HeaderRoomLands(s, fileId, sizePrefix);
    hide HeaderRoom, Extends, IdBytes;
    var r := HeaderRoom(s, fileId, sizePrefix);
    var total := r.Size() + (Prefix(sizePrefix) + 4);
    MultipleOfSmaller(total, s.minAlign, 4);
    AlignedShift(r.Size(), 1 + Prefix(sizePrefix) / 4);
    AlignWhenAligned(r, 4);
  }

  /** Finish in one equation: header on top of the padded data. */
  lemma FinishShape(s: State, root: nat, fileId: Option<seq<byte>>, sizePrefix: bool)
    requires Tracked(s.minAlign) && 4 <= s.minAlign && !s.finished && NotNested(s) && 0 < root <= s.Size()
    requires fileId.Some? ==> |fileId.value| == FILE_IDENTIFIER_LENGTH
    ensures var before := HeaderRoom(s, fileId, sizePrefix);
            var rooted := LE(before.Size() - root + 4, 4) + before.data;
            && root <= before.Size()
            && Finish(s, root, fileId, sizePrefix) == before.(finished := true,
                 data := if sizePrefix then LE(before.Size() + 4, 4) + rooted else rooted)
  {
    hide PaddingBytes, Aligned, Align, LE, HeaderRoom, Extends;
    HeaderRoomLands(s, fileId, sizePrefix);
    BeforeRootLands(s, fileId, sizePrefix);
    var before := HeaderRoom(s, fileId, sizePrefix);
    assert Align(before, 4) == before;
    assert BeforeRoot(s, fileId, sizePrefix) == before;
    var rooted := Push(before, LE(before.Size() - root + 4, 4));
    AlignedPlus(before.Size(), 4);
    AlignWhenAligned(rooted, 4);
    assert Align(rooted, 4) == rooted;
    FinishUnfolds(s, root, fileId, sizePrefix);
  }

  lemma FinishUnfolds(s: State, root: nat, fileId: Option<seq<byte>>, sizePrefix: bool)
    requires !s.finished && NotNested(s) && 0 < root <= s.Size()
    requires fileId.Some? ==> |fileId.value| == FILE_IDENTIFIER_LENGTH
    ensures var before := BeforeRoot(s, fileId, sizePrefix);
            && root <= before.Size()
            && var rooted := PushElement(before, ReferTo(before, root), 4);
               Finish(s, root, fileId, sizePrefix) ==
               (if sizePrefix then PushElement(rooted, rooted.Size(), 4) else rooted).(finished := true)
  {
    hide PaddingBytes, LE;
  }

  /** The root offset, and the identifier right behind it, on top of what was built. */
  predicate RootedOn(d: seq<byte>, id: seq<byte>, root: nat, rooted: seq<byte>, p: nat) {
    && Extends(d, rooted)
    && root <= |d| && |d| + 4 + |id| <= p <= |rooted|
    && (p < TWO_32 ==> Scalar(rooted, p, 4) == p - root)
    && rooted[|rooted| - p + 4..|rooted| - p + 4 + |id|] == id
  }

  lemma RootPushed(d: seq<byte>, below: seq<byte>, id: seq<byte>, root: nat)
    requires Extends(d, below) && root <= |d| && |d| + |id| <= |below| && id <= below
    ensures RootedOn(d, id, root, LE(|below| + 4 - root, 4) + below, |below| + 4)
  {
    hide LE, FromLE, Pow256, Scalar;
    var v := |below| + 4 - root;
    Pow256Values();
    if v < TWO_32 {
      ScalarOfPush(below, v, 4);
    }
    var rooted := LE(v, 4) + below;
    assert Extends(d, rooted) by {
      PushExtends(LE(v, 4), below);
      ExtendsTransitive(d, below, rooted);
    }
    assert rooted[4..4 + |id|] == id;
  }

  lemma RootedFrame(x: seq<byte>, d: seq<byte>, id: seq<byte>, root: nat, rooted: seq<byte>, p: nat)
    requires RootedOn(d, id, root, rooted, p)
    ensures RootedOn(d, id, root, x + rooted, p)
  {
    ScalarFrame(x, rooted, p, 4);
    PushExtends(x, rooted);
    ExtendsTransitive(d, rooted, x + rooted);
    hide FromLE, Scalar, Extends;
    var at := |rooted| - p + 4;
    assert (x + rooted)[|x| + at..|x| + at + |id|] == rooted[at..at + |id|];
  }

  /** What Finish leaves: the root offset at end-offset p, on top of everything built. */
  predicate FinishedOn(s: State, root: nat, fileId: Option<seq<byte>>, sizePrefix: bool, r: State) {
    var p := r.Size() - Prefix(sizePrefix);
    && 0 <= p && r.minAlign == s.minAlign && Aligned(r.Size(), r.minAlign)
    && RootedOn(s.data, IdBytes(fileId), root, r.data, p)
    && (sizePrefix && p < TWO_32 ==> Scalar(r.data, r.Size(), 4) == p)
  }

  /** The finished buffer: everything built is still there, the root offset leads to the root, the
      identifier follows it, the prefix is the size of the rest, and the whole is aligned. */
  lemma FinishLands(s: State, root: nat, fileId: Option<seq<byte>>, sizePrefix: bool)
    requires Tracked(s.minAlign) && 4 <= s.minAlign && !s.finished && NotNested(s) && 0 < root <= s.Size()
    requires fileId.Some? ==> |fileId.value| == FILE_IDENTIFIER_LENGTH
    ensures FinishedOn(s, root, fileId, sizePrefix, Finish(s, root, fileId, sizePrefix))
  {
    hide Finish, HeaderRoom, LE, Extends, IdBytes, Scalar, RootedOn, Aligned;
    FinishShape(s, root, fileId, sizePrefix);
    HeaderRoomLands(s, fileId, sizePrefix);
    var before := HeaderRoom(s, fileId, sizePrefix);
    var r := Finish(s, root, fileId, sizePrefix);
    var p := |before.data| + 4;
    var rooted := LE(before.Size() - root + 4, 4) + before.data;
    HeaderRooted(s, root, fileId, sizePrefix);
    if sizePrefix {
      assert r.data == LE(p, 4) + rooted;
      PrefixPushed(s.data, IdBytes(fileId), root, rooted, p);
      assert r.Size() == before.Size() + (4 + 4);
    } else {
      assert r.data == rooted;
      assert r.Size() == before.Size() + (0 + 4);
    }
  }

  lemma HeaderRooted(s: State, root: nat, fileId: Option<seq<byte>>, sizePrefix: bool)
    requires Tracked(s.minAlign) && 4 <= s.minAlign && 0 < root <= s.Size()
    ensures var before := HeaderRoom(s, fileId, sizePrefix);
            && root <= before.Size()
            && RootedOn(s.data, IdBytes(fileId), root, LE(before.Size() - root + 4, 4) + before.data, |before.data| + 4)
  {
    hide HeaderRoom, LE, Extends, IdBytes, Aligned, RootedOn;
    HeaderRoomLands(s, fileId, sizePrefix);
    var before := HeaderRoom(s, fileId, sizePrefix);
    RootPushed(s.data, before.data, IdBytes(fileId), root);
    assert |before.data| + 4 - root == before.Size() - root + 4;
  }

  lemma PrefixPushed(d: seq<byte>, id: seq<byte>, root: nat, rooted: seq<byte>, p: nat)
    requires RootedOn(d, id, root, rooted, p) && |rooted| == p
    ensures RootedOn(d, id, root, LE(p, 4) + rooted, p)
    ensures p < TWO_32 ==> Scalar(LE(p, 4) + rooted, p + 4, 4) == p
  {
    Pow256Values();
    hide LE, FromLE, RootedOn, Scalar;
    RootedFrame(LE(p, 4), d, id, root, rooted, p);
    if p < TWO_32 {
      ScalarOfPush(rooted, p, 4);
    }
  }

  /** The header takes the least padding that aligns the whole buffer, and at most 24 bytes. */
  lemma FinishNeeds(s: State, root: nat, fileId: Option<seq<byte>>, sizePrefix: bool)
    requires Tracked(s.minAlign) && 4 <= s.minAlign && !s.finished && NotNested(s) && 0 < root <= s.Size()
    requires fileId.Some? ==> |fileId.value| == FILE_IDENTIFIER_LENGTH
    ensures var header := Prefix(sizePrefix) + 4 + |IdBytes(fileId)|;
            s.Size() + header <= Finish(s, root, fileId, sizePrefix).Size() < s.Size() + header + s.minAlign
    ensures Finish(s, root, fileId, sizePrefix).Size() <= s.Size() + 24
  {
    hide PreAlign, Finish, Aligned, LE;
    FinishShape(s, root, fileId, sizePrefix);
    PreAlignMakesRoom(TrackMinAlign(s.(vtables := []), Prefix(sizePrefix)), Prefix(sizePrefix) + 4 + |IdBytes(fileId)|, s.minAlign);
  }
}
