/** diff: a patch from one document to another, and the proof that applying it gets there. */
module JsonDiff {
  import opened Wrappers
  import opened Bytes
  import opened StringEscape
  import opened Json
  import opened JsonPointer
  import opened JsonPatch

  // ---------- the elements of the patch ----------

  function RemoveOp(path: string): Json {
    Object(map["op" := Str("remove"), "path" := Str(path)])
  }

  function AddOp(path: string, v: Json): Json {
    Object(map["op" := Str("add"), "path" := Str(path), "value" := v])
  }

  function ReplaceOp(path: string, v: Json): Json {
    Object(map["op" := Str("replace"), "path" := Str(path), "value" := v])
  }

  // ---------- diff ----------

  function Diff(source: Json, target: Json, path: string): seq<Json>
    decreases source, 2, 0
  {
    if Equal(source, target) then []
    else if !SameType(source, target) then [ReplaceOp(path, target)]
    else
      match source
      case Array(x) =>
        DiffItems(source, target, path, 0) + RemoveOps(path, |target.items|, |x|) + AddOps(path, target.items, |x|)
      case Object(x) =>
        DiffMembers(SortedKeys(x.Keys), source, target, path) +
        AddMembers(SortedKeys(target.members.Keys), x, target.members, path)
      case _ => [ReplaceOp(path, target)]
  }

  /** The elements that both arrays have, from number i on. */
  function DiffItems(source: Json, target: Json, path: string, i: nat): seq<Json>
    requires source.Array? && target.Array?
    decreases source, 1, |source.items| - i
  {
    if i < |source.items| && i < |target.items| then
      Diff(source.items[i], target.items[i], BelowIndex(path, i)) + DiffItems(source, target, path, i + 1)
    else []
  }

  /** Removes the elements from `from` to before `to`, the last one first. */
  function RemoveOps(path: string, from: nat, to: nat): seq<Json>
    decreases to
  {
    if from >= to then [] else [RemoveOp(BelowIndex(path, to - 1))] + RemoveOps(path, from, to - 1)
  }

  /** Appends the elements from number i on. */
  function AddOps(path: string, items: seq<Json>, i: nat): seq<Json>
    decreases |items| - i
  {
    if i >= |items| then [] else [AddOp(path + "/-", items[i])] + AddOps(path, items, i + 1)
  }

  /** The members of the source: changed or removed. */
  function DiffMembers(keys: seq<string>, source: Json, target: Json, path: string): seq<Json>
    requires source.Object? && target.Object? && forall k <- keys :: k in source.members
    decreases source, 1, |keys|
  {
    if keys == [] then []
    else
      var k := keys[0];
      assert k in keys;
      (if k in target.members then Diff(source.members[k], target.members[k], Below(path, k)) else [RemoveOp(Below(path, k))])
      + DiffMembers(keys[1..], source, target, path)
  }

  /** The members of the target that the source does not have. */
  function AddMembers(keys: seq<string>, source: map<string, Json>, target: map<string, Json>, path: string): seq<Json>
    requires forall k <- keys :: k in target
    decreases |keys|
  {
    if keys == [] then []
    else
      var k := keys[0];
      assert k in keys;
      (if k in source then [] else [AddOp(Below(path, k), target[k])]) + AddMembers(keys[1..], source, target, path)
  }

  // ---------- what applying the patch leaves ----------

  /** The target, except where an equal value of the source is kept. */
  function Kept(s: Json, t: Json): Json
    decreases s
  {
    if Equal(s, t) then s
    else
      match (s, t)
      case (Array(x), Array(y)) => Array(seq(|y|, i requires 0 <= i < |y| => if i < |x| then Kept(x[i], y[i]) else y[i]))
      case (Object(x), Object(y)) => Object(map k | k in y :: if k in x then Kept(x[k], y[k]) else y[k])
      case _ => t
  }

  lemma {:induction false} KeptIsEqual(s: Json, t: Json)
    ensures Equal(Kept(s, t), t)
    decreases s
  {
    EqualReflexive(t);
    if !Equal(s, t) {
      match (s, t)
      case (Array(x), Array(y)) =>
        forall i | 0 <= i < |y| ensures Equal(Kept(s, t).items[i], y[i]) {
          EqualReflexive(y[i]);
          if i < |x| {
            KeptIsEqual(x[i], y[i]);
          }
        }
      case (Object(x), Object(y)) =>
        forall k | k in y ensures Equal(Kept(s, t).members[k], y[k]) {
          EqualReflexive(y[k]);
          if k in x {
            KeptIsEqual(x[k], y[k]);
          }
        }
      case _ =>
    }
  }

  /** Somewhere a signed and an unsigned number meet that the library takes for equal. */
  predicate NumbersConfused(s: Json, t: Json)
    decreases s
  {
    match (s, t)
    case (Array(x), Array(y)) => exists i :: 0 <= i < |x| && i < |y| && NumbersConfused(x[i], y[i])
    case (Object(x), Object(y)) => exists k :: k in x && k in y && NumbersConfused(x[k], y[k])
    case (Int(x), Uint(y)) => SameWord(x, y)
    case (Uint(x), Int(y)) => SameWord(y, x)
    case _ => false
  }

  lemma {:induction false} EqualUnlessConfused(s: Json, t: Json)
    requires Equal(s, t)
    ensures s == t <==> !NumbersConfused(s, t)
    decreases s
  {
    match (s, t)
    case (Array(x), Array(y)) =>
      forall i | 0 <= i < |x| ensures x[i] == y[i] <==> !NumbersConfused(x[i], y[i]) {
        EqualUnlessConfused(x[i], y[i]);
      }
    case (Object(x), Object(y)) =>
      forall k | k in x ensures x[k] == y[k] <==> !NumbersConfused(x[k], y[k]) {
        EqualUnlessConfused(x[k], y[k]);
      }
    case (Int(x), Uint(y)) => NumbersEqual(x, y);
    case (Uint(x), Int(y)) => NumbersEqual(y, x);
    case _ =>
  }

  /** What is left is the target itself unless numbers are confused on the way. */
  lemma {:induction false} KeptIsTarget(s: Json, t: Json)
    ensures Kept(s, t) == t <==> !NumbersConfused(s, t)
    decreases s
  {
    if Equal(s, t) {
      EqualUnlessConfused(s, t);
    } else {
      match (s, t)
      case (Array(x), Array(y)) =>
        forall i | 0 <= i < |x| && i < |y| ensures Kept(x[i], y[i]) == y[i] <==> !NumbersConfused(x[i], y[i]) {
          KeptIsTarget(x[i], y[i]);
        }
        var kept := Kept(s, t).items;
        assert forall i :: 0 <= i < |y| ==> kept[i] == if i < |x| then Kept(x[i], y[i]) else y[i];
      case (Object(x), Object(y)) =>
        forall k | k in x && k in y ensures Kept(x[k], y[k]) == y[k] <==> !NumbersConfused(x[k], y[k]) {
          KeptIsTarget(x[k], y[k]);
        }
        var kept := Kept(s, t).members;
        assert kept.Keys == y.Keys;
        assert forall k :: k in y ==> kept[k] == if k in x then Kept(x[k], y[k]) else y[k];
      case (Int(x), Uint(y)) => NumbersEqual(x, y);
      case (Uint(x), Int(y)) => NumbersEqual(y, x);
      case _ =>
    }
  }

  // ---------- single elements ----------

  lemma PathOfEnd(path: string)
    ensures path + "/-" == Below(path, "-")
  {
    EscapePasses("-");
    assert EscapeChars("-") == "-";
    assert path + "/-" == path + "/" + "-";
  }

  lemma Decoded(path: string, tokens: seq<string>, v: Json)
    requires Split(path) == Ok(tokens)
    ensures Decode(ReplaceOp(path, v)) == Ok(Replace(tokens, v))
    ensures Decode(AddOp(path, v)) == Ok(Add(tokens, v))
    ensures Decode(RemoveOp(path)) == Ok(Remove(tokens))
  {
    hide Split;
  }

  lemma ReplaceApplies(doc: Json, tokens: seq<string>, v: Json)
    requires GetChecked(doc, tokens).Ok?
    ensures ApplyOne(doc, ReplaceOp(ToString(tokens), v)) == Outcome(SetAt(doc, tokens, v), None)
  {
    hide GetChecked, SetAt, Decode, ToString, ReplaceOp;
    SplitToString(tokens);
    Decoded(ToString(tokens), tokens, v);
  }

  lemma AddApplies(doc: Json, tokens: seq<string>, token: string, v: Json)
    requires GetChecked(doc, tokens).Ok? && AddChild(GetChecked(doc, tokens).value, token, v).Ok?
    ensures ApplyOne(doc, AddOp(Below(ToString(tokens), token), v)) ==
            Outcome(SetAt(doc, tokens, AddChild(GetChecked(doc, tokens).value, token, v).value), None)
  {
    hide GetChecked, SetAt, Decode, ToString, Below, AddChild, AddOp;
    PathOfChild(tokens, token);
    Decoded(Below(ToString(tokens), token), tokens + [token], v);
    assert (tokens + [token])[..|tokens|] == tokens;
    if tokens != [] {
      TopExists(doc, tokens);
    }
  }

  lemma TopExists(doc: Json, tokens: seq<string>)
    requires tokens != [] && GetChecked(doc, tokens).Ok?
    ensures GetChecked(doc, [tokens[0]]).Ok?
  {
    assert [tokens[0]][1..] == [];
  }

  lemma RemoveApplies(doc: Json, tokens: seq<string>, token: string)
    requires GetChecked(doc, tokens).Ok? && RemoveChild(GetChecked(doc, tokens).value, token).Ok?
    ensures ApplyOne(doc, RemoveOp(Below(ToString(tokens), token))) ==
            Outcome(SetAt(doc, tokens, RemoveChild(GetChecked(doc, tokens).value, token).value), None)
  {
    hide GetChecked, SetAt, Decode, ToString, Below, RemoveChild, RemoveOp;
    PathOfChild(tokens, token);
    Decoded(Below(ToString(tokens), token), tokens + [token], Null);
    assert (tokens + [token])[..|tokens|] == tokens;
  }

  // ---------- lists of elements that change one subtree ----------

  /** The elements apply to the document and replace the value at the pointer by `v`, and nothing else. */
  predicate Turns(doc: Json, tokens: seq<string>, elements: seq<Json>, v: Json) {
    GetChecked(doc, tokens).Ok? && ApplyAll(doc, elements) == Outcome(SetAt(doc, tokens, v), None)
  }

  lemma TurnsNothing(doc: Json, tokens: seq<string>)
    requires GetChecked(doc, tokens).Ok?
    ensures Turns(doc, tokens, [], GetChecked(doc, tokens).value)
  {
    SetAtLaws(doc, tokens, Null, Null);
  }

  lemma TurnsOne(doc: Json, tokens: seq<string>, element: Json, v: Json)
    requires GetChecked(doc, tokens).Ok? && ApplyOne(doc, element) == Outcome(SetAt(doc, tokens, v), None)
    ensures Turns(doc, tokens, [element], v)
  {
    hide GetChecked, SetAt, ApplyOne;
    assert [element][1..] == [];
    assert ApplyAll(SetAt(doc, tokens, v), []) == Outcome(SetAt(doc, tokens, v), None);
  }

  lemma TurnsAppend(doc: Json, tokens: seq<string>, a: seq<Json>, b: seq<Json>, v: Json, w: Json)
    requires Turns(doc, tokens, a, v) && Turns(SetAt(doc, tokens, v), tokens, b, w)
    ensures Turns(doc, tokens, a + b, w)
  {
    hide GetChecked, SetAt, ApplyAll;
    ApplyAppend(doc, a, b);
    SetAtLaws(doc, tokens, v, w);
  }

  /** Turning a child is turning its parent. */
  lemma TurnsChild(doc: Json, tokens: seq<string>, token: string, elements: seq<Json>, v: Json)
    requires GetChecked(doc, tokens).Ok? && Child(GetChecked(doc, tokens).value, token).Ok?
    requires Turns(doc, tokens + [token], elements, v)
    ensures Turns(doc, tokens, elements, SetChild(GetChecked(doc, tokens).value, token, v))
  {
    hide GetChecked, SetAt, Child, SetChild, ApplyAll;
    ChildOfPointer(doc, tokens, token, v);
  }

  lemma After(doc: Json, tokens: seq<string>, v: Json)
    requires GetChecked(doc, tokens).Ok?
    ensures GetChecked(SetAt(doc, tokens, v), tokens) == Ok(v)
  {
    SetAtLaws(doc, tokens, v, v);
  }

  // ---------- the induction ----------

  /** diff below a pointer changes that subtree, and only that, into the target. */
  lemma {:induction false} DiffApplies(doc: Json, tokens: seq<string>, s: Json, t: Json)
    requires GetChecked(doc, tokens) == Ok(s) && Indexable(s)
    ensures Turns(doc, tokens, Diff(s, t, ToString(tokens)), Kept(s, t))
    decreases s, 2, 0
  {
    hide GetChecked, SetAt, ApplyOne, ToString, ReplaceOp, Turns;
    if Equal(s, t) {
      TurnsNothing(doc, tokens);
    } else if !SameType(s, t) || Primitive(s) {
      ReplaceApplies(doc, tokens, t);
      TurnsOne(doc, tokens, ReplaceOp(ToString(tokens), t), t);
    } else if s.Array? {
      ArrayApplies(doc, tokens, s, t);
    } else {
      ObjectApplies(doc, tokens, s, t);
    }
  }

  /** The source's elements, the first n of them already turned. */
  function Merged(x: seq<Json>, y: seq<Json>, n: nat): (r: seq<Json>)
    ensures |r| == |x|
  {
    seq(|x|, i requires 0 <= i < |x| => if i < n && i < |y| then Kept(x[i], y[i]) else x[i])
  }

  lemma {:induction false} ItemsApply(doc: Json, tokens: seq<string>, s: Json, t: Json, i: nat)
    requires s.Array? && t.Array? && i <= |s.items| && Indexable(s)
    requires GetChecked(doc, tokens) == Ok(Array(Merged(s.items, t.items, i)))
    ensures Turns(doc, tokens, DiffItems(s, t, ToString(tokens), i), Array(Merged(s.items, t.items, |s.items|)))
    decreases s, 1, |s.items| - i
  {
    hide GetChecked, SetAt, ToString, Turns, Diff, Kept, Equal, DiffItems, Below, BelowIndex, IndexToken, Child, SetChild;
    if i < |s.items| && i < |t.items| {
      NextItems(s, t, ToString(tokens), i);
      var path, child := ToString(tokens), IndexToken(i);
      var now, next := Array(Merged(s.items, t.items, i)), Array(Merged(s.items, t.items, i + 1));
      ArrayIndexAccepts(child, i);
      ItemChild(now, i, Kept(s.items[i], t.items[i]));
      ChildOfPointer(doc, tokens, child, Null);
      PathOfChild(tokens, child);
      PathOfIndex(tokens, i);
      DiffApplies(doc, tokens + [child], s.items[i], t.items[i]);
      var first := Diff(s.items[i], t.items[i], BelowIndex(path, i));
      TurnsChild(doc, tokens, child, first, Kept(s.items[i], t.items[i]));
      assert SetChild(now, child, Kept(s.items[i], t.items[i])) == next;
      After(doc, tokens, next);
      ItemsApply(SetAt(doc, tokens, next), tokens, s, t, i + 1);
      TurnsAppend(doc, tokens, first, DiffItems(s, t, path, i + 1), next, Array(Merged(s.items, t.items, |s.items|)));
    } else {
      assert Merged(s.items, t.items, i) == Merged(s.items, t.items, |s.items|);
      NoItemsLeft(s, t, ToString(tokens), i);
      TurnsNothing(doc, tokens);
    }
  }

  lemma RemoveItem(j: Json, i: nat)
    requires j.Array? && i < |j.items| && i < SIZE_MAX
    ensures RemoveChild(j, IndexToken(i)) == Ok(Array(j.items[..i] + j.items[i + 1..]))
  {
    ArrayIndexAccepts(IndexToken(i), i);
  }

  /** Removing from the end keeps the indices of what is still to be removed. */
  lemma {:induction false} RemovesApply(doc: Json, tokens: seq<string>, items: seq<Json>, from: nat)
    requires from <= |items| <= SIZE_MAX && GetChecked(doc, tokens) == Ok(Array(items))
    ensures Turns(doc, tokens, RemoveOps(ToString(tokens), from, |items|), Array(items[..from]))
    decreases |items|
  {
    hide GetChecked, SetAt, ToString, Turns, RemoveOp, ApplyOne;
    if from < |items| {
      var path, last := ToString(tokens), |items| - 1;
      var next := Array(items[..last]);
      ItemChild(Array(items), last, Null);
      RemoveItem(Array(items), last);
      assert items[..last] + items[last + 1..] == items[..last];
      RemoveApplies(doc, tokens, IndexToken(last));
      PathOfIndex(tokens, last);
      TurnsOne(doc, tokens, RemoveOp(BelowIndex(path, last)), next);
      After(doc, tokens, next);
      RemovesApply(SetAt(doc, tokens, next), tokens, items[..last], from);
      assert items[..last][..from] == items[..from];
      TurnsAppend(doc, tokens, [RemoveOp(BelowIndex(path, last))], RemoveOps(path, from, last), next, Array(items[..from]));
    } else {
      assert items[..from] == items;
      TurnsNothing(doc, tokens);
    }
  }

  lemma {:induction false} AddsApply(doc: Json, tokens: seq<string>, items: seq<Json>, i: nat)
    requires i <= |items| && GetChecked(doc, tokens) == Ok(Array(items[..i]))
    ensures Turns(doc, tokens, AddOps(ToString(tokens), items, i), Array(items))
    decreases |items| - i
  {
    hide GetChecked, SetAt, ToString, Turns, AddOp, ApplyOne;
    if i < |items| {
      var path, next := ToString(tokens), Array(items[..i + 1]);
      assert items[..i] + [items[i]] == items[..i + 1];
      AddApplies(doc, tokens, "-", items[i]);
      PathOfEnd(path);
      TurnsOne(doc, tokens, AddOp(path + "/-", items[i]), next);
      After(doc, tokens, next);
      AddsApply(SetAt(doc, tokens, next), tokens, items, i + 1);
      TurnsAppend(doc, tokens, [AddOp(path + "/-", items[i])], AddOps(path, items, i + 1), next, Array(items));
    } else {
      assert items[..i] == items;
      TurnsNothing(doc, tokens);
    }
  }

  lemma {:induction false} SameAdds(path: string, a: seq<Json>, b: seq<Json>, i: nat)
    requires |a| == |b| && forall j :: i <= j < |a| ==> a[j] == b[j]
    ensures AddOps(path, a, i) == AddOps(path, b, i)
    decreases |a| - i
  {
    if i < |a| {
      SameAdds(path, a, b, i + 1);
    }
  }

  lemma {:induction false} ArrayApplies(doc: Json, tokens: seq<string>, s: Json, t: Json)
    requires GetChecked(doc, tokens) == Ok(s) && Indexable(s) && s.Array? && t.Array? && !Equal(s, t)
    ensures Turns(doc, tokens, Diff(s, t, ToString(tokens)), Kept(s, t))
    decreases s, 1, |s.items| + 1
  {
    hide GetChecked, SetAt, ToString, Turns, Equal, DiffItems;
    var path, x, y, kept := ToString(tokens), s.items, t.items, Kept(s, t).items;
    var merged := Merged(x, y, |x|);
    assert Merged(x, y, 0) == x;
    ItemsApply(doc, tokens, s, t, 0);
    var now := SetAt(doc, tokens, Array(merged));
    After(doc, tokens, Array(merged));
    if |y| <= |x| {
      RemovesApply(now, tokens, merged, |y|);
      assert merged[..|y|] == kept;
      TurnsAppend(doc, tokens, DiffItems(s, t, path, 0), RemoveOps(path, |y|, |x|), Array(merged), Array(kept));
      assert Diff(s, t, path) == DiffItems(s, t, path, 0) + RemoveOps(path, |y|, |x|);
    } else {
      assert merged == kept[..|x|];
      AddsApply(now, tokens, kept, |x|);
      SameAdds(path, kept, y, |x|);
      TurnsAppend(doc, tokens, DiffItems(s, t, path, 0), AddOps(path, y, |x|), Array(merged), Array(kept));
      assert Diff(s, t, path) == DiffItems(s, t, path, 0) + AddOps(path, y, |x|);
    }
  }

  /** The source's members once all but these keys are turned or removed. */
  function Mixed(x: map<string, Json>, y: map<string, Json>, keys: seq<string>): map<string, Json> {
    map k | k in x && (k in keys || k in y) :: if k in keys then x[k] else Kept(x[k], y[k])
  }

  /** The members common to both, and those of the target that are not among these keys. */
  function Completed(x: map<string, Json>, y: map<string, Json>, keys: seq<string>): map<string, Json> {
    map k | k in y && (k in x || k !in keys) :: if k in x then Kept(x[k], y[k]) else y[k]
  }

  lemma MixedStep(x: map<string, Json>, y: map<string, Json>, keys: seq<string>)
    requires Sorted(keys) && keys != [] && keys[0] in x
    ensures var k, now := keys[0], Mixed(x, y, keys);
            && k in now && now[k] == x[k]
            && Mixed(x, y, keys[1..]) == if k in y then now[k := Kept(x[k], y[k])] else now - {k}
  {
    hide Kept;
    SortedTail(keys);
  }

  lemma CompletedStep(x: map<string, Json>, y: map<string, Json>, keys: seq<string>)
    requires Sorted(keys) && keys != [] && keys[0] in y
    ensures var k, now := keys[0], Completed(x, y, keys);
            Completed(x, y, keys[1..]) == if k in x then now else now[k := y[k]]
  {
    SortedTail(keys);
    hide Kept;
  }

  /** One member of the source. */
  lemma {:induction false} MemberApplies(doc: Json, tokens: seq<string>, s: Json, t: Json, keys: seq<string>)
    requires s.Object? && t.Object? && Indexable(s) && Sorted(keys) && keys != [] && keys[0] in s.members
    requires GetChecked(doc, tokens) == Ok(Object(Mixed(s.members, t.members, keys)))
    ensures var k, path := keys[0], ToString(tokens);
            var first := if k in t.members then Diff(s.members[k], t.members[k], Below(path, k)) else [RemoveOp(Below(path, k))];
            Turns(doc, tokens, first, Object(Mixed(s.members, t.members, keys[1..])))
    decreases s, 0, |keys|
  {
    hide GetChecked, SetAt, ToString, Turns, Diff, Kept, Equal, RemoveOp, ApplyOne, Mixed, Below;
    var k, x, y := keys[0], s.members, t.members;
    MixedStep(x, y, keys);
    if k in y {
      ChildOfPointer(doc, tokens, k, Null);
      PathOfChild(tokens, k);
      DiffApplies(doc, tokens + [k], x[k], y[k]);
      TurnsChild(doc, tokens, k, Diff(x[k], y[k], Below(ToString(tokens), k)), Kept(x[k], y[k]));
    } else {
      RemoveApplies(doc, tokens, k);
      TurnsOne(doc, tokens, RemoveOp(Below(ToString(tokens), k)), Object(Mixed(x, y, keys[1..])));
    }
  }

  lemma {:induction false} MembersApply(doc: Json, tokens: seq<string>, s: Json, t: Json, keys: seq<string>)
    requires s.Object? && t.Object? && Indexable(s) && Sorted(keys) && forall k <- keys :: k in s.members
    requires GetChecked(doc, tokens) == Ok(Object(Mixed(s.members, t.members, keys)))
    ensures Turns(doc, tokens, DiffMembers(keys, s, t, ToString(tokens)), Object(Mixed(s.members, t.members, [])))
    decreases s, 1, |keys|
  {
    hide GetChecked, SetAt, ToString, Turns, Diff, Equal, RemoveOp, Mixed, Below;
    if keys != [] {
      var next := Object(Mixed(s.members, t.members, keys[1..]));
      assert keys[0] in keys;
      MemberApplies(doc, tokens, s, t, keys);
      After(doc, tokens, next);
      SortedTail(keys);
      MembersApply(SetAt(doc, tokens, next), tokens, s, t, keys[1..]);
      var k, path := keys[0], ToString(tokens);
      var first := if k in t.members then Diff(s.members[k], t.members[k], Below(path, k)) else [RemoveOp(Below(path, k))];
      TurnsAppend(doc, tokens, first, DiffMembers(keys[1..], s, t, path), next, Object(Mixed(s.members, t.members, [])));
    } else {
      TurnsNothing(doc, tokens);
    }
  }

  lemma {:induction false} AddedApply(doc: Json, tokens: seq<string>, x: map<string, Json>, y: map<string, Json>, keys: seq<string>)
    requires Sorted(keys) && forall k <- keys :: k in y
    requires GetChecked(doc, tokens) == Ok(Object(Completed(x, y, keys)))
    ensures Turns(doc, tokens, AddMembers(keys, x, y, ToString(tokens)), Object(Completed(x, y, [])))
    decreases |keys|
  {
    hide GetChecked, SetAt, ToString, Turns, AddOp, ApplyOne, Completed, Below;
    if keys != [] {
      var k, path := keys[0], ToString(tokens);
      var next, last := Object(Completed(x, y, keys[1..])), Object(Completed(x, y, []));
      assert k in keys;
      CompletedStep(x, y, keys);
      SortedTail(keys);
      if k in x {
        AddedApply(doc, tokens, x, y, keys[1..]);
        assert AddMembers(keys, x, y, path) == AddMembers(keys[1..], x, y, path);
      } else {
        AddApplies(doc, tokens, k, y[k]);
        TurnsOne(doc, tokens, AddOp(Below(path, k), y[k]), next);
        After(doc, tokens, next);
        AddedApply(SetAt(doc, tokens, next), tokens, x, y, keys[1..]);
        TurnsAppend(doc, tokens, [AddOp(Below(path, k), y[k])], AddMembers(keys[1..], x, y, path), next, last);
      }
    } else {
      TurnsNothing(doc, tokens);
    }
  }

  lemma DiffOfObjects(s: Json, t: Json, path: string)
    requires s.Object? && t.Object? && !Equal(s, t)
    ensures Diff(s, t, path) == DiffMembers(SortedKeys(s.members.Keys), s, t, path)
                                + AddMembers(SortedKeys(t.members.Keys), s.members, t.members, path)
  {
    hide Equal, SortedKeys, DiffMembers, AddMembers;
  }

  lemma {:induction false} ObjectApplies(doc: Json, tokens: seq<string>, s: Json, t: Json)
    requires GetChecked(doc, tokens) == Ok(s) && Indexable(s) && s.Object? && t.Object? && !Equal(s, t)
    ensures Turns(doc, tokens, Diff(s, t, ToString(tokens)), Kept(s, t))
    decreases s, 1, |SortedKeys(s.members.Keys)| + 1
  {
    hide GetChecked, SetAt, ToString, Turns, Equal, DiffMembers, AddMembers, Diff, SortedKeys;
    DiffOfObjects(s, t, ToString(tokens));
    var path, x, y := ToString(tokens), s.members, t.members;
    var xs, ys := SortedKeys(x.Keys), SortedKeys(y.Keys);
    assert Mixed(x, y, xs) == x;
    MembersApply(doc, tokens, s, t, xs);
    var next := Object(Mixed(x, y, []));
    After(doc, tokens, next);
    assert Completed(x, y, ys) == Mixed(x, y, []);
    AddedApply(SetAt(doc, tokens, next), tokens, x, y, ys);
    assert Completed(x, y, []) == Kept(s, t).members;
    TurnsAppend(doc, tokens, DiffMembers(xs, s, t, path), AddMembers(ys, x, y, path), next, Kept(s, t));
  }

  // ---------- the theorem ----------

  /**
   Applying the diff of two documents to the first never throws, and yields the second as operator== sees it;
   it yields exactly the second unless a signed and an unsigned number were taken for equal on the way.
   */
  lemma {:induction false} DiffThenPatch(s: Json, t: Json)
    requires Indexable(s)
    ensures var r := Patched(s, Array(Diff(s, t, "")));
            r.error.None? && Equal(r.doc, t) && (r.doc == t <==> !NumbersConfused(s, t))
  {
    hide Equal, Kept, Diff, NumbersConfused, ApplyAll;
    assert ToString([]) == "";
    DiffApplies(s, [], s, t);
    KeptIsEqual(s, t);
    KeptIsTarget(s, t);
  }

  /** The diff is empty exactly when the documents are equal. */
  lemma DiffEmpty(s: Json, t: Json)
    requires Indexable(s)
    ensures Diff(s, t, "") == [] <==> Equal(s, t)
  {
    hide Equal;
    DiffThenPatch(s, t);
    assert ApplyAll(s, []) == Outcome(s, None);
  }

  /** Two documents with different numbers whose diff is empty. */
  lemma DiffMissesWrappedNumber()
    ensures var s, t := Int(-1), Uint(18446744073709551615);
            Diff(s, t, "") == [] && s != t && Patched(s, Array([])).doc == s
  {
  }

  // ---------- diff as the code computes it ----------

  lemma {:induction false} RemoveInFront(path: string, from: nat, to: nat)
    requires from <= to
    ensures RemoveOps(path, from, to + 1) == [RemoveOp(BelowIndex(path, to))] + RemoveOps(path, from, to)
  {
  }

  lemma {:induction false} AddBehind(path: string, items: seq<Json>, i: nat, n: nat)
    requires i <= n < |items|
    ensures AddOps(path, items[..n + 1], i) == AddOps(path, items[..n], i) + [AddOp(path + "/-", items[n])]
    decreases n - i
  {
    if i < n {
      AddBehind(path, items, i + 1, n);
    } else {
      assert AddOps(path, items[..n + 1], n + 1) == [];
    }
  }

  /** The recursive method, with its loops over elements and members. */
  method ComputeDiff(source: Json, target: Json, path: string) returns (result: seq<Json>)
    ensures result == Diff(source, target, path)
    decreases source, 1
  {
    hide Equal;
    if Equal(source, target) {
      return [];
    }
    if !SameType(source, target) {
      return [ReplaceOp(path, target)];
    }
    match source {
      case Array(_) => result := DiffArrays(source, target, path);
      case Object(_) => result := DiffObjects(source, target, path);
      case _ => result := [ReplaceOp(path, target)];
    }
  }

  method DiffArrays(source: Json, target: Json, path: string) returns (result: seq<Json>)
    requires source.Array? && target.Array?
    ensures result == DiffItems(source, target, path, 0) + RemoveOps(path, |target.items|, |source.items|)
                      + AddOps(path, target.items, |source.items|)
    decreases source, 0
  {
    hide Diff, RemoveOp, AddOp, DiffItems, RemoveOps, AddOps;
    var x, y := source.items, target.items;
    var i := 0;
    result := [];
    while i < |x| && i < |y|
      invariant i <= |x| && i <= |y|
      invariant result + DiffItems(source, target, path, i) == DiffItems(source, target, path, 0)
    {
      var tempDiff := ComputeDiff(x[i], y[i], BelowIndex(path, i));
      NextItems(source, target, path, i);
      Regroup(result, tempDiff, DiffItems(source, target, path, i + 1));
      result := result + tempDiff;
      i := i + 1;
    }
    NoItemsLeft(source, target, path, i);
    assert result == DiffItems(source, target, path, 0);
    NoRemoves(path, |y|, i);
    ghost var common := result;
    var endIndex := |result|;
    while i < |x|
      invariant i <= |x| && (|y| <= i || |x| <= i)
      invariant endIndex == |common| && result == common + RemoveOps(path, |y|, i)
      decreases |x| - i
    {
      RemoveInFront(path, |y|, i);
      result := result[..endIndex] + [RemoveOp(BelowIndex(path, i))] + result[endIndex..];
      i := i + 1;
    }
    NoRemovesBut(path, |y|, |x|, i);
    assert result == common + RemoveOps(path, |y|, |x|);
    ghost var before := result;
    NoAdds(path, y, |x|);
    while i < |y|
      invariant |x| <= i && (i == |x| || i <= |y|)
      invariant result == before + if i <= |y| then AddOps(path, y[..i], |x|) else []
      decreases |y| - i
    {
      AddBehind(path, y, |x|, i);
      result := result + [AddOp(path + "/-", y[i])];
      i := i + 1;
    }
    assert i == |y| ==> y[..i] == y;
  }

  /** First pass: the members of the source. */
  method DiffSourceMembers(source: Json, target: Json, path: string) returns (result: seq<Json>)
    requires source.Object? && target.Object?
    ensures result == DiffMembers(SortedKeys(source.members.Keys), source, target, path)
    decreases source, 0, 0
  {
    hide Diff, RemoveOp, Below, DiffMembers, SortedKeys;
    var keys := SortedKeys(source.members.Keys);
    result := [];
    assert keys[0..] == keys;
    for i := 0 to |keys|
      invariant result + DiffMembers(keys[i..], source, target, path) == DiffMembers(keys, source, target, path)
    {
      var k := keys[i];
      assert k in keys;
      NextChanged(keys, i, source, target, path);
      var step: seq<Json>;
      if k in target.members {
        step := ComputeDiff(source.members[k], target.members[k], Below(path, k));
      } else {
        step := [RemoveOp(Below(path, k))];
      }
      Regroup(result, step, DiffMembers(keys[i + 1..], source, target, path));
      result := result + step;
    }
    assert keys[|keys|..] == [];
    NoneChanged(source, target, path);
  }

  lemma NextChanged(keys: seq<string>, i: nat, source: Json, target: Json, path: string)
    requires source.Object? && target.Object? && i < |keys| && forall k <- keys :: k in source.members
    ensures keys[i] in source.members
    ensures DiffMembers(keys[i..], source, target, path) ==
            (if keys[i] in target.members then Diff(source.members[keys[i]], target.members[keys[i]], Below(path, keys[i]))
             else [RemoveOp(Below(path, keys[i]))])
            + DiffMembers(keys[i + 1..], source, target, path)
  {
    hide Diff, RemoveOp, Below;
    assert keys[i..][0] == keys[i] && keys[i..][1..] == keys[i + 1..];
  }

  lemma NoneChanged(source: Json, target: Json, path: string)
    requires source.Object? && target.Object?
    ensures DiffMembers([], source, target, path) == []
  {
  }

  lemma NextItems(source: Json, target: Json, path: string, i: nat)
    requires source.Array? && target.Array? && i < |source.items| && i < |target.items|
    ensures DiffItems(source, target, path, i) ==
            Diff(source.items[i], target.items[i], BelowIndex(path, i)) + DiffItems(source, target, path, i + 1)
  {
    hide Diff;
  }

  lemma NoItemsLeft(source: Json, target: Json, path: string, i: nat)
    requires source.Array? && target.Array? && (i >= |source.items| || i >= |target.items|)
    ensures DiffItems(source, target, path, i) == []
  {
  }

  lemma NoRemoves(path: string, from: nat, to: nat)
    requires from >= to
    ensures RemoveOps(path, from, to) == []
  {
  }

  /** Where the loop over the rest of the source has ended. */
  lemma NoRemovesBut(path: string, from: nat, to: nat, i: nat)
    requires i == to || (from >= to && i <= from)
    ensures RemoveOps(path, from, i) == RemoveOps(path, from, to)
  {
  }

  lemma NoAdds(path: string, items: seq<Json>, from: nat)
    ensures |items| < from ==> AddOps(path, items, from) == []
    ensures from <= |items| ==> AddOps(path, items[..from], from) == []
  {
  }

  /** Second pass: the members of the target. */
  method DiffTargetMembers(keys: seq<string>, source: map<string, Json>, target: map<string, Json>, path: string)
    returns (result: seq<Json>)
    requires forall k <- keys :: k in target
    ensures result == AddMembers(keys, source, target, path)
  {
    hide AddMembers, AddOp, Below;
    result := [];
    assert keys[0..] == keys;
    for i := 0 to |keys|
      invariant result + AddMembers(keys[i..], source, target, path) == AddMembers(keys, source, target, path)
    {
      var k := keys[i];
      NextAdded(keys, i, source, target, path);
      var step := if k in source then [] else [AddOp(Below(path, k), target[k])];
      Regroup(result, step, AddMembers(keys[i + 1..], source, target, path));
      result := result + step;
    }
    assert keys[|keys|..] == [];
    NoneAdded(source, target, path);
  }

  method DiffObjects(source: Json, target: Json, path: string) returns (result: seq<Json>)
    requires source.Object? && target.Object?
    ensures result == DiffMembers(SortedKeys(source.members.Keys), source, target, path)
                      + AddMembers(SortedKeys(target.members.Keys), source.members, target.members, path)
    decreases source, 0, 1
  {
    result := DiffSourceMembers(source, target, path);
    var added := DiffTargetMembers(SortedKeys(target.members.Keys), source.members, target.members, path);
    result := result + added;
  }

  lemma NoneAdded(x: map<string, Json>, y: map<string, Json>, path: string)
    ensures AddMembers([], x, y, path) == []
  {
  }

  lemma NextAdded(keys: seq<string>, i: nat, x: map<string, Json>, y: map<string, Json>, path: string)
    requires i < |keys| && forall k <- keys :: k in y
    ensures keys[i] in y
    ensures AddMembers(keys[i..], x, y, path) ==
            (if keys[i] in x then [] else [AddOp(Below(path, keys[i]), y[keys[i]])]) + AddMembers(keys[i + 1..], x, y, path)
  {
    hide AddOp, Below;
    assert keys[i] in keys && keys[i..][0] == keys[i] && keys[i..][1..] == keys[i + 1..];
  }

  lemma Regroup(a: seq<Json>, b: seq<Json>, c: seq<Json>)
    ensures a + (b + c) == (a + b) + c
  {
  }
}
