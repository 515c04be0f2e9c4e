/** The operations of RFC 6902, section 4, in terms of the document before and after, and exactly when they fail. */
module JsonOperations {
  import opened Wrappers
  import opened Json
  import opened JsonPointer
  import opened JsonPatch

  // ---------- one place in a container ----------

  /** r is items with v put in at position `at`. */
  predicate Inserted(items: seq<Json>, at: nat, v: Json, r: seq<Json>) {
    && at <= |items| && |r| == |items| + 1
    && r[..at] == items[..at] && r[at] == v && r[at + 1..] == items[at..]
  }

  /** b has what a has under every key but this one. */
  predicate SameBut(a: map<string, Json>, b: map<string, Json>, key: string) {
    && (forall k :: k in a && k != key ==> k in b && b[k] == a[k])
    && (forall k :: k in b && k != key ==> k in a)
  }

  /** Into an array the value is put in front of the element that was there, or at the end; a null counts as an empty object. */
  ghost predicate AddedTo(parent: Json, token: string, v: Json, r: Json) {
    match parent
    case Array(items) =>
      && r.Array?
      && exists at: nat :: (token == IndexToken(at) || (token == "-" && at == |items|)) && Inserted(items, at, v, r.items)
    case Object(m) => r.Object? && token in r.members && r.members[token] == v && SameBut(m, r.members, token)
    case Null => r == Object(map[token := v])
    case _ => false
  }

  /** From an array the element is taken out; below a primitive value nothing happens. */
  ghost predicate RemovedFrom(parent: Json, token: string, r: Json) {
    match parent
    case Array(items) =>
      && r.Array?
      && exists at: nat :: token == IndexToken(at) && at < |items| && Inserted(r.items, at, items[at], items)
    case Object(m) => r.Object? && token in m && token !in r.members && SameBut(m, r.members, token)
    case _ => r == parent
  }

  lemma AddChildAdds(parent: Json, token: string, v: Json)
    requires AddChild(parent, token, v).Ok?
    ensures AddedTo(parent, token, v, AddChild(parent, token, v).value)
  {
    hide ArrayIndex, IndexToken;
    match parent
    case Array(items) =>
      if token == "-" {
        assert Inserted(items, |items|, v, items + [v]);
      } else {
        var at := ArrayIndex(token).value;
        ArrayIndexAccepts(token, at);
        assert Inserted(items, at, v, items[..at] + [v] + items[at..]);
      }
    case _ =>
  }

  lemma RemoveChildRemoves(parent: Json, token: string)
    requires RemoveChild(parent, token).Ok?
    ensures RemovedFrom(parent, token, RemoveChild(parent, token).value)
  {
    hide ArrayIndex, IndexToken;
    match parent
    case Array(items) =>
      var at := ArrayIndex(token).value;
      ArrayIndexAccepts(token, at);
      assert Inserted(items[..at] + items[at + 1..], at, items[at], items);
    case _ =>
  }

  // ---------- everywhere else ----------

  ghost predicate SameElsewhere(doc: Json, r: Json, ptr: seq<string>) {
    forall q :: Diverge(ptr, q) ==> GetChecked(r, q) == GetChecked(doc, q)
  }

  // ---------- the operations ----------

  ghost predicate AddPerformed(doc: Json, tokens: seq<string>, v: Json, r: Json) {
    if tokens == [] then r == v
    else
      var ptr, last := tokens[..|tokens| - 1], tokens[|tokens| - 1];
      && GetChecked(doc, ptr).Ok? && GetChecked(r, ptr).Ok?
      && AddedTo(GetChecked(doc, ptr).value, last, v, GetChecked(r, ptr).value)
      && SameElsewhere(doc, r, ptr)
  }

  ghost predicate RemovePerformed(doc: Json, tokens: seq<string>, r: Json) {
    && tokens != []
    && var ptr, last := tokens[..|tokens| - 1], tokens[|tokens| - 1];
       && GetChecked(doc, ptr).Ok? && GetChecked(r, ptr).Ok?
       && RemovedFrom(GetChecked(doc, ptr).value, last, GetChecked(r, ptr).value)
       && SameElsewhere(doc, r, ptr)
  }

  ghost predicate ReplacePerformed(doc: Json, ptr: seq<string>, v: Json, r: Json) {
    GetChecked(doc, ptr).Ok? && GetChecked(r, ptr) == Ok(v) && SameElsewhere(doc, r, ptr)
  }

  /** What each operation leaves, by the members of the RFC's section. */
  ghost predicate Performed(doc: Json, instr: Instruction, r: Json) {
    match instr
    case Add(ptr, v) => AddPerformed(doc, ptr, v, r)
    case Remove(ptr) => RemovePerformed(doc, ptr, r)
    case Replace(ptr, v) => ReplacePerformed(doc, ptr, v, r)
    case Move(from, ptr) =>
      && GetChecked(doc, from).Ok?
      && exists between :: RemovePerformed(doc, from, between) && AddPerformed(between, ptr, GetChecked(doc, from).value, r)
    case Copy(from, ptr) => GetChecked(doc, from).Ok? && AddPerformed(doc, ptr, GetChecked(doc, from).value, r)
    case Test(ptr, wanted) =>
      r == doc && GetChecked(doc, ptr).Ok? && wanted.Ok? && Equal(GetChecked(doc, ptr).value, wanted.value)
  }

  lemma WrittenElsewhere(doc: Json, ptr: seq<string>, v: Json)
    requires GetChecked(doc, ptr).Ok?
    ensures GetChecked(SetAt(doc, ptr, v), ptr) == Ok(v) && SameElsewhere(doc, SetAt(doc, ptr, v), ptr)
  {
    hide GetChecked, SetAt, Diverge;
    SetAtLaws(doc, ptr, v, v);
    forall q | Diverge(ptr, q) ensures GetChecked(SetAt(doc, ptr, v), q) == GetChecked(doc, q) {
      SetAtElsewhere(doc, ptr, v, q);
    }
  }

  lemma AddPerforms(doc: Json, tokens: seq<string>, v: Json)
    requires OperationAdd(doc, tokens, v).error.None?
    ensures AddPerformed(doc, tokens, v, OperationAdd(doc, tokens, v).doc)
  {
    hide GetChecked, SetAt, AddChild, AddedTo, SameElsewhere;
    if tokens != [] {
      var ptr, last := tokens[..|tokens| - 1], tokens[|tokens| - 1];
      var parent := GetChecked(doc, ptr).value;
      AddChildAdds(parent, last, v);
      WrittenElsewhere(doc, ptr, AddChild(parent, last, v).value);
    }
  }

  lemma RemovePerforms(doc: Json, tokens: seq<string>)
    requires OperationRemove(doc, tokens).error.None?
    ensures RemovePerformed(doc, tokens, OperationRemove(doc, tokens).doc)
  {
    hide GetChecked, SetAt, RemoveChild, RemovedFrom, SameElsewhere;
    var ptr, last := tokens[..|tokens| - 1], tokens[|tokens| - 1];
    var parent := GetChecked(doc, ptr).value;
    RemoveChildRemoves(parent, last);
    WrittenElsewhere(doc, ptr, RemoveChild(parent, last).value);
  }

  /** An operation that succeeds leaves the document that section 4 of RFC 6902 asks for. */
  lemma ExecutePerforms(doc: Json, instr: Instruction)
    requires Execute(doc, instr).error.None?
    ensures Performed(doc, instr, Execute(doc, instr).doc)
  {
    hide GetChecked, OperationAdd, OperationRemove, AddPerformed, RemovePerformed, SetAt, SameElsewhere;
    match instr
    case Add(ptr, v) => AddPerforms(doc, ptr, v);
    case Remove(ptr) => RemovePerforms(doc, ptr);
    case Replace(ptr, v) => WrittenElsewhere(doc, ptr, v);
    case Move(from, ptr) =>
      RemovePerforms(doc, from);
      AddPerforms(OperationRemove(doc, from).doc, ptr, GetChecked(doc, from).value);
    case Copy(from, ptr) => AddPerforms(doc, ptr, GetChecked(doc, from).value);
    case Test(ptr, wanted) =>
  }

  // ---------- failures ----------

  predicate RemoveRejected(doc: Json, tokens: seq<string>) {
    || tokens == []
    || var parent, last := GetChecked(doc, tokens[..|tokens| - 1]), tokens[|tokens| - 1];
       || parent.Err?
       || (parent.value.Object? && last !in parent.value.members)
       || (parent.value.Array? && (ArrayIndex(last).Err? || ArrayIndex(last).value >= |parent.value.items|))
  }

  predicate Rejected(doc: Json, instr: Instruction) {
    match instr
    case Add(ptr, v) => AddRejected(doc, ptr)
    case Remove(ptr) => RemoveRejected(doc, ptr)
    case Replace(ptr, v) => GetChecked(doc, ptr).Err?
    case Move(from, ptr) =>
      GetChecked(doc, from).Err? || RemoveRejected(doc, from) || AddRejected(OperationRemove(doc, from).doc, ptr)
    case Copy(from, ptr) => GetChecked(doc, from).Err? || AddRejected(doc, ptr)
    case Test(ptr, wanted) =>
      GetChecked(doc, ptr).Err? || wanted.Err? || !Equal(GetChecked(doc, ptr).value, wanted.value)
  }

  lemma RemoveFails(doc: Json, tokens: seq<string>)
    ensures OperationRemove(doc, tokens).error.Some? <==> RemoveRejected(doc, tokens)
  {
    hide GetChecked, SetAt, ArrayIndex;
  }

  /** An operation throws exactly when its guards say so. */
  lemma ExecuteFails(doc: Json, instr: Instruction)
    ensures Execute(doc, instr).error.Some? <==> Rejected(doc, instr)
  {
    hide GetChecked, OperationAdd, OperationRemove, AddRejected, RemoveRejected, SetAt;
    match instr
    case Add(ptr, v) => AddFails(doc, ptr, v);
    case Remove(ptr) => RemoveFails(doc, ptr);
    case Replace(ptr, v) =>
    case Move(from, ptr) =>
      RemoveFails(doc, from);
      if GetChecked(doc, from).Ok? {
        AddFails(OperationRemove(doc, from).doc, ptr, GetChecked(doc, from).value);
      }
    case Copy(from, ptr) =>
      if GetChecked(doc, from).Ok? {
        AddFails(doc, ptr, GetChecked(doc, from).value);
      }
    case Test(ptr, wanted) =>
  }

  /** A test fails with 501, for a value that differs or is out of range; other exceptions keep their kind. */
  lemma TestFailsAs(doc: Json, ptr: seq<string>, wanted: Result<Json, Error>)
    ensures var e, found := Execute(doc, Test(ptr, wanted)).error, GetChecked(doc, ptr);
            && (found.Err? && found.error.OutOfRange? ==> e == Some(OtherError(501)))
            && (found.Err? && !found.error.OutOfRange? ==> e == Some(found.error))
            && (found.Ok? && wanted.Err? ==> e == Some(wanted.error))
            && (found.Ok? && wanted.Ok? && !Equal(found.value, wanted.value) ==> e == Some(OtherError(501)))
  {
  }

  /** The exceptions of add: those of at() for the parent, the assertion, and those for a place in an array. */
  lemma AddFailsAs(doc: Json, tokens: seq<string>, v: Json)
    requires AddRejected(doc, tokens)
    ensures var e, parent, last := OperationAdd(doc, tokens, v).error, GetChecked(doc, tokens[..|tokens| - 1]), tokens[|tokens| - 1];
            && (parent.Err? ==> e == Some(parent.error))
            && (parent.Ok? && parent.value.Array? ==>
                  e == Some(if ArrayIndex(last).Err? then ArrayIndex(last).error else OutOfRange(401)))
            && (parent.Ok? && Primitive(parent.value) ==> e == Some(AssertionFailed))
  {
    hide ArrayIndex, SetAt;
    if |tokens| > 1 && GetChecked(doc, [tokens[0]]).Err? {
      FirstTokenFails(doc, tokens[..|tokens| - 1]);
    }
  }

  lemma FirstTokenFails(doc: Json, ptr: seq<string>)
    requires ptr != [] && GetChecked(doc, [ptr[0]]).Err?
    ensures GetChecked(doc, ptr) == GetChecked(doc, [ptr[0]])
  {
    assert [ptr[0]][1..] == [];
  }

  /** The exceptions of remove: no parent for the whole document, a missing key, or no such index. */
  lemma RemoveFailsAs(doc: Json, tokens: seq<string>)
    requires RemoveRejected(doc, tokens)
    ensures var e := OperationRemove(doc, tokens).error;
            if tokens == [] then e == Some(OutOfRange(405))
            else
              var parent, last := GetChecked(doc, tokens[..|tokens| - 1]), tokens[|tokens| - 1];
              && (parent.Err? ==> e == Some(parent.error))
              && (parent.Ok? && parent.value.Object? ==> e == Some(OutOfRange(403)))
              && (parent.Ok? && parent.value.Array? ==>
                    e == Some(if ArrayIndex(last).Err? then ArrayIndex(last).error else OutOfRange(401)))
  {
    hide GetChecked, SetAt, ArrayIndex;
  }

  /** A patch that is no array fails with 104 before anything is done; otherwise its elements are applied in turn. */
  lemma {:induction false} PatchInTurn(doc: Json, patch: Json, n: nat)
    ensures !patch.Array? ==> Patched(doc, patch) == Outcome(doc, Some(ParseError(104)))
    ensures patch == Array([]) ==> Patched(doc, patch) == Outcome(doc, None)
    ensures patch.Array? && n < |patch.items| && Patched(doc, Array(patch.items[..n])).error.None? ==>
              var before := Patched(doc, Array(patch.items[..n])).doc;
              Patched(doc, Array(patch.items[..n + 1])) == ApplyOne(before, patch.items[n])
    ensures patch.Array? && n <= |patch.items| && Patched(doc, Array(patch.items[..n])).error.Some? ==>
              Patched(doc, patch) == Patched(doc, Array(patch.items[..n]))
  {
    hide ApplyOne;
    if patch.Array? && n <= |patch.items| {
      ApplyAppend(doc, patch.items[..n], patch.items[n..]);
      assert patch.items[..n] + patch.items[n..] == patch.items;
      if n < |patch.items| {
        ApplyAppend(doc, patch.items[..n], [patch.items[n]]);
        assert patch.items[..n] + [patch.items[n]] == patch.items[..n + 1];
        ApplyOnlyOne(Patched(doc, Array(patch.items[..n])).doc, patch.items[n]);
      }
    }
  }

  lemma ApplyOnlyOne(doc: Json, element: Json)
    ensures ApplyAll(doc, [element]) == ApplyOne(doc, element)
  {
    hide ApplyOne;
    assert [element][1..] == [];
    assert ApplyAll(ApplyOne(doc, element).doc, []) == Outcome(ApplyOne(doc, element).doc, None);
  }

  // ---------- the elements of a patch ----------

  predicate OpIs(val: map<string, Json>, op: string) {
    "op" in val && val["op"] == Str(op)
  }

  predicate PointerIs(val: map<string, Json>, name: string, ptr: seq<string>) {
    name in val && val[name].Str? && Split(val[name].s) == Ok(ptr)
  }

  predicate ValueIs(val: map<string, Json>, v: Json) {
    "value" in val && val["value"] == v
  }

  /** The element asks for this operation; a test may lack its value until it is needed. */
  predicate Describes(element: Json, instr: Instruction) {
    && element.Object?
    && var val := element.members;
       match instr
       case Add(ptr, v) => OpIs(val, "add") && PointerIs(val, "path", ptr) && ValueIs(val, v)
       case Remove(ptr) => OpIs(val, "remove") && PointerIs(val, "path", ptr)
       case Replace(ptr, v) => OpIs(val, "replace") && PointerIs(val, "path", ptr) && ValueIs(val, v)
       case Move(from, ptr) => OpIs(val, "move") && PointerIs(val, "path", ptr) && PointerIs(val, "from", from)
       case Copy(from, ptr) => OpIs(val, "copy") && PointerIs(val, "path", ptr) && PointerIs(val, "from", from)
       case Test(ptr, wanted) =>
         && OpIs(val, "test") && PointerIs(val, "path", ptr)
         && wanted == if "value" in val then Ok(val["value"]) else Err(ParseError(105))
  }

  /** The first pointer of these members that is a string but does not parse. */
  predicate BadPointer(val: map<string, Json>, name: string, e: Error) {
    name in val && val[name].Str? && Split(val[name].s) == Err(e)
  }

  /** An element that is no object fails with 104; otherwise a pointer fails as it does, and anything else with 105. */
  lemma DecodeErrors(element: Json)
    requires Decode(element).Err?
    ensures var e := Decode(element).error;
            if !element.Object? then e == ParseError(104)
            else e == ParseError(105) || BadPointer(element.members, "path", e) || BadPointer(element.members, "from", e)
  {
    hide Split;
  }

  /** An element is understood exactly as it describes itself. */
  lemma DecodeIs(element: Json, instr: Instruction)
    ensures Decode(element) == Ok(instr) <==> Describes(element, instr)
  {
    hide Split;
  }
}
