/** patch_inplace: the operations of RFC 6902 on a document, with the library's errors. */
module JsonPatch {
  import opened Wrappers
  import opened Bytes
  import opened StringEscape
  import opened Json
  import opened JsonPointer

  /** The document afterwards, and the exception that stopped the patch, if any. */
  datatype Outcome = Outcome(doc: Json, error: Option<Error>)

  function Failed(doc: Json, error: Error): Outcome {
    Outcome(doc, Some(error))
  }

  // ---------- single operations ----------

  /** Adds to the parent; the code asserts that a parent that exists is not primitive. */
  function AddChild(parent: Json, token: string, v: Json): Result<Json, Error> {
    match parent
    case Null => Ok(Object(map[token := v]))
    case Object(m) => Ok(Object(m[token := v]))
    case Array(items) =>
      if token == "-" then Ok(Array(items + [v]))
      else
        var idx :- ArrayIndex(token);
        if idx > |items| then Err(OutOfRange(401)) else Ok(Array(items[..idx] + [v] + items[idx..]))
    case _ => Err(AssertionFailed)
  }

  /** Removes from the parent; a parent that is neither object nor array is left as it is. */
  function RemoveChild(parent: Json, token: string): Result<Json, Error> {
    match parent
    case Object(m) => if token in m then Ok(Object(m - {token})) else Err(OutOfRange(403))
    case Array(items) =>
      var idx :- ArrayIndex(token);
      if idx >= |items| then Err(OutOfRange(401)) else Ok(Array(items[..idx] + items[idx + 1..]))
    case _ => Ok(parent)
  }

  /** Replaces the value at a pointer by the result of an edit, if both exist. */
  function EditAt(doc: Json, tokens: seq<string>, edit: Json -> Result<Json, Error>): Outcome {
    match GetChecked(doc, tokens)
    case Err(e) => Failed(doc, e)
    case Ok(parent) =>
      match edit(parent)
      case Err(e) => Failed(doc, e)
      case Ok(changed) => Outcome(SetAt(doc, tokens, changed), None)
  }

  function OperationAdd(doc: Json, tokens: seq<string>, v: Json): Outcome {
    if tokens == [] then Outcome(v, None)
    else if |tokens| > 1 && GetChecked(doc, [tokens[0]]).Err? then Failed(doc, GetChecked(doc, [tokens[0]]).error)
    else EditAt(doc, tokens[..|tokens| - 1], parent => AddChild(parent, tokens[|tokens| - 1], v))
  }

  function OperationRemove(doc: Json, tokens: seq<string>): Outcome {
    if tokens == [] then Failed(doc, OutOfRange(405))
    else EditAt(doc, tokens[..|tokens| - 1], parent => RemoveChild(parent, tokens[|tokens| - 1]))
  }

  // ---------- one element of the patch ----------

  /** get_value: a member of the operation, possibly required to be a string. */
  function Member(val: map<string, Json>, name: string): Result<Json, Error> {
    if name in val then Ok(val[name]) else Err(ParseError(105))
  }

  function StringMember(val: map<string, Json>, name: string): Result<string, Error> {
    var v :- Member(val, name);
    if v.Str? then Ok(v.s) else Err(ParseError(105))
  }

  function PointerMember(val: map<string, Json>, name: string): Result<seq<string>, Error> {
    var path :- StringMember(val, name);
    Split(path)
  }

  /** What an element of the patch asks for; `test` looks for its value only once the location is found. */
  datatype Instruction =
    | Add(ptr: seq<string>, value: Json)
    | Remove(ptr: seq<string>)
    | Replace(ptr: seq<string>, value: Json)
    | Move(from: seq<string>, ptr: seq<string>)
    | Copy(from: seq<string>, ptr: seq<string>)
    | Test(ptr: seq<string>, wanted: Result<Json, Error>)

  function Decode(element: Json): Result<Instruction, Error> {
    if !element.Object? then Err(ParseError(104))
    else
      var val := element.members;
      var op :- StringMember(val, "op");
      var ptr :- PointerMember(val, "path");
      match op
      case "add" => var v :- Member(val, "value"); Ok(Add(ptr, v))
      case "remove" => Ok(Remove(ptr))
      case "replace" => var v :- Member(val, "value"); Ok(Replace(ptr, v))
      case "move" => var from :- PointerMember(val, "from"); Ok(Move(from, ptr))
      case "copy" => var from :- PointerMember(val, "from"); Ok(Copy(from, ptr))
      case "test" => Ok(Test(ptr, Member(val, "value")))
      case _ => Err(ParseError(105))
  }

  /** A failed test; errors of the kind out_of_range count as one, other exceptions pass through. */
  function RunTest(doc: Json, ptr: seq<string>, wanted: Result<Json, Error>): Option<Error> {
    match GetChecked(doc, ptr)
    case Err(e) => Some(if e.OutOfRange? then OtherError(501) else e)
    case Ok(found) =>
      match wanted
      case Err(e) => Some(e)
      case Ok(w) => if Equal(found, w) then None else Some(OtherError(501))
  }

  function Execute(doc: Json, instr: Instruction): Outcome {
    match instr
    case Add(ptr, v) => OperationAdd(doc, ptr, v)
    case Remove(ptr) => OperationRemove(doc, ptr)
    case Replace(ptr, v) => EditAt(doc, ptr, _ => Ok(v))
    case Move(from, ptr) =>
      (match GetChecked(doc, from)
       case Err(e) => Failed(doc, e)
       case Ok(v) =>
         var removed := OperationRemove(doc, from);
         if removed.error.Some? then removed else OperationAdd(removed.doc, ptr, v))
    case Copy(from, ptr) =>
      (match GetChecked(doc, from)
       case Err(e) => Failed(doc, e)
       case Ok(v) => OperationAdd(doc, ptr, v))
    case Test(ptr, wanted) => Outcome(doc, RunTest(doc, ptr, wanted))
  }

  function ApplyOne(doc: Json, element: Json): Outcome {
    match Decode(element)
    case Err(e) => Failed(doc, e)
    case Ok(instr) => Execute(doc, instr)
  }

  /** The elements in turn, up to the first that fails; what was changed before stays changed. */
  function ApplyAll(doc: Json, elements: seq<Json>): Outcome
    decreases |elements|
  {
    if elements == [] then Outcome(doc, None)
    else
      var first := ApplyOne(doc, elements[0]);
      if first.error.Some? then first else ApplyAll(first.doc, elements[1..])
  }

  function Patched(doc: Json, patch: Json): Outcome {
    if patch.Array? then ApplyAll(doc, patch.items) else Failed(doc, ParseError(104))
  }

  // ---------- the document as it is changed in place ----------

  class Document {
    var value: Json

    constructor (value: Json)
      ensures this.value == value
    {
      this.value := value;
    }

    method Add(tokens: seq<string>, v: Json) returns (error: Option<Error>)
      modifies this
      ensures Outcome(value, error) == OperationAdd(old(value), tokens, v)
    {
      if tokens == [] {
        value := v;
        return None;
      }
      if |tokens| > 1 {
        var top := Follow(value, [tokens[0]]);
        if top.Err? {
          return Some(top.error);
        }
      }
      var last, ptr := tokens[|tokens| - 1], tokens[..|tokens| - 1];
      var parent := Follow(value, ptr);
      if parent.Err? {
        return Some(parent.error);
      }
      var changed := AddChild(parent.value, last, v);
      if changed.Err? {
        return Some(changed.error);
      }
      value := SetAt(value, ptr, changed.value);
      return None;
    }

    method Remove(tokens: seq<string>) returns (error: Option<Error>)
      modifies this
      ensures Outcome(value, error) == OperationRemove(old(value), tokens)
    {
      if tokens == [] {
        return Some(OutOfRange(405));
      }
      var last, ptr := tokens[|tokens| - 1], tokens[..|tokens| - 1];
      var parent := Follow(value, ptr);
      if parent.Err? {
        return Some(parent.error);
      }
      var changed := RemoveChild(parent.value, last);
      if changed.Err? {
        return Some(changed.error);
      }
      value := SetAt(value, ptr, changed.value);
      return None;
    }

    /** One operation of the patch. */
    method Apply(element: Json) returns (error: Option<Error>)
      modifies this
      ensures Outcome(value, error) == ApplyOne(old(value), element)
    {
      hide OperationAdd, OperationRemove, Decode, RunTest;
      var instr := Decode(element);
      if instr.Err? {
        return Some(instr.error);
      }
      match instr.value {
        case Add(ptr, v) => error := Add(ptr, v);
        case Remove(ptr) => error := Remove(ptr);
        case Replace(ptr, v) =>
          var found := Follow(value, ptr);
          if found.Err? {
            return Some(found.error);
          }
          value := SetAt(value, ptr, v);
          error := None;
        case Move(from, ptr) =>
          var v := Follow(value, from);
          if v.Err? {
            return Some(v.error);
          }
          error := Remove(from);
          if error.None? {
            error := Add(ptr, v.value);
          }
        case Copy(from, ptr) =>
          var v := Follow(value, from);
          if v.Err? {
            return Some(v.error);
          }
          error := Add(ptr, v.value);
        case Test(ptr, wanted) => error := RunTest(value, ptr, wanted);
      }
    }

    /** patch_inplace: the loop over the operations, each changing the document. */
    method PatchInPlace(patch: Json) returns (error: Option<Error>)
      modifies this
      ensures Outcome(value, error) == Patched(old(value), patch)
    {
      hide ApplyOne;
      if !patch.Array? {
        return Some(ParseError(104));
      }
      for i := 0 to |patch.items|
        invariant ApplyAll(value, patch.items[i..]) == ApplyAll(old(value), patch.items)
      {
        assert patch.items[i..][0] == patch.items[i] && patch.items[i..][1..] == patch.items[i + 1..];
        error := Apply(patch.items[i]);
        if error.Some? {
          return;
        }
      }
      return None;
    }
  }

  // ---------- errors ----------

  /** Removing a value that is there succeeds, and changes the document. */
  lemma RemoveChanges(doc: Json, tokens: seq<string>)
    requires tokens != [] && GetChecked(doc, tokens).Ok?
    ensures OperationRemove(doc, tokens).error.None? && OperationRemove(doc, tokens).doc != doc
  {
    var n := |tokens| - 1;
    ParentOf(doc, tokens);
    var parent := GetChecked(doc, tokens[..n]).value;
    ChildRemoved(parent, tokens[n]);
    hide Child, RemoveChild, GetChecked, SetAt;
    SetAtLaws(doc, tokens[..n], RemoveChild(parent, tokens[n]).value, parent);
  }

  /** A pointer resolves when its parent does and has such a child. */
  lemma {:induction false} ParentOf(doc: Json, tokens: seq<string>)
    requires tokens != []
    ensures var n := |tokens| - 1; var parent := GetChecked(doc, tokens[..n]);
            if parent.Ok? then GetChecked(doc, tokens) == Child(parent.value, tokens[n]) else GetChecked(doc, tokens).Err?
    decreases |tokens|
  {
    hide Child;
    var n := |tokens| - 1;
    if n == 0 {
      assert tokens[1..] == [];
    } else {
      assert tokens[1..][..n - 1] == tokens[..n][1..];
      if Child(doc, tokens[0]).Ok? {
        ParentOf(Child(doc, tokens[0]).value, tokens[1..]);
      }
    }
  }

  lemma ChildRemoved(parent: Json, token: string)
    requires Child(parent, token).Ok?
    ensures RemoveChild(parent, token).Ok? && RemoveChild(parent, token).value != parent
  {
    match parent
    case Object(m) => assert token in m && token !in m - {token};
    case Array(items) =>
      var idx := ArrayIndex(token).value;
      assert |items[..idx] + items[idx + 1..]| < |items|;
  }

  /** The guards of the add operation: no parent, a parent that is a string, number or boolean, or no such place in an array. */
  predicate AddRejected(doc: Json, tokens: seq<string>) {
    && tokens != []
    && var parent, last := GetChecked(doc, tokens[..|tokens| - 1]), tokens[|tokens| - 1];
       parent.Err? || PlaceRejected(parent.value, last)
  }

  predicate PlaceRejected(parent: Json, token: string) {
    || (Primitive(parent) && !parent.Null?)
    || (parent.Array? && token != "-" && (ArrayIndex(token).Err? || ArrayIndex(token).value > |parent.items|))
  }

  lemma AddChildFails(parent: Json, token: string, v: Json)
    ensures AddChild(parent, token, v).Err? <==> PlaceRejected(parent, token)
  {
    hide ArrayIndex;
  }

  /** The add operation fails exactly when its guards say so; the check of the pointer's first token adds nothing. */
  lemma AddFails(doc: Json, tokens: seq<string>, v: Json)
    ensures OperationAdd(doc, tokens, v).error.Some? <==> AddRejected(doc, tokens)
    ensures OperationAdd(doc, tokens, v).error.Some? ==> OperationAdd(doc, tokens, v).doc == doc
  {
    hide AddChild, PlaceRejected, GetChecked, SetAt;
    if tokens != [] && GetChecked(doc, tokens[..|tokens| - 1]).Ok? {
      var ptr, last := tokens[..|tokens| - 1], tokens[|tokens| - 1];
      AddChildFails(GetChecked(doc, ptr).value, last, v);
      if |tokens| > 1 {
        FirstToken(doc, ptr);
      }
    }
  }

  lemma FirstToken(doc: Json, ptr: seq<string>)
    requires ptr != [] && GetChecked(doc, ptr).Ok?
    ensures GetChecked(doc, [ptr[0]]).Ok?
  {
    assert [ptr[0]][1..] == [];
    assert Child(doc, ptr[0]).Ok?;
  }

  /**
   An operation that throws has changed the document exactly when it is a move whose source was there, below
   the root, and whose target is rejected by the document without the source; that document is what is left.
   */
  lemma FailureKeepsDocument(doc: Json, element: Json)
    ensures var r, instr := ApplyOne(doc, element), Decode(element);
            r.error.Some? && r.doc != doc <==>
              && instr.Ok? && instr.value.Move?
              && instr.value.from != [] && GetChecked(doc, instr.value.from).Ok?
              && AddRejected(OperationRemove(doc, instr.value.from).doc, instr.value.ptr)
    ensures var r, instr := ApplyOne(doc, element), Decode(element);
            r.error.Some? && r.doc != doc ==> r.doc == OperationRemove(doc, instr.value.from).doc
  {
    hide Decode, GetChecked, AddRejected, OperationAdd, AddChild, RemoveChild;
    var instr := Decode(element);
    if instr.Ok? {
      match instr.value
      case Add(ptr, v) => AddFails(doc, ptr, v);
      case Copy(from, ptr) =>
        if GetChecked(doc, from).Ok? {
          AddFails(doc, ptr, GetChecked(doc, from).value);
        }
      case Move(from, ptr) => MoveFails(doc, from, ptr);
      case _ =>
    }
  }

  lemma MoveFails(doc: Json, from: seq<string>, ptr: seq<string>)
    ensures var r, removed := Execute(doc, Move(from, ptr)), OperationRemove(doc, from).doc;
            && (r.error.Some? && r.doc != doc <==> from != [] && GetChecked(doc, from).Ok? && AddRejected(removed, ptr))
            && (r.error.Some? && r.doc != doc ==> r.doc == removed)
  {
    hide GetChecked, AddRejected, OperationAdd, EditAt, RemoveChild;
    if from != [] && GetChecked(doc, from).Ok? {
      hide OperationRemove;
      RemoveChanges(doc, from);
      AddFails(OperationRemove(doc, from).doc, ptr, GetChecked(doc, from).value);
    }
  }

  /** {"a": 1} after moving /a to /a/b: the target is rejected, and the value is gone. */
  lemma RejectedMoveLosesSource()
    ensures var doc, move := Object(map["a" := Int(1)]), Object(map["op" := Str("move"), "from" := Str("/a"), "path" := Str("/a/b")]);
            ApplyOne(doc, move) == Outcome(Object(map[]), Some(OutOfRange(403)))
  {
    hide Decode;
    DecodesMove();
    var doc := Object(map["a" := Int(1)]);
    assert ["a"][..0] == [] && ["a", "b"][..1] == ["a"] && ["a"][1..] == [];
    assert map["a" := Int(1)] - {"a"} == map[];
    assert GetChecked(doc, ["a"]) == Ok(Int(1));
    assert OperationRemove(doc, ["a"]) == Outcome(Object(map[]), None);
    assert GetChecked(Object(map[]), ["a"]) == Err(OutOfRange(403));
  }

  lemma DecodesMove()
    ensures Decode(Object(map["op" := Str("move"), "from" := Str("/a"), "path" := Str("/a/b")])) == Ok(Move(["a"], ["a", "b"]))
  {
    hide Split;
    ShortPointers();
  }

  lemma ShortPointers()
    ensures Split("/a") == Ok(["a"]) && Split("/a/b") == Ok(["a", "b"])
  {
    hide Split, Escape, EscapeChars;
    PlainToken('a');
    PlainToken('b');
    assert ["a", "b"][..1] == ["a"] && ["a"][..0] == [];
    assert ToString([]) == "" && ToString(["a"]) == "/a" && ToString(["a", "b"]) == "/a/b";
    SplitToString(["a"]);
    SplitToString(["a", "b"]);
  }

  lemma PlainToken(c: char)
    requires c != '~' && c != '/'
    ensures Escape([c]) == [c]
  {
    hide Escape;
    EscapePasses([c]);
    assert [c][1..] == [];
  }

  /** A remove succeeds without removing anything exactly below a null, a string, a number or a boolean. */
  lemma RemoveIgnoresPrimitives(doc: Json, tokens: seq<string>)
    requires tokens != []
    ensures var r, parent := OperationRemove(doc, tokens), GetChecked(doc, tokens[..|tokens| - 1]);
            && (r.error.None? && GetChecked(doc, tokens).Err? <==> parent.Ok? && Primitive(parent.value))
            && (parent.Ok? && Primitive(parent.value) ==> r.doc == doc)
  {
    var ptr, last := tokens[..|tokens| - 1], tokens[|tokens| - 1];
    ParentOf(doc, tokens);
    if GetChecked(doc, ptr).Ok? {
      var parent := GetChecked(doc, ptr).value;
      hide GetChecked, SetAt;
      ChildOrRemoved(parent, last);
      SetAtLaws(doc, ptr, parent, parent);
    }
  }

  lemma ChildOrRemoved(parent: Json, token: string)
    ensures RemoveChild(parent, token).Ok? && Child(parent, token).Err? <==> Primitive(parent)
    ensures Primitive(parent) ==> RemoveChild(parent, token) == Ok(parent)
  {
    assert ArrayIndex("-").Err?;
  }

  /** Removing /a/b from {"a": 1} is no error and changes nothing. */
  lemma RemoveBelowNumber()
    ensures var doc := Object(map["a" := Int(1)]); OperationRemove(doc, ["a", "b"]) == Outcome(doc, None)
  {
    assert ["a", "b"][..1] == ["a"] && ["a"][1..] == [];
    RemoveIgnoresPrimitives(Object(map["a" := Int(1)]), ["a", "b"]);
  }

  /** The assertion in the add operation fails exactly when the parent exists and is a number, a string or a boolean. */
  lemma AddAssertsBelowPrimitives(doc: Json, tokens: seq<string>, v: Json)
    requires tokens != []
    ensures var parent := GetChecked(doc, tokens[..|tokens| - 1]);
            OperationAdd(doc, tokens, v).error == Some(AssertionFailed) <==>
            parent.Ok? && Primitive(parent.value) && !parent.value.Null?
  {
    NoAssertionInAccess(doc, tokens[..|tokens| - 1]);
    if |tokens| > 1 {
      NoAssertionInAccess(doc, [tokens[0]]);
      assert tokens[..|tokens| - 1][0] == tokens[0];
      assert [tokens[0]][1..] == [];
    }
  }

  /** Adding /a/b to {"a": 1} runs into the assertion. */
  lemma AddBelowNumberAsserts(v: Json)
    ensures OperationAdd(Object(map["a" := Int(1)]), ["a", "b"], v).error == Some(AssertionFailed)
  {
    assert ["a", "b"][..1] == ["a"] && ["a"][1..] == [];
    AddAssertsBelowPrimitives(Object(map["a" := Int(1)]), ["a", "b"], v);
  }

  lemma {:induction false} NoAssertionInAccess(doc: Json, tokens: seq<string>)
    ensures GetChecked(doc, tokens).Err? ==> GetChecked(doc, tokens).error != AssertionFailed
  {
    if tokens != [] && Child(doc, tokens[0]).Ok? {
      NoAssertionInAccess(Child(doc, tokens[0]).value, tokens[1..]);
    }
  }

  lemma {:induction false} ApplyAppend(doc: Json, a: seq<Json>, b: seq<Json>)
    ensures ApplyAll(doc, a + b) ==
            if ApplyAll(doc, a).error.Some? then ApplyAll(doc, a) else ApplyAll(ApplyAll(doc, a).doc, b)
    decreases |a|
  {
    hide ApplyOne;
    if a == [] {
      assert a + b == b;
    } else {
      assert (a + b)[1..] == a[1..] + b;
      if ApplyOne(doc, a[0]).error.None? {
        ApplyAppend(ApplyOne(doc, a[0]).doc, a[1..], b);
      }
    }
  }
}
