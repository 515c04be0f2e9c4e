/** flatten and unflatten: a value as a map from pointers to primitive values, and back. */
module JsonFlatten {
  import opened Wrappers
  import opened Bytes
  import opened StringEscape
  import opened Json
  import opened JsonPointer

  // ---------- flatten ----------

  /** What flatten adds to the result below a reference string; an empty container becomes null. */
  function FlattenInto(path: string, j: Json, result: map<string, Json>): map<string, Json>
    decreases j, 1, 0
  {
    match j
    case Array(items) => if items == [] then result[path := Null] else FlattenItems(path, j, 0, result)
    case Object(m) => if m == map[] then result[path := Null] else FlattenMembers(path, j, SortedKeys(m.Keys), result)
    case _ => result[path := j]
  }

  function FlattenItems(path: string, j: Json, i: nat, result: map<string, Json>): map<string, Json>
    requires j.Array?
    decreases j, 0, |j.items| - i
  {
    if i >= |j.items| then result
    else FlattenItems(path, j, i + 1, FlattenInto(BelowIndex(path, i), j.items[i], result))
  }

  function FlattenMembers(path: string, j: Json, keys: seq<string>, result: map<string, Json>): map<string, Json>
    requires j.Object? && forall k <- keys :: k in j.members
    decreases j, 0, |keys|
  {
    if keys == [] then result
    else
      assert keys[0] in keys;
      FlattenMembers(path, j, keys[1..], FlattenInto(Below(path, keys[0]), j.members[keys[0]], result))
  }

  function Flatten(j: Json): Json {
    Object(FlattenInto("", j, map[]))
  }

  // ---------- unflatten ----------

  /** operator[] on an array: filled up with nulls as far as needed. */
  function Padded(items: seq<Json>, idx: nat): (r: seq<Json>)
    ensures |r| == if idx < |items| then |items| else idx + 1
  {
    if idx < |items| then items else items + seq(idx + 1 - |items|, _ => Null)
  }

  function At(items: seq<Json>, i: nat): Json {
    if i < |items| then items[i] else Null
  }

  /** get_and_create, and the assignment to the reference that it returns. */
  function CreateAt(j: Json, tokens: seq<string>, v: Json): Result<Json, Error>
    decreases |tokens|
  {
    if tokens == [] then Ok(v)
    else
      var token, rest := tokens[0], tokens[1..];
      match j
      case Null =>
        var child :- CreateAt(Null, rest, v);
        Ok(if token == "0" then Array([child]) else Object(map[token := child]))
      case Object(m) =>
        var child :- CreateAt(Lookup(m, token), rest, v);
        Ok(Object(m[token := child]))
      case Array(items) =>
        var idx :- ArrayIndex(token);
        var child :- CreateAt(At(items, idx), rest, v);
        Ok(Array(Padded(items, idx)[idx := child]))
      case _ => Err(TypeError(313))
  }

  function UnflattenFrom(result: Json, keys: seq<string>, m: map<string, Json>): Result<Json, Error>
    requires forall k <- keys :: k in m
    decreases |keys|
  {
    if keys == [] then Ok(result)
    else
      assert keys[0] in keys;
      if !Primitive(m[keys[0]]) then Err(TypeError(315))
      else
        var tokens :- Split(keys[0]);
        var next :- CreateAt(result, tokens, m[keys[0]]);
        UnflattenFrom(next, keys[1..], m)
  }

  function Unflatten(j: Json): Result<Json, Error> {
    if !j.Object? then Err(TypeError(314)) else UnflattenFrom(Null, SortedKeys(j.members.Keys), j.members)
  }

  /** No value can be put below a string, a number or a boolean, nor into an array at what is no index. */
  predicate Blocks(j: Json, token: string) {
    (Primitive(j) && !j.Null?) || (j.Array? && ArrayIndex(token).Err?)
  }

  /** A value that was put in is read back there, and values elsewhere are still there. */
  lemma {:induction false} CreateAtReads(j: Json, tokens: seq<string>, v: Json, q: seq<string>)
    requires CreateAt(j, tokens, v).Ok?
    ensures GetChecked(CreateAt(j, tokens, v).value, tokens) == Ok(v)
    ensures Diverge(tokens, q) && GetChecked(j, q).Ok? ==> GetChecked(CreateAt(j, tokens, v).value, q) == GetChecked(j, q)
    decreases |tokens|
  {
    if tokens != [] {
      var token, rest := tokens[0], tokens[1..];
      var before, below := ChildOrNull(j, token), if q == [] then [] else q[1..];
      hide Child, GetChecked, CreateAt;
      CreateAtStep(j, tokens, v);
      CreateAtReads(before, rest, v, below);
      var child := CreateAt(before, rest, v).value;
      var r := CreateAt(j, tokens, v).value;
      GetCheckedStep(r, tokens);
      if Diverge(tokens, q) && GetChecked(j, q).Ok? {
        GetCheckedStep(r, q);
        GetCheckedStep(j, q);
        if q[0] != token {
          ChildKept(j, token, child, q[0]);
        }
      }
    } else {
      assert GetChecked(v, []) == Ok(v);
    }
  }

  /** Where creating goes on: the child that is there, or a null. */
  function ChildOrNull(j: Json, token: string): Json {
    if Child(j, token).Ok? then Child(j, token).value else Null
  }

  /** One value with a child put in, as get_and_create leaves it. */
  function WithChild(j: Json, token: string, child: Json): Json
    requires !Blocks(j, token)
  {
    match j
    case Null => if token == "0" then Array([child]) else Object(map[token := child])
    case Object(m) => Object(m[token := child])
    case Array(items) => var idx := ArrayIndex(token).value; Array(Padded(items, idx)[idx := child])
  }

  lemma CreateAtStep(j: Json, tokens: seq<string>, v: Json)
    requires tokens != [] && CreateAt(j, tokens, v).Ok?
    ensures !Blocks(j, tokens[0])
    ensures var before := ChildOrNull(j, tokens[0]);
            CreateAt(before, tokens[1..], v).Ok?
            && CreateAt(j, tokens, v).value == WithChild(j, tokens[0], CreateAt(before, tokens[1..], v).value)
    ensures Child(CreateAt(j, tokens, v).value, tokens[0]) == CreateAt(ChildOrNull(j, tokens[0]), tokens[1..], v)
  {
    hide ArrayIndex, IndexToken;
    NoIndex();
    if j.Array? {
      ArrayIndexAccepts(tokens[0], ArrayIndex(tokens[0]).value);
    }
    ZeroToken();
  }

  lemma ChildKept(j: Json, token: string, child: Json, other: string)
    requires !Blocks(j, token) && token != other && Child(j, other).Ok?
    ensures Child(WithChild(j, token, child), other) == Child(j, other)
  {
    hide ArrayIndex, IndexToken;
    if j.Array? {
      ArrayIndexAccepts(token, ArrayIndex(token).value);
      ArrayIndexAccepts(other, ArrayIndex(other).value);
    }
  }

  lemma GetCheckedStep(j: Json, q: seq<string>)
    requires q != []
    ensures GetChecked(j, q) == if Child(j, q[0]).Ok? then GetChecked(Child(j, q[0]).value, q[1..]) else Err(Child(j, q[0]).error)
  {
    hide Child;
  }

  lemma NoIndex()
    ensures ArrayIndex("-").Err?
  {
  }

  /** Something that is already there blocks the way. */
  predicate Blocked(j: Json, tokens: seq<string>) {
    && tokens != []
    && (Blocks(j, tokens[0]) || (Child(j, tokens[0]).Ok? && Blocked(Child(j, tokens[0]).value, tokens[1..])))
  }

  /** Creating fails exactly when something on the way blocks it. */
  lemma {:induction false} CreateAtFails(j: Json, tokens: seq<string>, v: Json)
    ensures CreateAt(j, tokens, v).Err? <==> Blocked(j, tokens)
    decreases |tokens|
  {
    if tokens != [] {
      var token, rest := tokens[0], tokens[1..];
      hide ArrayIndex;
      match j {
        case Null => CreateAtFails(Null, rest, v);
        case Object(m) => CreateAtFails(Lookup(m, token), rest, v);
        case Array(items) =>
          assert ArrayIndex("-").Err? by { NoIndex(); }
          if ArrayIndex(token).Ok? {
            CreateAtFails(At(items, ArrayIndex(token).value), rest, v);
          }
        case _ =>
      }
    }
  }

  /** Only a value below a string, a number or a boolean fails with 313; a bad index fails as array_index does. */
  lemma {:induction false} CreateAtErrors(j: Json, tokens: seq<string>, v: Json)
    requires CreateAt(j, tokens, v).Err?
    ensures var e := CreateAt(j, tokens, v).error;
            e == TypeError(313) || exists token <- tokens :: ArrayIndex(token) == Err(e)
    decreases |tokens|
  {
    if tokens != [] {
      var token, rest := tokens[0], tokens[1..];
      hide ArrayIndex;
      assert token in tokens && forall t <- rest :: t in tokens;
      match j {
        case Null => CreateAtErrors(Null, rest, v);
        case Object(m) => CreateAtErrors(Lookup(m, token), rest, v);
        case Array(items) =>
          if ArrayIndex(token).Ok? {
            CreateAtErrors(At(items, ArrayIndex(token).value), rest, v);
          }
        case _ =>
      }
    }
  }

  // ---------- building a value from its leaves ----------

  /** A primitive value and where it goes. */
  datatype Entry = Entry(path: seq<string>, value: Json)

  function Run(j: Json, es: seq<Entry>): Result<Json, Error>
    decreases |es|
  {
    if es == [] then Ok(j)
    else
      var next :- CreateAt(j, es[0].path, es[0].value);
      Run(next, es[1..])
  }

  /** The entries below one token. */
  function Sub(es: seq<Entry>, token: string): seq<Entry>
    decreases |es|
  {
    if es == [] then []
    else if es[0].path != [] && es[0].path[0] == token then [Entry(es[0].path[1..], es[0].value)] + Sub(es[1..], token)
    else Sub(es[1..], token)
  }

  predicate AllBelow(es: seq<Entry>) {
    forall e <- es :: e.path != []
  }

  /** Member k holds what its own entries build. */
  predicate MemberBuilt(m: map<string, Json>, es: seq<Entry>, r: map<string, Json>, k: string) {
    && (k in r <==> k in m || Sub(es, k) != [])
    && (k in r ==> Run(Lookup(m, k), Sub(es, k)) == Ok(r[k]))
  }

  /** Building an object is building its members independently. */
  ghost predicate ObjectBuilt(m: map<string, Json>, es: seq<Entry>, r: Result<Json, Error>) {
    if r.Err? then exists k :: Run(Lookup(m, k), Sub(es, k)).Err?
    else r.value.Object? && forall k :: MemberBuilt(m, es, r.value.members, k)
  }

  lemma {:induction false} RunObject(m: map<string, Json>, es: seq<Entry>)
    requires AllBelow(es)
    ensures ObjectBuilt(m, es, Run(Object(m), es))
    decreases |es|
  {
    if es != [] {
      var token := es[0].path[0];
      var child := CreateAt(Lookup(m, token), es[0].path[1..], es[0].value);
      FirstOfSub(es, Lookup(m, token));
      CreateInObject(m, es[0].path, es[0].value);
      if child.Err? {
        assert Run(Lookup(m, token), Sub(es, token)).Err?;
      } else {
        var m' := m[token := child.value];
        RunObject(m', es[1..]);
        var r := Run(Object(m'), es[1..]);
        assert Run(Object(m), es) == r;
        hide CreateAt, Run;
        forall k
          ensures Run(Lookup(m, k), Sub(es, k)) == Run(Lookup(m', k), Sub(es[1..], k))
          ensures r.Ok? ==> MemberBuilt(m, es, r.value.members, k)
        {
          assert r.Ok? ==> MemberBuilt(m', es[1..], r.value.members, k);
        }
        if r.Err? {
          var k :| Run(Lookup(m', k), Sub(es[1..], k)).Err?;
          assert Run(Lookup(m, k), Sub(es, k)).Err?;
        }
      }
    } else {
      forall k ensures MemberBuilt(m, es, m, k) {
      }
    }
  }

  lemma CreateInObject(m: map<string, Json>, tokens: seq<string>, v: Json)
    requires tokens != []
    ensures var child := CreateAt(Lookup(m, tokens[0]), tokens[1..], v);
            CreateAt(Object(m), tokens, v) == if child.Err? then child else Ok(Object(m[tokens[0] := child.value]))
  {
  }

  lemma FirstOfSub(es: seq<Entry>, j: Json)
    requires es != [] && es[0].path != []
    ensures var token, first := es[0].path[0], CreateAt(j, es[0].path[1..], es[0].value);
            Run(j, Sub(es, token)) == if first.Err? then first else Run(first.value, Sub(es[1..], token))
  {
    var token := es[0].path[0];
    assert Sub(es, token)[1..] == Sub(es[1..], token);
  }

  // ---------- arrays ----------

  predicate IsIndexBelow(token: string, n: nat) {
    var i := ArrayIndex(token);
    i.Ok? && i.value < n
  }

  predicate IndexedBelow(es: seq<Entry>, n: nat) {
    forall e <- es :: e.path != [] && IsIndexBelow(e.path[0], n)
  }

  /** Element i holds what its own entries build. */
  predicate ItemBuilt(items: seq<Json>, es: seq<Entry>, r: seq<Json>, i: nat) {
    && (i < |items| || Sub(es, IndexToken(i)) != [] ==> i < |r|)
    && (i < |r| ==> Run(At(items, i), Sub(es, IndexToken(i))) == Ok(r[i]))
  }

  /** Building an array is building its elements independently, in whatever order they are filled. */
  ghost predicate ArrayBuilt(items: seq<Json>, es: seq<Entry>, n: nat, r: Result<Json, Error>) {
    if r.Err? then exists i: nat :: Run(At(items, i), Sub(es, IndexToken(i))).Err?
    else
      && r.value.Array? && |r.value.items| <= (if n > |items| then n else |items|)
      && forall i: nat :: ItemBuilt(items, es, r.value.items, i)
  }

  lemma IndexTokensDiffer(i: nat, k: nat)
    requires IndexToken(i) == IndexToken(k) && i < SIZE_MAX
    ensures i == k
  {
    ArrayIndexAccepts(IndexToken(i), i);
    ArrayIndexAccepts(IndexToken(k), k);
  }

  lemma CreateInArray(items: seq<Json>, tokens: seq<string>, v: Json, idx: nat)
    requires tokens != [] && ArrayIndex(tokens[0]) == Ok(idx)
    ensures var child := CreateAt(At(items, idx), tokens[1..], v);
            CreateAt(Array(items), tokens, v) == if child.Err? then child else Ok(Array(Padded(items, idx)[idx := child.value]))
  {
  }

  lemma NoItemsBuilt(items: seq<Json>, i: nat)
    ensures ItemBuilt(items, [], items, i)
  {
  }

  lemma {:induction false} RunArray(items: seq<Json>, es: seq<Entry>, n: nat)
    requires IndexedBelow(es, n)
    ensures ArrayBuilt(items, es, n, Run(Array(items), es))
    decreases |es|
  {
    if es != [] {
      assert es[0] in es;
      var idx := ArrayIndex(es[0].path[0]).value;
      var token := IndexToken(idx);
      ArrayIndexAccepts(es[0].path[0], idx);
      var child := CreateAt(At(items, idx), es[0].path[1..], es[0].value);
      FirstOfSub(es, At(items, idx));
      CreateInArray(items, es[0].path, es[0].value, idx);
      if child.Err? {
        assert Run(At(items, idx), Sub(es, token)).Err?;
      } else {
        var items' := Padded(items, idx)[idx := child.value];
        assert forall e <- es[1..] :: e in es;
        RunArray(items', es[1..], n);
        assert Run(Array(items), es) == Run(Array(items'), es[1..]);
        RunArrayStep(items, items', es, n, idx, child.value, Run(Array(items'), es[1..]));
      }
    } else {
      forall i: nat ensures ItemBuilt(items, es, items, i) {
        NoItemsBuilt(items, i);
      }
    }
  }

  lemma RunArrayStep(items: seq<Json>, items': seq<Json>, es: seq<Entry>, n: nat, idx: nat, child: Json, r: Result<Json, Error>)
    requires es != [] && es[0].path != [] && es[0].path[0] == IndexToken(idx) && idx < n && idx < SIZE_MAX
    requires items' == Padded(items, idx)[idx := child]
    requires Run(At(items, idx), Sub(es, IndexToken(idx))) == Run(child, Sub(es[1..], IndexToken(idx)))
    requires ArrayBuilt(items', es[1..], n, r)
    ensures ArrayBuilt(items, es, n, r)
  {
    hide CreateAt, Run, IndexToken;
    forall i: nat
      ensures Run(At(items, i), Sub(es, IndexToken(i))) == Run(At(items', i), Sub(es[1..], IndexToken(i)))
      ensures r.Ok? ==> ItemBuilt(items, es, r.value.items, i)
    {
      if IndexToken(i) == IndexToken(idx) {
        IndexTokensDiffer(idx, i);
      }
      assert r.Ok? ==> ItemBuilt(items', es[1..], r.value.items, i);
    }
    if r.Err? {
      var i: nat :| Run(At(items', i), Sub(es[1..], IndexToken(i))).Err?;
      assert Run(At(items, i), Sub(es, IndexToken(i))).Err?;
    } else {
      assert ItemBuilt(items', es[1..], r.value.items, idx);
    }
  }

  /** An array stays an array. */
  lemma {:induction false} RunKeepsArray(items: seq<Json>, es: seq<Entry>)
    requires AllBelow(es)
    ensures Run(Array(items), es).Ok? ==> Run(Array(items), es).value.Array?
    decreases |es|
  {
    if es != [] {
      assert forall e <- es[1..] :: e in es;
      var next := CreateAt(Array(items), es[0].path, es[0].value);
      if next.Ok? {
        RunKeepsArray(next.value.items, es[1..]);
      }
    }
  }

  /** The first entry decides whether a null becomes an array or an object. */
  lemma RunFromNull(es: seq<Entry>)
    requires es != [] && es[0].path != []
    ensures Run(Null, es) == Run(if es[0].path[0] == "0" then Array([]) else Object(map[]), es)
  {
    CreateInNull(es[0].path, es[0].value);
    hide CreateAt;
  }

  lemma CreateInNull(tokens: seq<string>, v: Json)
    requires tokens != []
    ensures CreateAt(Null, tokens, v) == CreateAt(if tokens[0] == "0" then Array([]) else Object(map[]), tokens, v)
  {
    var child := CreateAt(Null, tokens[1..], v);
    if tokens[0] == "0" {
      ZeroToken();
      CreateInArray([], tokens, v, 0);
      assert child.Ok? ==> Padded([], 0)[0 := child.value] == [child.value];
    } else {
      CreateInObject(map[], tokens, v);
    }
  }

  lemma ZeroToken()
    ensures IndexToken(0) == "0" && ArrayIndex("0") == Ok(0)
  {
    ArrayIndexAccepts("0", 0);
    assert IndexToken(0) == "0";
  }

  // ---------- the leaves of a value ----------

  /** What flatten stores for the value at a path, if it is a leaf. */
  function LeafAt(j: Json, path: seq<string>): Option<Json>
    decreases |path|
  {
    if path == [] then
      if Primitive(j) then Some(j)
      else if j == Array([]) || j == Object(map[]) then Some(Null)
      else None
    else if Child(j, path[0]).Ok? then LeafAt(Child(j, path[0]).value, path[1..])
    else None
  }

  /** Entries in the order of their printed paths. */
  predicate InOrder(es: seq<Entry>)
    decreases |es|
  {
    es == [] || ((forall e <- es[1..] :: Less(Printed(es[0].path), Printed(e.path))) && InOrder(es[1..]))
  }

  ghost predicate Holds(es: seq<Entry>, path: seq<string>, v: Json) {
    Entry(path, v) in es
  }

  /** The entries are the leaves of j, in order. */
  ghost predicate LeavesOf(j: Json, es: seq<Entry>) {
    && InOrder(es)
    && forall path, v :: Holds(es, path, v) <==> LeafAt(j, path) == Some(v)
  }

  lemma {:induction false} SubMember(es: seq<Entry>, token: string, path: seq<string>, v: Json)
    ensures Holds(Sub(es, token), path, v) <==> Holds(es, [token] + path, v)
    decreases |es|
  {
    if es != [] {
      SubMember(es[1..], token, path, v);
      var e := es[0];
      assert es == [e] + es[1..];
      if e.path != [] {
        assert e.path == [e.path[0]] + e.path[1..];
        assert ([token] + path)[1..] == path;
      }
    }
  }

  lemma {:induction false} SubInOrder(es: seq<Entry>, token: string)
    requires InOrder(es)
    ensures InOrder(Sub(es, token))
    decreases |es|
  {
    if es != [] {
      SubInOrder(es[1..], token);
      var e := es[0];
      if e.path != [] && e.path[0] == token {
        var rest := Sub(es[1..], token);
        forall x | x in rest
          ensures Less(Printed(e.path[1..]), Printed(x.path))
        {
          SubMember(es[1..], token, x.path, x.value);
          assert Holds(rest, x.path, x.value);
          assert Entry([token] + x.path, x.value) in es[1..];
          SameHeadOrder(token, e.path, [token] + x.path);
        }
        assert Sub(es, token)[1..] == rest;
      }
    }
  }

  lemma SameHeadOrder(token: string, a: seq<string>, b: seq<string>)
    requires a != [] && b != [] && a[0] == b[0] == token && Less(Printed(a), Printed(b))
    ensures Less(Printed(a[1..]), Printed(b[1..]))
  {
    hide Escape;
    LessBehindPrefix("/" + Escape(token), Printed(a[1..]), Printed(b[1..]));
  }

  /** The entries below a token are the leaves of that child. */
  lemma SubLeaves(j: Json, es: seq<Entry>, token: string)
    requires LeavesOf(j, es) && Child(j, token).Ok?
    ensures LeavesOf(Child(j, token).value, Sub(es, token))
  {
    hide Child, InOrder, Sub, Holds;
    SubInOrder(es, token);
    forall path, v
      ensures Holds(Sub(es, token), path, v) <==> LeafAt(Child(j, token).value, path) == Some(v)
    {
      SubMember(es, token, path, v);
      assert ([token] + path)[1..] == path;
      assert Holds(es, [token] + path, v) <==> LeafAt(j, [token] + path) == Some(v);
    }
  }

  /** Every value has a leaf. */
  lemma {:induction false} HasLeaf(j: Json) returns (path: seq<string>)
    requires Indexable(j)
    ensures LeafAt(j, path).Some?
    decreases j
  {
    path := [];
    match j
    case Array(items) =>
      if items != [] {
        var below := HasLeaf(items[0]);
        ZeroToken();
        path := ["0"] + below;
        assert path[1..] == below;
      }
    case Object(m) =>
      if m != map[] {
        var k :| k in m;
        var below := HasLeaf(m[k]);
        path := [k] + below;
        assert path[1..] == below;
      }
    case _ =>
  }

  // ---------- which leaf comes first ----------

  predicate Nonempty(j: Json) {
    (j.Array? && j.items != []) || (j.Object? && j.members != map[])
  }

  /** The leaves of member k are visited before those of a member "0" with this value. */
  predicate VisitedBefore(k: string, zero: Json) {
    k == "" || k[0] < '/' || (Nonempty(zero) && |k| >= 2 && k[0] == '0' && k[1] < '/')
  }

  predicate ZeroFirst(m: map<string, Json>) {
    "0" in m && forall k :: k in m && k != "0" ==> !VisitedBefore(k, m["0"])
  }

  /** No container is empty, and no object's first visited member is "0". */
  predicate Flattenable(j: Json)
    decreases j
  {
    match j
    case Array(items) => items != [] && forall i :: 0 <= i < |items| ==> Flattenable(items[i])
    case Object(m) => m != map[] && !ZeroFirst(m) && forall k :: k in m ==> Flattenable(m[k])
    case _ => true
  }

  lemma LessByHead(a: string, b: string)
    requires a != "" && b != "" && a[0] != b[0]
    ensures Less(a, b) <==> a[0] < b[0]
  {
  }

  /** Where an escaped token starts, relative to a slash and to the digit 0. */
  lemma EscapedHead(k: string)
    requires k != ""
    ensures var e := EscapeChars(k);
            && e != "" && e[0] != '/'
            && (e[0] < '/' <==> k[0] < '/')
            && (e[0] == '0' <==> k[0] == '0')
            && (k[0] == '0' ==> e == "0" + EscapeChars(k[1..]))
  {
  }

  lemma PrintedFrom(path: seq<string>)
    requires path != []
    ensures Printed(path) == "/" + (EscapeChars(path[0]) + Printed(path[1..]))
  {
    EscapePasses(path[0]);
  }

  lemma PrintedOrder(a: seq<string>, b: seq<string>)
    requires a != [] && b != []
    ensures Less(Printed(a), Printed(b)) <==>
            Less(EscapeChars(a[0]) + Printed(a[1..]), EscapeChars(b[0]) + Printed(b[1..]))
  {
    PrintedFrom(a);
    PrintedFrom(b);
    LessBehindPrefix("/", EscapeChars(a[0]) + Printed(a[1..]), EscapeChars(b[0]) + Printed(b[1..]));
  }

  lemma BeforeZero(k: string, q: seq<string>, rest: seq<string>, zero: Json)
    requires k != "0" && (rest != [] <==> Nonempty(zero))
    ensures Less(Printed([k] + q), Printed(["0"] + rest)) <==> VisitedBefore(k, zero)
  {
    hide Escape, Printed, EscapeChars, Nonempty;
    assert ([k] + q)[1..] == q && (["0"] + rest)[1..] == rest;
    PrintedOrder([k] + q, ["0"] + rest);
    DigitsNeedNoEscape("0");
    TokensCompared(k, q, rest, zero);
  }

  lemma TokensCompared(k: string, q: seq<string>, rest: seq<string>, zero: Json)
    requires k != "0" && (rest != [] <==> Nonempty(zero))
    ensures Less(EscapeChars(k) + Printed(q), "0" + Printed(rest)) <==> VisitedBefore(k, zero)
  {
    hide Less, Printed, EscapeChars, Escape, Nonempty;
    if k == "" {
      NothingBeforeZero(q, rest);
    } else {
      EscapedHead(k);
      if k[0] == '0' {
        LongerCompared(k, q, rest);
      } else {
        LessByHead(EscapeChars(k) + Printed(q), "0" + Printed(rest));
      }
    }
  }

  lemma LongerCompared(k: string, q: seq<string>, rest: seq<string>)
    requires k != "" && k != "0" && k[0] == '0'
    ensures |k| >= 2
    ensures Less(EscapeChars(k) + Printed(q), "0" + Printed(rest)) <==> rest != [] && k[1] < '/'
  {
    hide Less, Printed, EscapeChars, Escape;
    if |k| == 1 {
      OneChar(k);
    }
    EscapedHead(k);
    assert EscapeChars(k) + Printed(q) == "0" + (EscapeChars(k[1..]) + Printed(q));
    LessBehindPrefix("0", EscapeChars(k[1..]) + Printed(q), Printed(rest));
    LongerThanZero(k[1..], q, rest);
  }

  lemma NothingBeforeZero(q: seq<string>, rest: seq<string>)
    ensures Less(EscapeChars("") + Printed(q), "0" + Printed(rest))
  {
  }

  lemma OneChar(k: string)
    requires |k| == 1
    ensures k == [k[0]]
  {
  }

  lemma LongerThanZero(k: string, q: seq<string>, rest: seq<string>)
    requires k != ""
    ensures Less(EscapeChars(k) + Printed(q), Printed(rest)) <==> rest != [] && k[0] < '/'
  {
    EscapedHead(k);
    if rest != [] {
      LessByHead(EscapeChars(k) + Printed(q), Printed(rest));
    }
  }

  /** The first leaf of an object lies below "0" exactly when that member is visited first. */
  lemma FirstToken(m: map<string, Json>, es: seq<Entry>)
    requires m != map[] && Indexable(Object(m)) && LeavesOf(Object(m), es)
    ensures es != [] && es[0].path != [] && es[0].path[0] in m
    ensures es[0].path[0] == "0" <==> ZeroFirst(m)
  {
    var j := Object(m);
    var some := HasLeaf(j);
    assert Holds(es, some, LeafAt(j, some).value);
    var first := es[0];
    assert Holds(es, first.path, first.value);
    var k := first.path[0];
    hide VisitedBefore, Nonempty;
    if k == "0" {
      forall o | o in m && o != "0"
        ensures !VisitedBefore(o, m["0"])
      {
        NotBefore(m, es, o);
      }
    } else if "0" in m {
      ZeroLater(m, es);
    }
  }

  lemma LeafBelow(m: map<string, Json>, es: seq<Entry>, k: string) returns (e: Entry)
    requires k in m && Indexable(Object(m)) && LeavesOf(Object(m), es)
    ensures e in es && e.path != [] && e.path[0] == k && e.path == [k] + e.path[1..]
    ensures LeafAt(m[k], e.path[1..]).Some?
  {
    var below := HasLeaf(m[k]);
    var path := [k] + below;
    assert path[1..] == below;
    e := Entry(path, LeafAt(Object(m), path).value);
    assert Holds(es, path, e.value);
  }

  lemma LeafIsBelow(j: Json, path: seq<string>)
    requires LeafAt(j, path).Some?
    ensures path != [] <==> Nonempty(j)
  {
  }

  lemma NotBefore(m: map<string, Json>, es: seq<Entry>, o: string)
    requires o in m && o != "0" && "0" in m && Indexable(Object(m)) && LeavesOf(Object(m), es)
    requires es != [] && es[0].path != [] && es[0].path[0] == "0"
    ensures !VisitedBefore(o, m["0"])
  {
    hide VisitedBefore, Nonempty, Printed;
    var e := LeafBelow(m, es, o);
    var first := es[0];
    assert Holds(es, first.path, first.value);
    assert first.path == ["0"] + first.path[1..];
    LeafIsBelow(m["0"], first.path[1..]);
    BeforeZero(o, e.path[1..], first.path[1..], m["0"]);
    assert e in es[1..];
    if Less(Printed(e.path), Printed(first.path)) {
      LessTransitive(Printed(e.path), Printed(first.path), Printed(e.path));
      LessIrreflexive(Printed(e.path));
    }
  }

  lemma ZeroLater(m: map<string, Json>, es: seq<Entry>)
    requires "0" in m && Indexable(Object(m)) && LeavesOf(Object(m), es)
    requires es != [] && es[0].path != [] && es[0].path[0] != "0" && es[0].path[0] in m
    ensures VisitedBefore(es[0].path[0], m["0"])
  {
    hide VisitedBefore, Nonempty, Printed;
    var e := LeafBelow(m, es, "0");
    var first := es[0];
    assert first.path == [first.path[0]] + first.path[1..];
    LeafIsBelow(m["0"], e.path[1..]);
    BeforeZero(first.path[0], first.path[1..], e.path[1..], m["0"]);
    assert e in es[1..];
  }

  // ---------- rebuilding a value from its leaves ----------

  lemma FirstTwo(es: seq<Entry>)
    requires InOrder(es) && |es| >= 2
    ensures es[0] in es && es[1] in es && Less(Printed(es[0].path), Printed(es[1].path))
  {
    assert es[1] == es[1..][0];
  }

  /** A leaf has a single entry. */
  lemma OnlyEntry(j: Json, es: seq<Entry>)
    requires LeavesOf(j, es) && !Nonempty(j)
    ensures es == [Entry([], if Primitive(j) then j else Null)]
  {
    var v := if Primitive(j) then j else Null;
    assert Holds(es, [], v);
    forall e | e in es ensures e == Entry([], v) {
      assert Holds(es, e.path, e.value);
    }
    if |es| >= 2 {
      LessIrreflexive(Printed([]));
      FirstTwo(es);
    }
  }

  lemma LeavesBelow(j: Json, es: seq<Entry>)
    requires LeavesOf(j, es) && Nonempty(j)
    ensures AllBelow(es) && forall e <- es :: Child(j, e.path[0]).Ok?
  {
    forall e | e in es
      ensures e.path != [] && Child(j, e.path[0]).Ok?
    {
      assert Holds(es, e.path, e.value);
    }
  }

  /** A member with a leaf has an entry. */
  lemma SubNonempty(j: Json, es: seq<Entry>, token: string)
    requires LeavesOf(j, es) && Indexable(j) && Child(j, token).Ok?
    ensures Sub(es, token) != []
  {
    hide Sub, Child;
    SubLeaves(j, es, token);
    IndexableChild(j, token);
    var path := HasLeaf(Child(j, token).value);
    assert Holds(Sub(es, token), path, LeafAt(Child(j, token).value, path).value);
  }

  lemma IndexableChild(j: Json, token: string)
    requires Indexable(j) && Child(j, token).Ok?
    ensures Indexable(Child(j, token).value)
  {
  }

  /** Running all leaves in order from nothing rebuilds the value exactly when it is flattenable. */
  lemma {:induction false} RebuildIff(j: Json, es: seq<Entry>)
    requires LeavesOf(j, es) && Indexable(j)
    ensures Run(Null, es) == Ok(j) <==> Flattenable(j)
    decreases j, 1
  {
    hide LeavesOf, Indexable;
    if !Nonempty(j) {
      OnlyEntry(j, es);
      assert Run(Null, es) == Run(es[0].value, []);
    } else if j.Array? {
      RebuildArray(j, es);
    } else {
      RebuildObject(j, es);
    }
  }

  lemma IndexAt(j: Json, i: nat)
    requires j.Array? && Indexable(j) && i < |j.items|
    ensures Child(j, IndexToken(i)) == Ok(j.items[i]) && Indexable(j.items[i])
  {
    ItemChild(j, i, Null);
  }

  /** The first leaf of an array lies below its first element. */
  lemma ArrayFirst(j: Json, es: seq<Entry>)
    requires LeavesOf(j, es) && Indexable(j) && j.Array? && j.items != []
    ensures es != [] && es[0].path != [] && es[0].path[0] == "0"
    ensures IndexedBelow(es, |j.items|)
  {
    LeavesBelow(j, es);
    ZeroToken();
    IndexAt(j, 0);
    var below := HasLeaf(j.items[0]);
    var path := ["0"] + below;
    assert path[1..] == below;
    var e := Entry(path, LeafAt(j, path).value);
    assert Holds(es, path, e.value);
    assert es[0] in es;
    if es[0].path[0] != "0" {
      assert e in es[1..];
      ZeroIsLeast(es[0].path, path);
    }
  }

  lemma ZeroIsLeast(a: seq<string>, b: seq<string>)
    requires a != [] && b != [] && ArrayIndex(a[0]).Ok? && a[0] != "0" && b[0] == "0"
    ensures !Less(Printed(a), Printed(b))
  {
    var i := ArrayIndex(a[0]).value;
    ArrayIndexAccepts(a[0], i);
    DecimalOfToken(i);
    ZeroToken();
    DigitsNeedNoEscape(a[0]);
    DigitsNeedNoEscape("0");
    hide Printed, EscapeChars, ArrayIndex, IndexToken;
    PrintedOrder(a, b);
    LessByHead(a[0] + Printed(a[1..]), "0" + Printed(b[1..]));
  }

  lemma {:induction false} RebuildArray(j: Json, es: seq<Entry>)
    requires LeavesOf(j, es) && Indexable(j) && j.Array? && j.items != []
    ensures Run(Null, es) == Ok(j) <==> Flattenable(j)
    decreases j, 0
  {
    ArrayFirst(j, es);
    RunFromNull(es);
    RunArray([], es, |j.items|);
    forall i: nat | i < |j.items|
      ensures Sub(es, IndexToken(i)) != [] && (Run(Null, Sub(es, IndexToken(i))) == Ok(j.items[i]) <==> Flattenable(j.items[i]))
    {
      IndexAt(j, i);
      SubNonempty(j, es, IndexToken(i));
      SubLeaves(j, es, IndexToken(i));
      RebuildIff(j.items[i], Sub(es, IndexToken(i)));
    }
    hide Run, Sub, LeavesOf, Indexable, IndexToken, IndexedBelow;
    ArrayEqual(j, es, Run(Array([]), es));
  }

  lemma {:induction false} NoEntries(es: seq<Entry>, i: nat, n: nat)
    requires IndexedBelow(es, n) && n <= i
    ensures Sub(es, IndexToken(i)) == [] && Run(Null, []) == Ok(Null)
    decreases |es|
  {
    if es != [] {
      assert es[0] in es && forall e <- es[1..] :: e in es;
      var k := ArrayIndex(es[0].path[0]).value;
      ArrayIndexAccepts(es[0].path[0], k);
      if IndexToken(k) == IndexToken(i) {
        IndexTokensDiffer(k, i);
      }
      NoEntries(es[1..], i, n);
    }
  }

  /** The built array is j exactly when every built element is j's. */
  lemma ArrayEqual(j: Json, es: seq<Entry>, r: Result<Json, Error>)
    requires j.Array? && j.items != [] && ArrayBuilt([], es, |j.items|, r) && IndexedBelow(es, |j.items|)
    requires forall i: nat :: i < |j.items| ==> Sub(es, IndexToken(i)) != []
    requires forall i: nat :: i < |j.items| ==>
               (Run(Null, Sub(es, IndexToken(i))) == Ok(j.items[i]) <==> Flattenable(j.items[i]))
    ensures r == Ok(j) <==> Flattenable(j)
  {
    hide Run, Sub, IndexToken;
    var n := |j.items|;
    if r.Ok? {
      assert ItemBuilt([], es, r.value.items, n - 1);
      forall i: nat | i < n
        ensures r.value.items[i] == j.items[i] <==> Flattenable(j.items[i])
      {
        assert ItemBuilt([], es, r.value.items, i);
      }
      assert r.value.items == j.items <==> forall i :: 0 <= i < n ==> r.value.items[i] == j.items[i];
    } else {
      var i: nat :| Run(At([], i), Sub(es, IndexToken(i))).Err?;
      if i >= n {
        NoEntries(es, i, n);
      }
    }
  }

  lemma {:induction false} RebuildObject(j: Json, es: seq<Entry>)
    requires LeavesOf(j, es) && Indexable(j) && j.Object? && j.members != map[]
    ensures Run(Null, es) == Ok(j) <==> Flattenable(j)
    decreases j, 0
  {
    var m := j.members;
    LeavesBelow(j, es);
    FirstToken(m, es);
    RunFromNull(es);
    if ZeroFirst(m) {
      RunKeepsArray([], es);
    } else {
      RunObject(map[], es);
      forall k | k in m
        ensures Sub(es, k) != [] && (Run(Null, Sub(es, k)) == Ok(m[k]) <==> Flattenable(m[k]))
      {
        IndexableChild(j, k);
        SubNonempty(j, es, k);
        SubLeaves(j, es, k);
        RebuildIff(m[k], Sub(es, k));
      }
      hide Run, Sub, LeavesOf, Indexable, ZeroFirst;
      ObjectEqual(j, es, Run(Object(map[]), es));
    }
  }

  lemma {:induction false} NoMemberEntries(m: map<string, Json>, es: seq<Entry>, k: string)
    requires (forall e <- es :: e.path != [] && e.path[0] in m) && k !in m
    ensures Sub(es, k) == [] && Run(Null, []) == Ok(Null)
    decreases |es|
  {
    if es != [] {
      assert es[0] in es && forall e <- es[1..] :: e in es;
      NoMemberEntries(m, es[1..], k);
    }
  }

  /** The built object is j exactly when every built member is j's. */
  lemma ObjectEqual(j: Json, es: seq<Entry>, r: Result<Json, Error>)
    requires j.Object? && j.members != map[] && !ZeroFirst(j.members) && ObjectBuilt(map[], es, r)
    requires forall e <- es :: e.path != [] && e.path[0] in j.members
    requires forall k :: k in j.members ==> Sub(es, k) != []
    requires forall k :: k in j.members ==>
               (Run(Null, Sub(es, k)) == Ok(j.members[k]) <==> Flattenable(j.members[k]))
    ensures r == Ok(j) <==> Flattenable(j)
  {
    hide Run, Sub, ZeroFirst;
    var m := j.members;
    if r.Ok? {
      var built := r.value.members;
      forall k
        ensures (k in built <==> k in m) && (k in m ==> (built[k] == m[k] <==> Flattenable(m[k])))
      {
        assert MemberBuilt(map[], es, built, k);
        if k !in m {
          NoMemberEntries(m, es, k);
        }
      }
      assert built.Keys == m.Keys;
      assert built == m <==> forall k :: k in m ==> built[k] == m[k];
    } else {
      var k :| Run(Lookup(map[], k), Sub(es, k)).Err?;
      if k !in m {
        NoMemberEntries(m, es, k);
      }
    }
  }

  // ---------- what flatten collects ----------

  /** The path of a key below a prefix. */
  function PathIn(prefix: seq<string>, s: string): Option<seq<string>> {
    var tokens := Split(s);
    if tokens.Ok? && prefix <= tokens.value then Some(tokens.value[|prefix|..]) else None
  }

  /** The leaf of j that this key names. */
  function LeafHere(prefix: seq<string>, j: Json, s: string): Option<Json> {
    var p := PathIn(prefix, s);
    if p.None? then None else LeafAt(j, p.value)
  }

  /** Key s holds the new value, or what it held before if there is none. */
  predicate KeyAdded(before: map<string, Json>, after: map<string, Json>, v: Option<Json>, s: string) {
    if v.Some? then s in after && after[s] == v.value
    else (s in after <==> s in before) && (s in before ==> after[s] == before[s])
  }

  /** The leaves whose first token is an index from i on. */
  function LeafFrom(prefix: seq<string>, j: Json, i: nat, s: string): Option<Json> {
    var p := PathIn(prefix, s);
    if p.None? || p.value == [] || ArrayIndex(p.value[0]).Err? || ArrayIndex(p.value[0]).value < i then None
    else LeafAt(j, p.value)
  }

  /** The leaves whose first token is one of these keys. */
  function LeafAmong(prefix: seq<string>, j: Json, keys: seq<string>, s: string): Option<Json> {
    var p := PathIn(prefix, s);
    if p.None? || p.value == [] || p.value[0] !in keys then None else LeafAt(j, p.value)
  }

  lemma PathBelow(prefix: seq<string>, token: string, s: string)
    ensures PathIn(prefix + [token], s) ==
            var p := PathIn(prefix, s);
            if p.Some? && p.value != [] && p.value[0] == token then Some(p.value[1..]) else None
  {
    hide Split;
    var tokens := Split(s);
    if tokens.Ok? && prefix <= tokens.value {
      var ts, p := tokens.value, tokens.value[|prefix|..];
      assert ts == prefix + p;
      if p != [] && p[0] == token {
        assert p == [token] + p[1..];
        assert ts == (prefix + [token]) + p[1..];
      }
    }
  }

  lemma PathHere(prefix: seq<string>, s: string)
    ensures PathIn(prefix, s) == Some([]) <==> s == ToString(prefix)
  {
    hide Split, ToString;
    SplitToString(prefix);
    if PathIn(prefix, s) == Some([]) {
      ToStringSplit(s);
      assert Split(s).value == prefix + Split(s).value[|prefix|..] == prefix;
    }
    assert prefix[|prefix|..] == [];
  }

  lemma {:induction false} FlattenAdds(prefix: seq<string>, j: Json, before: map<string, Json>, s: string)
    requires Indexable(j)
    ensures KeyAdded(before, FlattenInto(ToString(prefix), j, before), LeafHere(prefix, j, s), s)
    decreases j, 1, 0
  {
    hide ToString, PathIn, Indexable;
    if !Nonempty(j) {
      PathHere(prefix, s);
      NoChildren(j, PathIn(prefix, s));
    } else if j.Array? {
      ItemsAdd(prefix, j, 0, before, s);
      NoRootLeaf(j, PathIn(prefix, s));
    } else {
      MembersAdd(prefix, j, SortedKeys(j.members.Keys), before, s);
      NoRootLeaf(j, PathIn(prefix, s));
    }
  }

  lemma NoChildren(j: Json, p: Option<seq<string>>)
    requires !Nonempty(j)
    ensures p.Some? && p.value != [] ==> LeafAt(j, p.value) == None
  {
  }

  lemma NoRootLeaf(j: Json, p: Option<seq<string>>)
    requires Nonempty(j)
    ensures LeafAt(j, []) == None
    ensures p.Some? && p.value != [] && LeafAt(j, p.value).Some? ==>
              if j.Array? then ArrayIndex(p.value[0]).Ok? else p.value[0] in j.members
  {
  }

  lemma {:induction false} ItemsAdd(prefix: seq<string>, j: Json, i: nat, before: map<string, Json>, s: string)
    requires j.Array? && Indexable(j) && i <= |j.items|
    ensures KeyAdded(before, FlattenItems(ToString(prefix), j, i, before), LeafFrom(prefix, j, i, s), s)
    decreases j, 0, |j.items| - i
  {
    hide ToString, PathIn, FlattenInto, IndexToken, Below, BelowIndex, Split;
    if i < |j.items| {
      var token := IndexToken(i);
      PathOfIndex(prefix, i);
      PathOfChild(prefix, token);
      FlattenAdds(prefix + [token], j.items[i], before, s);
      var next := FlattenInto(BelowIndex(ToString(prefix), i), j.items[i], before);
      ItemsAdd(prefix, j, i + 1, next, s);
      PathBelow(prefix, token, s);
      ArrayIndexAccepts(token, i);
      if PathIn(prefix, s).Some? && PathIn(prefix, s).value != [] {
        ArrayIndexAccepts(PathIn(prefix, s).value[0], i);
      }
    }
  }

  lemma {:induction false} MembersAdd(prefix: seq<string>, j: Json, keys: seq<string>, before: map<string, Json>, s: string)
    requires j.Object? && Indexable(j) && Sorted(keys) && forall k <- keys :: k in j.members
    ensures KeyAdded(before, FlattenMembers(ToString(prefix), j, keys, before), LeafAmong(prefix, j, keys, s), s)
    decreases j, 0, |keys|
  {
    hide ToString, PathIn, FlattenInto, Below;
    if keys != [] {
      var token := keys[0];
      assert token in keys;
      PathOfChild(prefix, token);
      FlattenAdds(prefix + [token], j.members[token], before, s);
      var next := FlattenInto(Below(ToString(prefix), token), j.members[token], before);
      SortedTail(keys);
      MembersAdd(prefix, j, keys[1..], next, s);
      PathBelow(prefix, token, s);
    }
  }

  // ---------- the theorem ----------

  /** The entries that unflatten reads from the flattened value. */
  function EntriesOf(keys: seq<string>, m: map<string, Json>): (es: seq<Entry>)
    requires forall k <- keys :: k in m && Split(k).Ok?
    ensures |es| == |keys|
  {
    if keys == [] then []
    else
      assert keys[0] in keys;
      [Entry(Split(keys[0]).value, m[keys[0]])] + EntriesOf(keys[1..], m)
  }

  lemma {:induction false} EntriesHold(keys: seq<string>, m: map<string, Json>, path: seq<string>, v: Json)
    requires forall k <- keys :: k in m && Split(k).Ok?
    ensures Holds(EntriesOf(keys, m), path, v) <==> ToString(path) in keys && m[ToString(path)] == v
  {
    hide Split, ToString;
    if keys != [] {
      assert keys[0] in keys;
      EntriesHold(keys[1..], m, path, v);
      ToStringSplit(keys[0]);
      SplitToString(path);
      assert EntriesOf(keys, m)[1..] == EntriesOf(keys[1..], m);
      assert keys == [keys[0]] + keys[1..];
    }
  }

  lemma {:induction false} EntriesInOrder(keys: seq<string>, m: map<string, Json>)
    requires Sorted(keys) && forall k <- keys :: k in m && Split(k).Ok?
    ensures InOrder(EntriesOf(keys, m))
    decreases |keys|
  {
    hide Split, ToString, Printed;
    if keys != [] {
      assert keys[0] in keys;
      SortedTail(keys);
      EntriesInOrder(keys[1..], m);
      var es := EntriesOf(keys, m);
      assert es[1..] == EntriesOf(keys[1..], m);
      forall e | e in es[1..]
        ensures Less(Printed(es[0].path), Printed(e.path))
      {
        EntriesHold(keys[1..], m, e.path, e.value);
        assert Holds(es[1..], e.path, e.value);
        ToStringSplit(keys[0]);
        ToStringIsPrinted(es[0].path);
        ToStringIsPrinted(e.path);
        var i :| 0 <= i < |keys[1..]| && keys[1..][i] == ToString(e.path);
        assert Less(keys[0], keys[i + 1]);
      }
    }
  }

  lemma {:induction false} UnflattenRuns(result: Json, keys: seq<string>, m: map<string, Json>)
    requires forall k <- keys :: k in m && Split(k).Ok? && Primitive(m[k])
    ensures UnflattenFrom(result, keys, m) == Run(result, EntriesOf(keys, m))
    decreases |keys|
  {
    hide Split, CreateAt;
    if keys != [] {
      assert keys[0] in keys;
      var es := EntriesOf(keys, m);
      assert es[1..] == EntriesOf(keys[1..], m);
      var next := CreateAt(result, es[0].path, es[0].value);
      if next.Ok? {
        UnflattenRuns(next.value, keys[1..], m);
      }
    }
  }

  /** Unflatten succeeds for nothing but objects of primitive values under pointers. */
  lemma UnflattenAccepts(j: Json)
    requires Unflatten(j).Ok?
    ensures j.Object? && forall k <- j.members :: Primitive(j.members[k]) && Split(k).Ok?
  {
    KeysAccepted(Null, SortedKeys(j.members.Keys), j.members);
  }

  lemma {:induction false} KeysAccepted(result: Json, keys: seq<string>, m: map<string, Json>)
    requires (forall k <- keys :: k in m) && UnflattenFrom(result, keys, m).Ok?
    ensures forall k <- keys :: Primitive(m[k]) && Split(k).Ok?
    decreases |keys|
  {
    hide Split, CreateAt;
    if keys != [] {
      assert keys == [keys[0]] + keys[1..] && keys[0] in keys;
      KeysAccepted(CreateAt(result, Split(keys[0]).value, m[keys[0]]).value, keys[1..], m);
    }
  }

  /** The exceptions of unflatten: no object, or, at the first key that fails, no primitive value. */
  lemma UnflattenErrors(j: Json)
    ensures !j.Object? ==> Unflatten(j) == Err(TypeError(314))
    ensures j.Object? && j.members != map[] && !Primitive(j.members[Least(j.members.Keys)]) ==> Unflatten(j) == Err(TypeError(315))
  {
    hide Split, CreateAt;
  }

  lemma {:induction false} LeafPrimitive(j: Json, path: seq<string>)
    requires LeafAt(j, path).Some?
    ensures Primitive(LeafAt(j, path).value)
    decreases |path|
  {
    hide Child;
    if path != [] {
      LeafPrimitive(Child(j, path[0]).value, path[1..]);
    }
  }

  /** A flattened value maps exactly the printed leaf paths to their leaves. */
  lemma FlattenedKeys(j: Json)
    requires Indexable(j)
    ensures var m := Flatten(j).members;
            && (forall k <- m.Keys :: Split(k).Ok? && LeafAt(j, Split(k).value) == Some(m[k]) && Primitive(m[k]))
            && (forall path :: LeafAt(j, path).Some? ==> ToString(path) in m && m[ToString(path)] == LeafAt(j, path).value)
  {
    hide Split, ToString, LeafAt, FlattenInto;
    var m := Flatten(j).members;
    assert ToString([]) == "" by { NoTokens(); }
    forall s
      ensures KeyAdded(map[], m, LeafHere([], j, s), s)
      ensures LeafHere([], j, s) == if Split(s).Ok? then LeafAt(j, Split(s).value) else None
    {
      FlattenAdds([], j, map[], s);
      assert Split(s).Ok? ==> [] <= Split(s).value && Split(s).value[0..] == Split(s).value;
    }
    forall k | k in m.Keys
      ensures Split(k).Ok? && LeafAt(j, Split(k).value) == Some(m[k]) && Primitive(m[k])
    {
      assert KeyAdded(map[], m, LeafHere([], j, k), k);
      LeafPrimitive(j, Split(k).value);
    }
    forall path | LeafAt(j, path).Some?
      ensures ToString(path) in m && m[ToString(path)] == LeafAt(j, path).value
    {
      SplitToString(path);
      assert KeyAdded(map[], m, LeafHere([], j, ToString(path)), ToString(path));
    }
  }

  lemma NoTokens()
    ensures ToString([]) == ""
  {
  }

  /** The entries unflatten reads are the leaves, in the order of their printed paths. */
  lemma LeavesFlattened(j: Json, keys: seq<string>, m: map<string, Json>)
    requires Indexable(j) && m == Flatten(j).members && keys == SortedKeys(m.Keys)
    requires forall k <- keys :: k in m && Split(k).Ok?
    ensures LeavesOf(j, EntriesOf(keys, m))
  {
    hide Split, ToString, LeafAt, Flatten, EntriesOf, InOrder, Indexable, Holds, Sorted;
    EntriesInOrder(keys, m);
    forall path, v
      ensures Holds(EntriesOf(keys, m), path, v) <==> LeafAt(j, path) == Some(v)
    {
      LeafEntry(j, keys, m, path, v);
    }
  }

  lemma LeafEntry(j: Json, keys: seq<string>, m: map<string, Json>, path: seq<string>, v: Json)
    requires Indexable(j) && m == Flatten(j).members && keys == SortedKeys(m.Keys)
    requires forall k <- keys :: k in m && Split(k).Ok?
    ensures Holds(EntriesOf(keys, m), path, v) <==> LeafAt(j, path) == Some(v)
  {
    hide Split, ToString, LeafAt, Flatten, EntriesOf, Indexable, Holds, Sorted;
    FlattenedKeys(j);
    EntriesHold(keys, m, path, v);
    SplitToString(path);
  }

  /**
   Unflatten undoes flatten exactly for the values without empty containers in which no object's
   first visited member is named 0.
   */
  lemma FlattenRoundTrip(j: Json)
    requires Indexable(j)
    ensures Unflatten(Flatten(j)) == Ok(j) <==> Flattenable(j)
  {
    hide Split, ToString, LeafAt, FlattenInto, Run, Flattenable, EntriesOf, LeavesOf, Indexable, UnflattenFrom;
    var m := Flatten(j).members;
    var keys := SortedKeys(m.Keys);
    FlattenedKeys(j);
    LeavesFlattened(j, keys, m);
    UnflattenRuns(Null, keys, m);
    RebuildIff(j, EntriesOf(keys, m));
  }

  /** {"0": null} comes back as an array. */
  lemma UnflattenMakesArray()
    ensures Unflatten(Flatten(Object(map["0" := Null]))) == Ok(Array([Null]))
  {
    hide Split, SortedKeys, Escape;
    OneKey("0");
    OneKey("/0");
    IndexZero();
    var j := Object(map["0" := Null]);
    assert j.members.Keys == {"0"} && ["0"][1..] == [];
    assert Below("", "0") == "/0";
    assert FlattenInto("", j, map[]) == map["/0" := Null];
    assert map["/0" := Null].Keys == {"/0"} && ["/0"][1..] == [];
    assert CreateAt(Null, ["0"], Null) == Ok(Array([Null]));
  }

  lemma OneKey(k: string)
    ensures SortedKeys({k}) == [k]
  {
    SortedUnique(SortedKeys({k}), [k]);
  }

  lemma IndexZero()
    ensures Escape("0") == "0" && Split("/0") == Ok(["0"])
  {
    hide Split, Escape;
    EscapePasses("0");
    assert "0"[1..] == "";
    assert ["0"][..0] == [];
    assert ToString(["0"]) == "/0";
    SplitToString(["0"]);
  }

  // ---------- the loops ----------

  /** flatten, storing into the result as it goes through elements and members. */
  method StoreFlattened(path: string, j: Json, result: map<string, Json>) returns (r: map<string, Json>)
    ensures r == FlattenInto(path, j, result)
    decreases j, 1
  {
    match j {
      case Array(items) =>
        if items == [] {
          return result[path := Null];
        }
        r := StoreItems(path, j, result);
      case Object(m) =>
        if m == map[] {
          return result[path := Null];
        }
        r := StoreMembers(path, j, result);
      case _ => r := result[path := j];
    }
  }

  method StoreItems(path: string, j: Json, result: map<string, Json>) returns (r: map<string, Json>)
    requires j.Array?
    ensures r == FlattenItems(path, j, 0, result)
    decreases j, 0
  {
    hide FlattenInto;
    r := result;
    for i := 0 to |j.items|
      invariant FlattenItems(path, j, i, r) == FlattenItems(path, j, 0, result)
    {
      r := StoreFlattened(BelowIndex(path, i), j.items[i], r);
    }
  }

  method StoreMembers(path: string, j: Json, result: map<string, Json>) returns (r: map<string, Json>)
    requires j.Object?
    ensures r == FlattenMembers(path, j, SortedKeys(j.members.Keys), result)
    decreases j, 0
  {
    hide FlattenInto, Below;
    var keys := SortedKeys(j.members.Keys);
    r := result;
    for i := 0 to |keys|
      invariant FlattenMembers(path, j, keys[i..], r) == FlattenMembers(path, j, keys, result)
    {
      assert keys[i] in keys && keys[i..][0] == keys[i] && keys[i..][1..] == keys[i + 1..];
      r := StoreFlattened(Below(path, keys[i]), j.members[keys[i]], r);
    }
  }

  /** unflatten, assigning one value after the other. */
  method Rebuild(value: Json) returns (r: Result<Json, Error>)
    ensures r == Unflatten(value)
    ensures forall j :: Indexable(j) && Flattenable(j) && value == Flatten(j) ==> r == Ok(j)
  {
    hide Split, CreateAt, Flattenable, FlattenInto;
    if !value.Object? {
      return Err(TypeError(314));
    }
    var m := value.members;
    var keys := SortedKeys(m.Keys);
    var result := Null;
    for i := 0 to |keys|
      invariant UnflattenFrom(result, keys[i..], m) == UnflattenFrom(Null, keys, m)
    {
      assert keys[i] in keys && keys[i..][0] == keys[i] && keys[i..][1..] == keys[i + 1..];
      if !Primitive(m[keys[i]]) {
        RoundTrips(value);
        return Err(TypeError(315));
      }
      var tokens := SplitTokens(keys[i]);
      if tokens.Err? {
        RoundTrips(value);
        return Err(tokens.error);
      }
      var next := CreateAt(result, tokens.value, m[keys[i]]);
      if next.Err? {
        RoundTrips(value);
        return next;
      }
      result := next.value;
    }
    RoundTrips(value);
    return Ok(result);
  }

  lemma RoundTrips(value: Json)
    ensures forall j :: Indexable(j) && Flattenable(j) && value == Flatten(j) ==> Unflatten(value) == Ok(j)
  {
    hide Flattenable, FlattenInto, UnflattenFrom, Indexable;
    forall j | Indexable(j) && Flattenable(j) && value == Flatten(j)
      ensures Unflatten(value) == Ok(j)
    {
      FlattenRoundTrip(j);
    }
  }
}
