/** json_value::destroy: taking a value apart with an explicit stack. */
module JsonDestroy {
  import opened Wrappers
  import opened Json
  import opened JsonPointer

  /** The values directly below, in the order in which they are moved out. */
  function Children(j: Json): (cs: seq<Json>)
    ensures forall c <- cs :: c < j
  {
    match j
    case Array(items) => items
    case Object(m) =>
      var keys := SortedKeys(m.Keys);
      assert forall i :: 0 <= i < |keys| ==> keys[i] in keys;
      seq(|keys|, i requires 0 <= i < |keys| => m[keys[i]])
    case _ => []
  }

  /** A container whose children have been moved out. */
  function Emptied(j: Json): Json {
    match j
    case Array(_) => Array([])
    case Object(_) => Object(map[])
    case _ => j
  }

  /** The number of values in j, itself included. */
  function Size(j: Json): nat
    decreases j, 1, 0
  {
    1 + SizeBelow(j, Children(j))
  }

  function SizeBelow(parent: Json, cs: seq<Json>): nat
    requires forall c <- cs :: c < parent
    decreases parent, 0, |cs|
  {
    if cs == [] then 0
    else
      assert cs[0] in cs && forall c <- cs[1..] :: c in cs;
      Size(cs[0]) + SizeBelow(parent, cs[1..])
  }

  function TotalSize(stack: seq<Json>): nat {
    if stack == [] then 0 else Size(stack[0]) + TotalSize(stack[1..])
  }

  lemma {:induction false} SizeBelowIsTotal(parent: Json, cs: seq<Json>)
    requires forall c <- cs :: c < parent
    ensures SizeBelow(parent, cs) == TotalSize(cs)
    decreases |cs|
  {
    if cs != [] {
      assert forall c <- cs[1..] :: c in cs;
      SizeBelowIsTotal(parent, cs[1..]);
    }
  }

  lemma SizeIsOneMore(j: Json)
    ensures Size(j) == 1 + TotalSize(Children(j))
  {
    SizeBelowIsTotal(j, Children(j));
  }

  /** All values on the stack and below. */
  function AllOf(stack: seq<Json>): multiset<Json>
    decreases TotalSize(stack)
  {
    if stack == [] then multiset{}
    else
      SizeIsOneMore(stack[0]);
      multiset{stack[0]} + AllOf(Children(stack[0])) + AllOf(stack[1..])
  }

  lemma {:induction false} TotalAppend(a: seq<Json>, b: seq<Json>)
    ensures TotalSize(a + b) == TotalSize(a) + TotalSize(b)
  {
    if a == [] {
      assert a + b == b;
    } else {
      assert (a + b)[1..] == a[1..] + b;
      TotalAppend(a[1..], b);
    }
  }

  lemma {:induction false} AllAppend(a: seq<Json>, b: seq<Json>)
    ensures AllOf(a + b) == AllOf(a) + AllOf(b)
    decreases |a|
  {
    if a == [] {
      assert a + b == b;
    } else {
      assert (a + b)[1..] == a[1..] + b;
      AllAppend(a[1..], b);
    }
  }

  lemma AllOfOne(j: Json)
    ensures AllOf([j]) == multiset{j} + AllOf(Children(j)) && TotalSize([j]) == Size(j)
  {
    assert [j][1..] == [];
  }

  // ---------- values and pointers ----------

  /** The reference token of each child. */
  function Tokens(j: Json): (ts: seq<string>)
    ensures |ts| == |Children(j)|
  {
    match j
    case Array(items) => seq(|items|, i requires 0 <= i < |items| => IndexToken(i))
    case Object(m) => SortedKeys(m.Keys)
    case _ => []
  }

  /** The children are what at() finds: one for each token that there is, and no token twice. */
  lemma ChildrenFound(j: Json)
    requires Indexable(j)
    ensures forall i :: 0 <= i < |Tokens(j)| ==> Child(j, Tokens(j)[i]) == Ok(Children(j)[i])
    ensures forall token :: Child(j, token).Ok? ==> token in Tokens(j)
    ensures forall i, k :: 0 <= i < k < |Tokens(j)| ==> Tokens(j)[i] != Tokens(j)[k]
  {
    match j
    case Array(items) => ItemsFound(j);
    case Object(m) => MembersFound(j);
    case _ =>
  }

  lemma ItemsFound(j: Json)
    requires Indexable(j) && j.Array?
    ensures forall i :: 0 <= i < |Tokens(j)| ==> Child(j, Tokens(j)[i]) == Ok(Children(j)[i])
    ensures forall token :: Child(j, token).Ok? ==> token in Tokens(j)
    ensures forall i, k :: 0 <= i < k < |Tokens(j)| ==> Tokens(j)[i] != Tokens(j)[k]
  {
    hide ArrayIndex, IndexToken;
    var ts := Tokens(j);
    forall i | 0 <= i < |ts| ensures Child(j, ts[i]) == Ok(j.items[i]) {
      ItemChild(j, i, Null);
    }
    forall token | Child(j, token).Ok? ensures token in ts {
      ArrayIndexAccepts(token, ArrayIndex(token).value);
      assert ts[ArrayIndex(token).value] == token;
    }
    forall i, k | 0 <= i < k < |ts| ensures ts[i] != ts[k] {
      ArrayIndexAccepts(ts[i], i);
      ArrayIndexAccepts(ts[k], k);
    }
  }

  lemma MembersFound(j: Json)
    requires j.Object?
    ensures forall i :: 0 <= i < |Tokens(j)| ==> Child(j, Tokens(j)[i]) == Ok(Children(j)[i])
    ensures forall token :: Child(j, token).Ok? ==> token in Tokens(j)
    ensures forall i, k :: 0 <= i < k < |Tokens(j)| ==> Tokens(j)[i] != Tokens(j)[k]
  {
    var ts := Tokens(j);
    forall i | 0 <= i < |ts| ensures Child(j, ts[i]) == Ok(j.members[ts[i]]) {
      assert ts[i] in ts;
    }
    forall i, k | 0 <= i < k < |ts| ensures ts[i] != ts[k] {
      LessIrreflexive(ts[i]);
    }
  }

  /** All pointers below a reference token. */
  function Behind(token: string, paths: set<seq<string>>): set<seq<string>> {
    set p <- paths :: [token] + p
  }

  /** All pointers into j. */
  function Paths(j: Json): set<seq<string>>
    decreases j, 1, 0
  {
    {[]} + PathsInto(j, |Children(j)|)
  }

  /** The pointers into the first n children. */
  function PathsInto(j: Json, n: nat): set<seq<string>>
    requires n <= |Children(j)|
    decreases j, 0, n
  {
    if n == 0 then {}
    else
      assert Children(j)[n - 1] in Children(j);
      PathsInto(j, n - 1) + Behind(Tokens(j)[n - 1], Paths(Children(j)[n - 1]))
  }

  lemma BehindHolds(token: string, paths: set<seq<string>>, p: seq<string>)
    ensures p in Behind(token, paths) <==> p != [] && p[0] == token && p[1..] in paths
  {
    if p != [] && p[0] == token && p[1..] in paths {
      assert p == [token] + p[1..];
    }
  }

  lemma {:induction false} BehindCounts(token: string, paths: set<seq<string>>)
    ensures |Behind(token, paths)| == |paths|
    decreases |paths|
  {
    if paths != {} {
      var p :| p in paths;
      BehindCounts(token, paths - {p});
      assert Behind(token, paths) == Behind(token, paths - {p}) + {[token] + p};
      BehindHolds(token, paths - {p}, [token] + p);
      assert ([token] + p)[1..] == p;
    }
  }

  predicate IntoChild(j: Json, i: nat, p: seq<string>) {
    i < |Children(j)| && p != [] && Tokens(j)[i] == p[0] && p[1..] in Paths(Children(j)[i])
  }

  lemma {:induction false} IntoSomeChild(j: Json, n: nat, p: seq<string>)
    requires n <= |Children(j)|
    ensures p in PathsInto(j, n) <==> exists i :: 0 <= i < n && IntoChild(j, i, p)
    decreases n
  {
    hide Children, Tokens, Paths, Behind;
    if n > 0 {
      IntoSomeChild(j, n - 1, p);
      BehindHolds(Tokens(j)[n - 1], Paths(Children(j)[n - 1]), p);
      assert p in Behind(Tokens(j)[n - 1], Paths(Children(j)[n - 1])) <==> IntoChild(j, n - 1, p);
    }
  }

  /** A pointer is among them exactly when get_checked resolves it. */
  lemma {:induction false} PathsResolve(j: Json, p: seq<string>)
    requires Indexable(j)
    ensures p in Paths(j) <==> GetChecked(j, p).Ok?
    decreases |p|
  {
    hide Children, Tokens, PathsInto, Child, Indexable;
    IntoSomeChild(j, |Children(j)|, p);
    if p != [] {
      ChildrenFound(j);
      forall i | 0 <= i < |Children(j)| && Tokens(j)[i] == p[0]
        ensures IntoChild(j, i, p) <==> GetChecked(j, p).Ok?
      {
        ChildIndexable(j, i);
        PathsResolve(Children(j)[i], p[1..]);
      }
    }
  }

  lemma ChildIndexable(j: Json, i: nat)
    requires Indexable(j) && i < |Children(j)|
    ensures Indexable(Children(j)[i])
  {
    if j.Object? {
      assert SortedKeys(j.members.Keys)[i] in SortedKeys(j.members.Keys);
    }
  }

  lemma {:induction false} PathsIntoCount(j: Json, n: nat)
    requires Indexable(j) && n <= |Children(j)|
    ensures |PathsInto(j, n)| == TotalSize(Children(j)[..n])
    decreases j, 0, n
  {
    hide Children, Tokens, Paths, Behind, Size, Indexable, Child;
    if n > 0 {
      var cs, last := Children(j), Children(j)[n - 1];
      assert last in cs;
      ChildIndexable(j, n - 1);
      PathsIntoCount(j, n - 1);
      SizeCountsPaths(last);
      BehindCounts(Tokens(j)[n - 1], Paths(last));
      ChildrenFound(j);
      if !(PathsInto(j, n - 1) !! Behind(Tokens(j)[n - 1], Paths(last))) {
        var p :| p in PathsInto(j, n - 1) && p in Behind(Tokens(j)[n - 1], Paths(last));
        BehindHolds(Tokens(j)[n - 1], Paths(last), p);
        IntoSomeChild(j, n - 1, p);
      }
      assert cs[..n] == cs[..n - 1] + [last];
      TotalAppend(cs[..n - 1], [last]);
      AllOfOne(last);
    }
  }

  /** The number of values in j is the number of pointers that resolve in it. */
  lemma {:induction false} SizeCountsPaths(j: Json)
    requires Indexable(j)
    ensures |Paths(j)| == Size(j)
    decreases j, 1, 0
  {
    hide Children, Tokens, PathsInto, Size, Indexable;
    var n := |Children(j)|;
    PathsIntoCount(j, n);
    IntoSomeChild(j, n, []);
    SizeIsOneMore(j);
    assert Children(j)[..n] == Children(j);
  }

  // ---------- the loop ----------

  /** What is left of a value without its children. */
  predicate Shallow(visited: Json, dropped: Json) {
    if visited.Array? then dropped == Array([])
    else if visited.Object? then dropped == Object(map[])
    else Primitive(visited) && dropped == visited
  }

  /** Each dropped value is the visited one without its children. */
  predicate AllEmptied(visited: seq<Json>, dropped: seq<Json>) {
    |dropped| == |visited| && forall i :: 0 <= i < |dropped| ==> Shallow(visited[i], dropped[i])
  }

  /**
   The loop runs once for every value strictly below j, visits exactly those,
   and whatever it lets go has no children left.
   */
  method Destroy(j: Json) returns (iterations: nat, visited: seq<Json>, dropped: seq<Json>)
    ensures iterations == Size(j) - 1 == |visited|
    ensures multiset(visited) == AllOf(Children(j))
    ensures AllEmptied(visited, dropped)
  {
    hide Size, TotalSize, AllOf, AllEmptied, Emptied;
    NothingDropped();
    var stack := Children(j);
    SizeIsOneMore(j);
    iterations, visited, dropped := 0, [], [];
    while stack != []
      invariant iterations + TotalSize(stack) == TotalSize(Children(j)) && iterations == |visited| == |dropped|
      invariant multiset(visited) + AllOf(stack) == AllOf(Children(j))
      invariant AllEmptied(visited, dropped)
      decreases TotalSize(stack)
    {
      var last := |stack| - 1;
      var current := stack[last];
      Popped(stack);
      stack := stack[..last] + Children(current);
      OneDropped(visited, dropped, current);
      iterations, visited, dropped := iterations + 1, visited + [current], dropped + [Emptied(current)];
    }
  }

  /** Popping a value and pushing its children takes one value off the whole. */
  lemma Popped(stack: seq<Json>)
    requires stack != []
    ensures var rest, j := stack[..|stack| - 1], stack[|stack| - 1];
            && TotalSize(stack) == TotalSize(rest + Children(j)) + 1
            && AllOf(stack) == AllOf(rest + Children(j)) + multiset{j}
  {
    var rest, j := stack[..|stack| - 1], stack[|stack| - 1];
    assert stack == rest + [j];
    TotalAppend(rest, [j]);
    AllAppend(rest, [j]);
    TotalAppend(rest, Children(j));
    AllAppend(rest, Children(j));
    AllOfOne(j);
    SizeIsOneMore(j);
  }

  lemma NothingDropped()
    ensures AllEmptied([], []) && TotalSize([]) == 0 && AllOf([]) == multiset{}
  {
  }

  lemma OneDropped(visited: seq<Json>, dropped: seq<Json>, j: Json)
    requires AllEmptied(visited, dropped)
    ensures AllEmptied(visited + [j], dropped + [Emptied(j)])
    ensures multiset(visited + [j]) == multiset(visited) + multiset{j}
  {
  }
}
