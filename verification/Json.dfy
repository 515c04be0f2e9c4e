/** JSON values as basic_json holds them, without binary and floating-point values. */
module Json {
  import opened Bytes

  type int64 = x: int | -TWO_63 <= x < TWO_63
  type uint64 = x: nat | x < TWO_64

  /** Signed and unsigned integers are two different types; an object is a map sorted by key. */
  datatype Json =
    | Null
    | Bool(b: bool)
    | Int(i: int64)
    | Uint(u: uint64)
    | Str(s: string)
    | Array(items: seq<Json>)
    | Object(members: map<string, Json>)

  /** type(): what diff compares before looking into the values. */
  predicate SameType(a: Json, b: Json) {
    match a
    case Null => b.Null?
    case Bool(_) => b.Bool?
    case Int(_) => b.Int?
    case Uint(_) => b.Uint?
    case Str(_) => b.Str?
    case Array(_) => b.Array?
    case Object(_) => b.Object?
  }

  /** operator[] on a member: null if there is none. */
  function Lookup(m: map<string, Json>, key: string): Json {
    if key in m then m[key] else Null
  }

  predicate Primitive(j: Json) {
    !j.Array? && !j.Object?
  }

  /** static_cast<int64_t> of an unsigned number. */
  function Signed64(u: uint64): int64 {
    if u < TWO_63 then u else u - TWO_64
  }

  /** operator==: an unsigned number is cast to a signed one before it is compared with a signed one. */
  predicate Equal(a: Json, b: Json)
    decreases a
  {
    match (a, b)
    case (Array(x), Array(y)) => |x| == |y| && forall i :: 0 <= i < |x| ==> Equal(x[i], y[i])
    case (Object(x), Object(y)) => x.Keys == y.Keys && forall k :: k in x ==> Equal(x[k], y[k])
    case (Int(x), Uint(y)) => x == Signed64(y)
    case (Uint(x), Int(y)) => Signed64(x) == y
    case _ => a == b
  }

  /** The same number modulo 2^64. */
  predicate SameWord(x: int, y: int) {
    (x - y) % 0x1_0000_0000_0000_0000 == 0
  }

  lemma SignedIsSameWord(x: int64, y: uint64)
    ensures x == Signed64(y) <==> SameWord(x, y)
  {
    if y >= TWO_63 {
      assert (x - y) % 0x1_0000_0000_0000_0000 == (x - (y - TWO_64)) % 0x1_0000_0000_0000_0000;
    }
  }

  /** A signed and an unsigned number are equal exactly modulo 2^64; below 2^63 that is equality. */
  lemma NumbersEqual(x: int64, y: uint64)
    ensures Equal(Int(x), Uint(y)) <==> SameWord(x, y)
    ensures Equal(Uint(y), Int(x)) <==> SameWord(x, y)
    ensures y < TWO_63 ==> (Equal(Int(x), Uint(y)) <==> x == y)
  {
    hide Signed64;
    SignedIsSameWord(x, y);
    if y < TWO_63 && SameWord(x, y) {
      SmallWord(x - y);
    }
  }

  lemma SmallWord(d: int)
    requires -TWO_64 < d < TWO_64 && d % 0x1_0000_0000_0000_0000 == 0
    ensures d == 0
  {
  }

  lemma {:induction false} EqualReflexive(j: Json)
    ensures Equal(j, j)
  {
    match j
    case Array(x) =>
      forall i | 0 <= i < |x| ensures Equal(x[i], x[i]) {
        EqualReflexive(x[i]);
      }
    case Object(x) =>
      forall k | k in x ensures Equal(x[k], x[k]) {
        EqualReflexive(x[k]);
      }
    case _ =>
  }

  // ---------- the order of keys ----------

  /** operator< of strings. */
  predicate Less(a: string, b: string) {
    if b == "" then false
    else if a == "" then true
    else if a[0] != b[0] then a[0] < b[0]
    else Less(a[1..], b[1..])
  }

  lemma {:induction false} LessIrreflexive(a: string)
    ensures !Less(a, a)
  {
    if a != "" {
      LessIrreflexive(a[1..]);
    }
  }

  lemma {:induction false} LessTransitive(a: string, b: string, c: string)
    requires Less(a, b) && Less(b, c)
    ensures Less(a, c)
  {
    if a != "" && a[0] == b[0] && b[0] == c[0] {
      LessTransitive(a[1..], b[1..], c[1..]);
    }
  }

  lemma {:induction false} LessTotal(a: string, b: string)
    ensures a == b || Less(a, b) || Less(b, a)
  {
    if a != "" && b != "" && a[0] == b[0] {
      LessTotal(a[1..], b[1..]);
      assert a == [a[0]] + a[1..] && b == [b[0]] + b[1..];
    }
  }

  /** A common prefix does not matter. */
  lemma {:induction false} LessBehindPrefix(p: string, a: string, b: string)
    ensures Less(p + a, p + b) <==> Less(a, b)
  {
    if p == "" {
      assert p + a == a && p + b == b;
    } else {
      assert (p + a)[1..] == p[1..] + a && (p + b)[1..] == p[1..] + b;
      LessBehindPrefix(p[1..], a, b);
    }
  }

  predicate IsLeast(k: string, keys: set<string>) {
    k in keys && forall o :: o in keys ==> k == o || Less(k, o)
  }

  lemma {:induction false} LeastExists(keys: set<string>) returns (k: string)
    requires keys != {}
    ensures IsLeast(k, keys)
    decreases |keys|
  {
    k :| k in keys;
    if keys - {k} != {} {
      var least := LeastExists(keys - {k});
      LessTotal(k, least);
      if Less(least, k) {
        k := least;
      } else {
        forall o | o in keys && o != k ensures Less(k, o) {
          if o != least {
            LessTransitive(k, least, o);
          }
        }
      }
    }
  }

  lemma LeastUnique(k: string, o: string, keys: set<string>)
    requires IsLeast(k, keys) && IsLeast(o, keys)
    ensures k == o
  {
    if k != o {
      LessTransitive(k, o, k);
      LessIrreflexive(k);
    }
  }

  predicate Sorted(ks: seq<string>) {
    forall i, j :: 0 <= i < j < |ks| ==> Less(ks[i], ks[j])
  }

  ghost predicate Lists(ks: seq<string>, keys: set<string>) {
    forall k :: k in ks <==> k in keys
  }

  /** The order in which an object's members are visited. */
  function SortedKeys(keys: set<string>): (ks: seq<string>)
    ensures Sorted(ks) && Lists(ks, keys)
    decreases |keys|
  {
    if keys == {} then []
    else
      var k := Least(keys);
      var rest := SortedKeys(keys - {k});
      assert forall j :: 0 <= j < |rest| ==> rest[j] in rest && Less(k, rest[j]);
      [k] + rest
  }

  function Least(keys: set<string>): (k: string)
    requires keys != {}
    ensures IsLeast(k, keys)
  {
    assert exists k :: IsLeast(k, keys) by { var k := LeastExists(keys); }
    assert forall k, o :: IsLeast(k, keys) && IsLeast(o, keys) ==> k == o by {
      forall k, o | IsLeast(k, keys) && IsLeast(o, keys) ensures k == o {
        LeastUnique(k, o, keys);
      }
    }
    var k :| k in keys && IsLeast(k, keys);
    k
  }

  /** A set of keys has one sorted listing. */
  lemma {:induction false} SortedUnique(a: seq<string>, b: seq<string>)
    requires Sorted(a) && Sorted(b) && forall k :: k in a <==> k in b
    ensures a == b
    decreases |a|
  {
    if a == [] {
      if b != [] {
        HasMember(b);
      }
    } else {
      assert a[0] in b && b != [];
      assert b[0] in a;
      SameHead(a, b);
      SortedTail(a);
      SortedTail(b);
      SortedUnique(a[1..], b[1..]);
      assert a == [a[0]] + a[1..] && b == [b[0]] + b[1..];
    }
  }

  lemma HasMember(b: seq<string>)
    requires b != []
    ensures exists k :: k in b
  {
    assert b[0] in b;
  }

  lemma SameHead(a: seq<string>, b: seq<string>)
    requires Sorted(a) && Sorted(b) && a != [] && b != [] && a[0] in b && b[0] in a
    ensures a[0] == b[0]
  {
    if a[0] != b[0] {
      LessTransitive(a[0], b[0], a[0]);
      LessIrreflexive(a[0]);
    }
  }

  lemma SortedTail(a: seq<string>)
    requires Sorted(a) && a != []
    ensures Sorted(a[1..]) && forall k :: k in a[1..] <==> k in a && k != a[0]
  {
    forall k | k in a && k != a[0] ensures k in a[1..] {
      var i :| 0 <= i < |a| && a[i] == k;
      assert a[1..][i - 1] == k;
    }
    forall k | k in a[1..] ensures k in a && k != a[0] {
      var i :| 0 <= i < |a| - 1 && a[1..][i] == k;
      assert Less(a[0], a[i + 1]);
      LessIrreflexive(a[0]);
    }
  }
}
