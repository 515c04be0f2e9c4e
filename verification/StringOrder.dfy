/** The order behind the string pool: memcmp on the common prefix, then the length (buffer.h). */
module StringOrder {
  import opened Bytes

  /** memcmp over two blocks of the same length: negative, zero or positive. */
  function MemCmp(a: seq<byte>, b: seq<byte>): int
    requires |a| == |b|
  {
    if a == [] then 0 else if a[0] != b[0] then a[0] - b[0] else MemCmp(a[1..], b[1..])
  }

  predicate StringLessThan(a: seq<byte>, b: seq<byte>)
  {
    var n := if |a| < |b| then |a| else |b|;
    var cmp := MemCmp(a[..n], b[..n]);
    if cmp == 0 then |a| < |b| else cmp < 0
  }

  lemma {:induction false} MemCmpZero(a: seq<byte>, b: seq<byte>)
    requires |a| == |b|
    ensures MemCmp(a, b) == 0 <==> a == b
  {
    if a != [] {
      MemCmpZero(a[1..], b[1..]);
      assert a == [a[0]] + a[1..] && b == [b[0]] + b[1..];
    }
  }

  /** The strings agree on their first n bytes; then the first one ends, or has the smaller byte. */
  predicate LessFrom(a: seq<byte>, b: seq<byte>, n: nat) {
    && n <= |a| && n < |b| && a[..n] == b[..n]
    && (n == |a| || a[n] < b[n])
  }

  /** The order is the lexicographic one on bytes. */
  lemma {:induction false} LessIsLexicographic(a: seq<byte>, b: seq<byte>)
    ensures StringLessThan(a, b) <==> exists n: nat :: LessFrom(a, b, n)
  {
    if a == [] || b == [] {
      assert b != [] ==> LessFrom([], b, 0);
    } else {
      LessTail(a, b);
      LessIsLexicographic(a[1..], b[1..]);
      hide StringLessThan;
      assert a[0] < b[0] ==> LessFrom(a, b, 0);
      if a[0] == b[0] && StringLessThan(a[1..], b[1..]) {
        var n: nat :| LessFrom(a[1..], b[1..], n);
        assert a[..n + 1] == [a[0]] + a[1..][..n] && b[..n + 1] == [b[0]] + b[1..][..n];
        assert LessFrom(a, b, n + 1);
      }
      if n: nat :| LessFrom(a, b, n) && n > 0 {
        assert a[..n][0] == b[..n][0];
        assert a[1..][..n - 1] == a[..n][1..] && b[1..][..n - 1] == b[..n][1..];
        assert LessFrom(a[1..], b[1..], n - 1);
      }
    }
  }

  /** Peeling one equal byte off both strings keeps their order. */
  lemma LessTail(a: seq<byte>, b: seq<byte>)
    requires a != [] && b != []
    ensures StringLessThan(a, b) <==> a[0] < b[0] || (a[0] == b[0] && StringLessThan(a[1..], b[1..]))
  {
    var n := if |a| < |b| then |a| else |b|;
    assert a[..n][1..] == a[1..][..n - 1] && b[..n][1..] == b[1..][..n - 1];
  }

  /** Two strings are equivalent in the pool's order exactly when they are byte-equal. */
  lemma {:induction false} EquivalentIsEqual(a: seq<byte>, b: seq<byte>)
    ensures !StringLessThan(a, b) && !StringLessThan(b, a) <==> a == b
  {
    var n := if |a| < |b| then |a| else |b|;
    MemCmpZero(a[..n], b[..n]);
    MemCmpZero(b[..n], a[..n]);
    MemCmpAntisymmetric(a[..n], b[..n]);
    if |a| == |b| {
      assert a[..n] == a && b[..n] == b;
    }
  }

  lemma {:induction false} MemCmpAntisymmetric(a: seq<byte>, b: seq<byte>)
    requires |a| == |b|
    ensures MemCmp(a, b) == -MemCmp(b, a)
  {
    if a != [] {
      MemCmpAntisymmetric(a[1..], b[1..]);
    }
  }

  /** The order is transitive; with EquivalentIsEqual it is a strict total order. */
  lemma {:induction false} LessTransitive(a: seq<byte>, b: seq<byte>, c: seq<byte>)
    requires StringLessThan(a, b) && StringLessThan(b, c)
    ensures StringLessThan(a, c)
  {
    if a == [] {
    } else {
      LessTail(a, b);
      LessTail(b, c);
      LessTail(a, c);
      if a[0] == b[0] == c[0] {
        LessTransitive(a[1..], b[1..], c[1..]);
      }
    }
  }
}
