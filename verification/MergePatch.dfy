/** merge_patch: RFC 7396. */
module MergePatch {
  import opened Json

  function MembersOf(j: Json): map<string, Json> {
    if j.Object? then j.members else map[]
  }

  /** RFC 7396, section 2, member by member: null removes, anything else is merged. */
  function Merge(target: Json, patch: Json): Json
    decreases patch
  {
    if !patch.Object? then patch
    else
      var t, p := MembersOf(target), patch.members;
      Object(map k | k in t.Keys + p.Keys && (k in p ==> !p[k].Null?) :: if k in p then Merge(Lookup(t, k), p[k]) else t[k])
  }

  /** Section 2 of RFC 7396: r is what merging the patch into the target leaves; an absent target is a null. */
  ghost predicate Rfc7396(target: Json, patch: Json, r: Json)
    decreases patch
  {
    if !patch.Object? then r == patch
    else
      && r.Object?
      && (forall k :: k !in patch.members ==>
            if target.Object? && k in target.members then k in r.members && r.members[k] == target.members[k]
            else k !in r.members)
      && forall k :: k in patch.members ==>
           if patch.members[k].Null? then k !in r.members
           else k in r.members
                && Rfc7396(if target.Object? && k in target.members then target.members[k] else Null, patch.members[k], r.members[k])
  }

  /** The merge is the one result that the RFC allows. */
  lemma {:induction false} MergeIsRfc7396(target: Json, patch: Json, r: Json)
    ensures Rfc7396(target, patch, r) <==> r == Merge(target, patch)
    decreases patch
  {
    if patch.Object? {
      var p, m, t := patch.members, Merge(target, patch).members, MembersOf(target);
      forall k | k in p && !p[k].Null?
        ensures k in m && Rfc7396(Lookup(t, k), p[k], m[k])
      {
        MergeIsRfc7396(Lookup(t, k), p[k], m[k]);
      }
      if Rfc7396(target, patch, r) {
        forall k | k in r.members
          ensures k in m && r.members[k] == m[k]
        {
          if k in p {
            MergeIsRfc7396(Lookup(t, k), p[k], r.members[k]);
          }
        }
        forall k | k in m ensures k in r.members {
          assert k in p || k in t;
        }
        assert r.members == m;
      }
    }
  }

  /** The target's members once the patch has been applied for all keys but these. */
  function MergedExcept(t: map<string, Json>, p: map<string, Json>, keys: set<string>): map<string, Json> {
    map k | k in t.Keys + p.Keys && (if k in p && k !in keys then !p[k].Null? else k in t)
      :: if k in p && k !in keys then Merge(Lookup(t, k), p[k]) else t[k]
  }

  lemma {:induction false} MergeOneMember(t: map<string, Json>, p: map<string, Json>, keys: set<string>, k: string)
    requires k in keys && keys <= p.Keys
    ensures var now := MergedExcept(t, p, keys);
            && Lookup(now, k) == Lookup(t, k)
            && MergedExcept(t, p, keys - {k}) == if p[k].Null? then now - {k} else now[k := Merge(Lookup(t, k), p[k])]
  {
    hide Merge;
  }

  /** The recursive method; the members of the patch are visited in an arbitrary order. */
  method MergeInPlace(target: Json, patch: Json) returns (result: Json)
    ensures result == Merge(target, patch)
    decreases patch
  {
    if !patch.Object? {
      return patch;
    }
    hide MergedExcept;
    var p := patch.members;
    var m := MembersOf(target);
    ghost var t := m;
    var keys := p.Keys;
    NothingMerged(t, p);
    while keys != {}
      invariant keys <= p.Keys && m == MergedExcept(t, p, keys)
      decreases |keys|
    {
      var k :| k in keys;
      MergeOneMember(t, p, keys, k);
      if p[k].Null? {
        m := m - {k};
      } else {
        var child := MergeInPlace(Lookup(m, k), p[k]);
        m := m[k := child];
      }
      keys := keys - {k};
    }
    AllMerged(target, patch);
    return Object(m);
  }

  lemma {:induction false} NothingMerged(t: map<string, Json>, p: map<string, Json>)
    ensures MergedExcept(t, p, p.Keys) == t
  {
  }

  lemma {:induction false} AllMerged(target: Json, patch: Json)
    requires patch.Object?
    ensures Object(MergedExcept(MembersOf(target), patch.members, {})) == Merge(target, patch)
  {
    var a, b := MergedExcept(MembersOf(target), patch.members, {}), Merge(target, patch).members;
    assert a.Keys == b.Keys;
    assert forall k :: k in a ==> a[k] == b[k];
  }

  /** Applying the same patch again changes nothing. */
  lemma {:induction false} MergeTwice(target: Json, patch: Json)
    ensures Merge(Merge(target, patch), patch) == Merge(target, patch)
    decreases patch
  {
    if patch.Object? {
      var p := patch.members;
      var once, t := Merge(target, patch).members, MembersOf(target);
      forall k | k in p && !p[k].Null?
        ensures k in once && Merge(once[k], p[k]) == once[k]
      {
        MergeTwice(Lookup(t, k), p[k]);
      }
      var twice := Merge(Merge(target, patch), patch).members;
      assert twice.Keys == once.Keys;
      assert forall k :: k in once ==> twice[k] == once[k];
    }
  }

  /** No member that the patch sets to null is left, and members that it does not name are untouched. */
  lemma {:induction false} MergeMembers(target: Json, patch: Json, key: string)
    requires patch.Object?
    ensures var r, t := Merge(target, patch).members, MembersOf(target);
            && (key in patch.members && patch.members[key].Null? ==> key !in r)
            && (key !in patch.members ==> (key in r <==> key in t) && (key in t ==> r[key] == t[key]))
  {
  }
}
