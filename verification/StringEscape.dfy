/** string_escape.hpp: the escaping of RFC 6901, sections 3 and 4, as two replacement passes. */
module StringEscape {
  import opened Wrappers

  // ---------- replace_substring ----------

  predicate OccursAt(s: string, f: string, pos: nat) {
    pos + |f| <= |s| && s[pos..pos + |f|] == f
  }

  /** Every occurrence of f replaced by t, scanning once from the left. */
  function ReplaceAll(s: string, f: string, t: string): string
    requires f != []
    decreases |s|
  {
    if |s| < |f| then s
    else if OccursAt(s, f, 0) then t + ReplaceAll(s[|f|..], f, t)
    else [s[0]] + ReplaceAll(s[1..], f, t)
  }

  /** std::string::find. */
  method Find(s: string, f: string, from: nat) returns (pos: Option<nat>)
    requires f != []
    ensures NextFound(s, f, from, pos)
  {
    var p := from;
    while p + |f| <= |s|
      invariant from <= p
      invariant forall q :: from <= q < p ==> !OccursAt(s, f, q)
      decreases |s| - p
    {
      if s[p..p + |f|] == f {
        return Some(p);
      }
      p := p + 1;
    }
    return None;
  }

  /** Up to the first occurrence the text is copied; then the scan goes on behind it. */
  lemma {:induction false} ReplaceFrom(s: string, f: string, t: string, from: nat, p: nat)
    requires f != [] && from <= p && OccursAt(s, f, p) && forall q :: from <= q < p ==> !OccursAt(s, f, q)
    ensures ReplaceAll(s[from..], f, t) == s[from..p] + t + ReplaceAll(s[p + |f|..], f, t)
    decreases p - from
  {
    hide ReplaceAll, OccursAt;
    OccursLater(s, f, from, p);
    ReplaceOne(s[from..], f, t);
    if from == p {
      assert s[from..][|f|..] == s[p + |f|..];
      assert s[from..p] == [];
    } else {
      assert s[from..][1..] == s[from + 1..] && s[from..][0] == s[from];
      ReplaceFrom(s, f, t, from + 1, p);
      assert s[from..p] == [s[from]] + s[from + 1..p];
    }
  }

  lemma OccursLater(s: string, f: string, from: nat, p: nat)
    requires from <= p && OccursAt(s, f, p)
    ensures p + |f| <= |s|
    ensures |f| <= |s[from..]| && (OccursAt(s[from..], f, 0) <==> OccursAt(s, f, from))
  {
    assert s[from..][..|f|] == s[from..from + |f|];
  }

  lemma ReplaceOne(s: string, f: string, t: string)
    requires f != [] && |f| <= |s|
    ensures ReplaceAll(s, f, t) ==
            if OccursAt(s, f, 0) then t + ReplaceAll(s[|f|..], f, t) else [s[0]] + ReplaceAll(s[1..], f, t)
  {
    hide OccursAt;
  }

  lemma {:induction false} NothingToReplace(s: string, f: string, t: string, from: nat)
    requires f != [] && from <= |s| && forall q :: from <= q ==> !OccursAt(s, f, q)
    ensures ReplaceAll(s[from..], f, t) == s[from..]
    decreases |s| - from
  {
    var rest := s[from..];
    if |rest| >= |f| {
      assert !OccursAt(s, f, from);
      assert rest[..|f|] == s[from..from + |f|];
      assert !OccursAt(rest, f, 0);
      assert rest[1..] == s[from + 1..];
      NothingToReplace(s, f, t, from + 1);
      assert rest == [rest[0]] + rest[1..];
    }
  }

  ghost predicate NextFound(s: string, f: string, from: nat, pos: Option<nat>)
    requires f != []
  {
    match pos
    case Some(p) => from <= p && OccursAt(s, f, p) && forall q :: from <= q < p ==> !OccursAt(s, f, q)
    case None => forall q :: from <= q ==> !OccursAt(s, f, q)
  }

  /** What is still to come of the result, when the text before `from` is final. */
  function Pending(s: string, f: string, t: string, from: nat): string
    requires f != [] && from <= |s|
  {
    s[..from] + ReplaceAll(s[from..], f, t)
  }

  lemma PendingStep(s: string, f: string, t: string, from: nat, p: nat)
    requires f != [] && from <= |s| && NextFound(s, f, from, Some(p))
    ensures Pending(s[..p] + t + s[p + |f|..], f, t, p + |t|) == Pending(s, f, t, from)
  {
    hide ReplaceAll, OccursAt;
    OccursLater(s, f, p, p);
    ReplaceFrom(s, f, t, from, p);
    var s' := s[..p] + t + s[p + |f|..];
    assert s'[p + |t|..] == s[p + |f|..];
    assert s'[..p + |t|] == s[..from] + s[from..p] + t;
  }

  lemma PendingDone(s: string, f: string, t: string, from: nat)
    requires f != [] && from <= |s| && NextFound(s, f, from, None)
    ensures Pending(s, f, t, from) == s
  {
    NothingToReplace(s, f, t, from);
  }

  lemma PendingStart(s: string, f: string, t: string)
    requires f != []
    ensures Pending(s, f, t, 0) == ReplaceAll(s, f, t)
  {
    assert s[0..] == s;
  }

  /** replace_substring: find, replace, and go on behind what was put in. */
  method ReplaceSubstring(str: string, f: string, t: string) returns (s: string)
    requires f != []
    ensures s == ReplaceAll(str, f, t)
  {
    hide ReplaceAll, Pending;
    s := str;
    ghost var from: nat := 0;
    PendingStart(s, f, t);
    var pos := Find(s, f, 0);
    while pos.Some?
      invariant from <= |s| && Pending(s, f, t, from) == ReplaceAll(str, f, t) && NextFound(s, f, from, pos)
      decreases |s| - from, if pos.Some? then 1 else 0
    {
      var p := pos.value;
      PendingStep(s, f, t, from, p);
      s := s[..p] + t + s[p + |f|..];
      from := p + |t|;
      pos := Find(s, f, p + |t|);
    }
    PendingDone(s, f, t, from);
  }

  // ---------- escape and unescape ----------

  function Escape(s: string): string {
    ReplaceAll(ReplaceAll(s, "~", "~0"), "/", "~1")
  }

  function Unescape(s: string): string {
    ReplaceAll(ReplaceAll(s, "~1", "/"), "~0", "~")
  }

  method EscapeInPlace(str: string) returns (s: string)
    ensures s == Escape(str)
  {
    s := ReplaceSubstring(str, "~", "~0");
    s := ReplaceSubstring(s, "/", "~1");
  }

  method UnescapeInPlace(str: string) returns (s: string)
    ensures s == Unescape(str)
  {
    s := ReplaceSubstring(str, "~1", "/");
    s := ReplaceSubstring(s, "~0", "~");
  }

  /** The escape of one character, as RFC 6901 gives it. */
  function EscapeChar(c: char): string {
    if c == '~' then "~0" else if c == '/' then "~1" else [c]
  }

  /** The character map of RFC 6901, section 3. */
  function EscapeChars(s: string): string {
    if s == "" then "" else EscapeChar(s[0]) + EscapeChars(s[1..])
  }

  /** Its inverse in one pass, section 4; anything that is not an escape is copied. */
  function UnescapeChars(s: string): string
    decreases |s|
  {
    if s == "" then ""
    else if |s| >= 2 && s[0] == '~' && s[1] == '0' then "~" + UnescapeChars(s[2..])
    else if |s| >= 2 && s[0] == '~' && s[1] == '1' then "/" + UnescapeChars(s[2..])
    else [s[0]] + UnescapeChars(s[1..])
  }

  predicate EscapedAt(s: string, i: nat)
    requires i < |s|
  {
    s[i] != '/' && (s[i] == '~' ==> i + 1 < |s| && (s[i + 1] == '0' || s[i + 1] == '1'))
  }

  /** Every ~ is followed by 0 or 1, and no slash is left: the reference tokens of a pointer. */
  predicate WellEscaped(s: string) {
    forall i :: 0 <= i < |s| ==> EscapedAt(s, i)
  }

  // ---------- the two passes are the one-pass map ----------

  lemma {:induction false} EscapePasses(s: string)
    ensures Escape(s) == EscapeChars(s)
  {
    if s != "" {
      var tilde := ReplaceAll(s[1..], "~", "~0");
      EscapePasses(s[1..]);
      assert s[..1] == [s[0]];
      if s[0] == '~' {
        assert OccursAt(s, "~", 0);
        assert ReplaceAll(s, "~", "~0") == "~0" + tilde;
        SkipChar("~0" + tilde, "/", "~1");
        assert ("~0" + tilde)[1..] == "0" + tilde;
        SkipChar("0" + tilde, "/", "~1");
        assert ("0" + tilde)[1..] == tilde;
      } else {
        SkipChar(s, "~", "~0");
        var once := [s[0]] + tilde;
        assert once[1..] == tilde && once[..1] == [s[0]];
        if s[0] == '/' {
          assert OccursAt(once, "/", 0);
        } else {
          SkipChar(once, "/", "~1");
        }
      }
    }
  }

  lemma SkipChar(s: string, f: string, t: string)
    requires s != "" && f != "" && s[0] != f[0]
    ensures ReplaceAll(s, f, t) == [s[0]] + ReplaceAll(s[1..], f, t)
  {
    if |s| >= |f| {
      assert s[..|f|][0] == s[0];
      assert !OccursAt(s, f, 0);
    } else {
      assert s == [s[0]] + s[1..];
    }
  }

  lemma SkipPair(s: string, f: string, t: string)
    requires |s| >= 1 && |f| == 2 && (|s| >= 2 ==> s[1] != f[1])
    ensures ReplaceAll(s, f, t) == [s[0]] + ReplaceAll(s[1..], f, t)
  {
    if |s| >= 2 {
      assert s[..2][1] == s[1];
      assert !OccursAt(s, f, 0);
    } else {
      assert s == [s[0]] + s[1..];
    }
  }

  lemma TakePair(s: string, f: string, t: string)
    requires |s| >= 2 && |f| == 2 && s[0] == f[0] && s[1] == f[1]
    ensures ReplaceAll(s, f, t) == t + ReplaceAll(s[2..], f, t)
  {
    assert s[..2] == f;
    assert OccursAt(s, f, 0);
  }

  /** For every string, also one that is not properly escaped. */
  lemma {:induction false} UnescapePasses(s: string)
    ensures Unescape(s) == UnescapeChars(s)
    decreases |s|
  {
    if s == "" {
    } else if |s| >= 2 && s[0] == '~' && s[1] == '1' {
      UnescapePasses(s[2..]);
      TakePair(s, "~1", "/");
      var once := "/" + ReplaceAll(s[2..], "~1", "/");
      SkipChar(once, "~0", "~");
      assert once[1..] == ReplaceAll(s[2..], "~1", "/");
    } else {
      UnescapePasses(s[1..]);
      SkipEscape(s);
      var rest := ReplaceAll(s[1..], "~1", "/");
      var once := [s[0]] + rest;
      assert once[1..] == rest;
      if |s| >= 2 && s[0] == '~' && s[1] == '0' {
        UnescapePasses(s[2..]);
        SkipChar(s[1..], "~1", "/");
        assert s[1..][1..] == s[2..];
        var last := ReplaceAll(s[2..], "~1", "/");
        assert rest == "0" + last;
        TakePair(once, "~0", "~");
        assert once[2..] == last;
      } else if s[0] == '~' {
        FirstAfterPass(s[1..]);
        SkipPair(once, "~0", "~");
      } else {
        SkipChar(once, "~0", "~");
      }
    }
  }

  lemma SkipEscape(s: string)
    requires s != "" && !(|s| >= 2 && s[0] == '~' && s[1] == '1')
    ensures ReplaceAll(s, "~1", "/") == [s[0]] + ReplaceAll(s[1..], "~1", "/")
  {
    if s[0] != '~' {
      SkipChar(s, "~1", "/");
    } else {
      SkipPair(s, "~1", "/");
    }
  }

  /** The first pass does not bring a 0 to the front. */
  lemma FirstAfterPass(s: string)
    ensures var r := ReplaceAll(s, "~1", "/");
            r != "" && r[0] == '0' ==> s != "" && s[0] == '0'
  {
    if s != "" {
      if |s| >= 2 && s[0] == '~' && s[1] == '1' {
        TakePair(s, "~1", "/");
      } else {
        SkipEscape(s);
      }
    }
  }

  // ---------- round trips ----------

  /** Unescaping undoes escaping, for every string; and the escaped string can stand between slashes. */
  lemma {:induction false} UnescapeEscape(s: string)
    ensures UnescapeChars(EscapeChars(s)) == s && WellEscaped(EscapeChars(s))
  {
    if s != "" {
      UnescapeEscape(s[1..]);
      var rest := EscapeChars(s[1..]);
      var n := |EscapeChar(s[0])|;
      assert EscapeChars(s)[n..] == rest;
      WellEscapedTail(EscapeChars(s), n);
    }
  }

  /** Escaping undoes unescaping exactly for the properly escaped strings. */
  lemma {:induction false} EscapeUnescape(s: string)
    ensures EscapeChars(UnescapeChars(s)) == s <==> WellEscaped(s)
    decreases |s|
  {
    if s == "" {
    } else if |s| >= 2 && s[0] == '~' && (s[1] == '0' || s[1] == '1') {
      EscapeUnescape(s[2..]);
      var u := UnescapeChars(s[2..]);
      assert ("~" + u)[1..] == u && ("/" + u)[1..] == u;
      assert s == s[..2] + s[2..];
      assert EscapeChars(UnescapeChars(s)) == s[..2] + EscapeChars(u);
      WellEscapedTail(s, 2);
    } else {
      EscapeUnescape(s[1..]);
      var u := UnescapeChars(s[1..]);
      assert ([s[0]] + u)[1..] == u;
      assert EscapeChars(UnescapeChars(s)) == EscapeChar(s[0]) + EscapeChars(u);
      if s[0] == '~' || s[0] == '/' {
        assert !EscapedAt(s, 0);
      } else {
        assert s == [s[0]] + s[1..];
        WellEscapedTail(s, 1);
      }
    }
  }

  /** An escape, or a character that needs none, in front changes nothing. */
  lemma WellEscapedTail(s: string, n: nat)
    requires n <= |s| && (n == 1 || n == 2)
    requires if n == 1 then s[0] != '~' && s[0] != '/' else s[0] == '~' && (s[1] == '0' || s[1] == '1')
    ensures WellEscaped(s) <==> WellEscaped(s[n..])
  {
    var t := s[n..];
    assert forall i :: 0 <= i < |t| ==> EscapedAt(t, i) == EscapedAt(s, i + n);
    if WellEscaped(t) {
      forall i | 0 <= i < |s|
        ensures EscapedAt(s, i)
      {
        if i >= n {
          assert EscapedAt(t, i - n);
        }
      }
    }
  }
}
