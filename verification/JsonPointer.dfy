/** json_pointer.hpp: parsing and printing of pointers, array indices, and checked access. */
module JsonPointer {
  import opened Wrappers
  import opened Bytes
  import opened StringEscape
  import opened Json

  /** The exceptions of the library, with their numbers; AssertionFailed is JSON_ASSERT. */
  datatype Error =
    | ParseError(id: nat)
    | TypeError(id: nat)
    | OutOfRange(id: nat)
    | OtherError(id: nat)
    | AssertionFailed

  // ---------- array indices ----------

  predicate Digit(c: char) {
    '0' <= c <= '9'
  }

  predicate AllDigits(s: string) {
    forall i :: 0 <= i < |s| ==> Digit(s[i])
  }

  function DigitValue(c: char): (d: nat)
    requires Digit(c)
    ensures d < 10
  {
    c as int - '0' as int
  }

  function DigitChar(d: nat): (c: char)
    requires d < 10
    ensures Digit(c) && DigitValue(c) == d
  {
    (d + '0' as int) as char
  }

  function Decimal(s: string): nat
    requires AllDigits(s)
    decreases |s|
  {
    if s == "" then 0 else 10 * Decimal(s[..|s| - 1]) + DigitValue(s[|s| - 1])
  }

  /** std::to_string of an index. */
  function IndexToken(i: nat): (s: string)
    ensures s != "" && AllDigits(s)
  {
    if i < 10 then [DigitChar(i)] else IndexToken(i / 10) + [DigitChar(i % 10)]
  }

  const SIZE_MAX := TWO_64 - 1

  /** array_index: no leading zero, digits only, and smaller than the largest size. */
  function ArrayIndex(s: string): Result<nat, Error> {
    if |s| > 1 && s[0] == '0' then Err(ParseError(106))
    else if |s| > 1 && !('1' <= s[0] <= '9') then Err(ParseError(109))
    else if s == "" || !AllDigits(s) || Decimal(s) >= TWO_64 then Err(OutOfRange(404))
    else if Decimal(s) >= SIZE_MAX then Err(OutOfRange(410))
    else Ok(Decimal(s))
  }

  lemma {:induction false} DecimalOfToken(i: nat)
    ensures Decimal(IndexToken(i)) == i
    ensures |IndexToken(i)| > 1 ==> '1' <= IndexToken(i)[0] <= '9'
    ensures i > 0 ==> IndexToken(i)[0] != '0'
  {
    var s := IndexToken(i);
    if i < 10 {
      assert s[..0] == "";
    } else {
      DecimalOfToken(i / 10);
      assert s[..|s| - 1] == IndexToken(i / 10);
    }
  }

  lemma {:induction false} TokenOfDecimal(s: string)
    requires s != "" && AllDigits(s) && (|s| > 1 ==> s[0] != '0')
    ensures s == IndexToken(Decimal(s))
    ensures |s| > 1 ==> Decimal(s) >= 10
    decreases |s|
  {
    var front, last := s[..|s| - 1], s[|s| - 1];
    assert s == front + [last];
    if front == "" {
      assert Decimal(front) == 0;
    } else {
      TokenOfDecimal(front);
      assert Decimal(front) >= 1 by {
        if |front| == 1 {
          assert front[..0] == "";
        }
      }
      assert Decimal(s) / 10 == Decimal(front) && Decimal(s) % 10 == DigitValue(last);
    }
  }

  /** The accepted index tokens are exactly the printed indices. */
  lemma ArrayIndexAccepts(s: string, i: nat)
    ensures ArrayIndex(s) == Ok(i) <==> s == IndexToken(i) && i < SIZE_MAX
  {
    DecimalOfToken(i);
    if ArrayIndex(s) == Ok(i) {
      TokenOfDecimal(s);
    }
  }

  /** An index token contains nothing to escape. */
  lemma {:induction false} DigitsNeedNoEscape(s: string)
    requires AllDigits(s)
    ensures EscapeChars(s) == s
  {
    if s != "" {
      DigitsNeedNoEscape(s[1..]);
      assert s == [s[0]] + s[1..];
    }
  }

  lemma IndexTokenNeedsNoEscape(i: nat)
    ensures Escape(IndexToken(i)) == IndexToken(i)
  {
    EscapePasses(IndexToken(i));
    DigitsNeedNoEscape(IndexToken(i));
  }

  // ---------- printing and parsing ----------

  /** to_string. */
  function ToString(tokens: seq<string>): string
    decreases |tokens|
  {
    if tokens == [] then "" else ToString(tokens[..|tokens| - 1]) + "/" + Escape(tokens[|tokens| - 1])
  }

  /** The parts of s between its slashes. */
  function Parts(s: string): (parts: seq<string>)
    ensures parts != []
  {
    if s == "" then [""]
    else
      var rest := Parts(s[1..]);
      if s[0] == '/' then [""] + rest else [[s[0]] + rest[0]] + rest[1..]
  }

  predicate TildesOk(s: string) {
    forall i :: 0 <= i < |s| && s[i] == '~' ==> i + 1 < |s| && (s[i + 1] == '0' || s[i + 1] == '1')
  }

  function UnescapeAll(parts: seq<string>): (tokens: seq<string>)
    ensures |tokens| == |parts|
  {
    if parts == [] then [] else [Unescape(parts[0])] + UnescapeAll(parts[1..])
  }

  /** split: the reference tokens of a pointer. */
  function Split(s: string): Result<seq<string>, Error> {
    if s == "" then Ok([])
    else if s[0] != '/' then Err(ParseError(107))
    else if forall p <- Parts(s[1..]) :: TildesOk(p) then Ok(UnescapeAll(Parts(s[1..])))
    else Err(ParseError(108))
  }

  // ---------- round trips ----------

  /** to_string in the other direction, one token at a time from the front. */
  function Printed(tokens: seq<string>): string {
    if tokens == [] then "" else "/" + Escape(tokens[0]) + Printed(tokens[1..])
  }

  lemma {:induction false} ToStringIsPrinted(tokens: seq<string>)
    ensures ToString(tokens) == Printed(tokens)
    decreases |tokens|
  {
    hide Escape;
    if |tokens| >= 1 {
      var n := |tokens| - 1;
      if n == 0 {
        assert tokens[..0] == [] && tokens[1..] == [];
      } else {
        ToStringIsPrinted(tokens[..n]);
        assert tokens[..n][1..] == tokens[1..][..n - 1];
        ToStringIsPrinted(tokens[1..]);
        ToStringIsPrinted(tokens[1..n]);
        assert tokens[..n][1..] == tokens[1..n] == tokens[1..][..n - 1];
      }
    }
  }

  /** Joins parts with slashes. */
  function Join(parts: seq<string>): string
    requires parts != []
  {
    if |parts| == 1 then parts[0] else parts[0] + "/" + Join(parts[1..])
  }

  lemma JoinOne(part: string)
    ensures Join([part]) == part
  {}

  lemma JoinLonger(part: string, rest: seq<string>)
    requires rest != []
    ensures Join([part] + rest) == part + "/" + Join(rest)
  {
    assert ([part] + rest)[1..] == rest;
  }

  lemma JoinWidened(c: char, parts: seq<string>)
    requires parts != []
    ensures Join([[c] + parts[0]] + parts[1..]) == [c] + Join(parts)
  {
    hide Join;
    var part, rest := parts[0], parts[1..];
    assert parts == [part] + rest;
    if rest == [] {
      assert parts == [part] && [[c] + part] + rest == [[c] + part];
      JoinOne(part);
      JoinOne([c] + part);
    } else {
      JoinLonger(part, rest);
      JoinLonger([c] + part, rest);
      Regroup([c], part, "/", Join(rest));
    }
  }

  lemma Regroup(a: string, b: string, c: string, d: string)
    ensures a + b + c + d == a + (b + c + d)
  {}

  lemma {:induction false} JoinParts(s: string)
    ensures Join(Parts(s)) == s
  {
    hide Join;
    if s == "" {
      JoinOne("");
    } else {
      JoinParts(s[1..]);
      JoinLonger("", Parts(s[1..]));
      JoinWidened(s[0], Parts(s[1..]));
      assert s == [s[0]] + s[1..];
    }
  }

  lemma {:induction false} PartsHoldNoSlash(s: string)
    ensures forall p <- Parts(s) :: '/' !in p
  {
    if s != "" {
      PartsHoldNoSlash(s[1..]);
    }
  }

  /** Cutting at slashes undoes joining parts that contain none. */
  lemma {:induction false} PartsJoin(parts: seq<string>)
    requires parts != [] && forall p <- parts :: '/' !in p
    ensures Parts(Join(parts)) == parts
  {
    if |parts| == 1 {
      PartsOfOne(parts[0]);
    } else {
      PartsJoin(parts[1..]);
      PartsOfTwo(parts[0], Join(parts[1..]));
      assert parts == [parts[0]] + parts[1..];
    }
  }

  lemma {:induction false} PartsOfOne(s: string)
    requires '/' !in s
    ensures Parts(s) == [s]
  {
    if s != "" {
      PartsOfOne(s[1..]);
      assert s == [s[0]] + s[1..];
    }
  }

  lemma {:induction false} PartsOfTwo(a: string, b: string)
    requires '/' !in a
    ensures Parts(a + "/" + b) == [a] + Parts(b)
  {
    var s := a + "/" + b;
    if a == "" {
      assert s[1..] == b;
    } else {
      assert s[1..] == a[1..] + "/" + b;
      PartsOfTwo(a[1..], b);
      assert a == [a[0]] + a[1..];
    }
  }

  function EscapeAll(tokens: seq<string>): (parts: seq<string>)
    ensures |parts| == |tokens|
    ensures forall i :: 0 <= i < |tokens| ==> parts[i] == Escape(tokens[i])
  {
    if tokens == [] then [] else [Escape(tokens[0])] + EscapeAll(tokens[1..])
  }

  lemma {:induction false} PrintedIsJoined(tokens: seq<string>)
    requires tokens != []
    ensures Printed(tokens) == "/" + Join(EscapeAll(tokens))
  {
    hide Escape;
    var parts := EscapeAll(tokens);
    if |tokens| == 1 {
      assert Printed(tokens[1..]) == "";
    } else {
      PrintedIsJoined(tokens[1..]);
      assert parts[1..] == EscapeAll(tokens[1..]);
    }
  }

  lemma EscapedPart(t: string)
    ensures '/' !in Escape(t) && TildesOk(Escape(t)) && Unescape(Escape(t)) == t
  {
    EscapePasses(t);
    UnescapeEscape(t);
    UnescapePasses(Escape(t));
    WellEscapedMeans(Escape(t));
  }

  lemma UnescapedAt(s: string, i: nat)
    requires i < |s| && !EscapedAt(s, i)
    ensures '/' in s || !TildesOk(s)
  {
    if s[i] != '/' {
      assert s[i] == '~';
    }
  }

  lemma WellEscapedMeans(s: string)
    ensures WellEscaped(s) <==> '/' !in s && TildesOk(s)
  {
    if WellEscaped(s) {
      forall i | 0 <= i < |s|
        ensures s[i] != '/'
      {
        assert EscapedAt(s, i);
      }
      forall i | 0 <= i < |s| && s[i] == '~'
        ensures i + 1 < |s| && (s[i + 1] == '0' || s[i + 1] == '1')
      {
        assert EscapedAt(s, i);
      }
    } else {
      var i :| 0 <= i < |s| && !EscapedAt(s, i);
      UnescapedAt(s, i);
    }
  }

  lemma {:induction false} UnescapeEscapeAll(tokens: seq<string>)
    ensures UnescapeAll(EscapeAll(tokens)) == tokens
    ensures forall p <- EscapeAll(tokens) :: '/' !in p && TildesOk(p)
  {
    if tokens != [] {
      hide Escape, Unescape;
      EscapedPart(tokens[0]);
      UnescapeEscapeAll(tokens[1..]);
      assert EscapeAll(tokens)[1..] == EscapeAll(tokens[1..]);
      assert tokens == [tokens[0]] + tokens[1..];
    }
  }

  /** Parsing undoes printing, for every list of tokens. */
  lemma SplitToString(tokens: seq<string>)
    ensures Split(ToString(tokens)) == Ok(tokens)
  {
    hide Escape, Unescape, Join, EscapeAll, UnescapeAll;
    ToStringIsPrinted(tokens);
    if tokens != [] {
      PrintedIsJoined(tokens);
      UnescapeEscapeAll(tokens);
      PartsJoin(EscapeAll(tokens));
      assert ("/" + Join(EscapeAll(tokens)))[1..] == Join(EscapeAll(tokens));
    }
  }

  lemma EscapeUnescapeToken(p: string)
    requires WellEscaped(p)
    ensures Escape(Unescape(p)) == p
  {
    hide Escape, Unescape, WellEscaped, EscapeChars, UnescapeChars;
    UnescapePasses(p);
    EscapePasses(Unescape(p));
    EscapeUnescape(p);
  }

  lemma {:induction false} EscapeUnescapeAll(parts: seq<string>)
    requires forall p <- parts :: '/' !in p && TildesOk(p)
    ensures EscapeAll(UnescapeAll(parts)) == parts
  {
    hide Escape, Unescape, TildesOk, WellEscaped;
    if parts != [] {
      var p := parts[0];
      WellEscapedMeans(p);
      EscapeUnescapeToken(p);
      EscapeUnescapeAll(parts[1..]);
      assert UnescapeAll(parts)[1..] == UnescapeAll(parts[1..]);
      assert parts == [p] + parts[1..];
    }
  }

  /** Printing undoes parsing, for every string that parses. */
  lemma ToStringSplit(s: string)
    requires Split(s).Ok?
    ensures ToString(Split(s).value) == s
  {
    hide Escape, Unescape, Join, EscapeAll, UnescapeAll;
    if s != "" {
      var parts, tokens := Parts(s[1..]), Split(s).value;
      JoinParts(s[1..]);
      PartsHoldNoSlash(s[1..]);
      EscapeUnescapeAll(parts);
      ToStringIsPrinted(tokens);
      PrintedIsJoined(tokens);
      assert s == "/" + s[1..];
    }
  }

  /** The strings that parse are exactly the printed pointers. */
  lemma SplitAccepts(s: string)
    ensures Split(s).Ok? <==> exists tokens :: s == ToString(tokens)
  {
    if Split(s).Ok? {
      ToStringSplit(s);
    }
    if tokens :| s == ToString(tokens) {
      SplitToString(tokens);
    }
  }

  // ---------- split as a loop ----------

  /** The first c from there on, if there is one. */
  ghost predicate NextChar(s: string, c: char, from: nat, pos: Option<nat>)
    requires from <= |s|
  {
    match pos
    case Some(p) => from <= p < |s| && s[p] == c && c !in s[from..p]
    case None => c !in s[from..]
  }

  /** find_first_of for one character. */
  method FindChar(s: string, c: char, from: nat) returns (pos: Option<nat>)
    requires from <= |s|
    ensures NextChar(s, c, from, pos)
  {
    var p := from;
    while p < |s|
      invariant from <= p <= |s| && c !in s[from..p]
    {
      if s[p] == c {
        return Some(p);
      }
      assert s[from..p + 1] == s[from..p] + [s[p]];
      p := p + 1;
    }
    assert s[from..p] == s[from..];
    return None;
  }

  /** The inner loop: every tilde must be followed by 0 or 1. */
  method TildesChecked(token: string) returns (ok: bool)
    ensures ok == TildesOk(token)
  {
    var pos := FindChar(token, '~', 0);
    while pos.Some?
      invariant match pos
                case Some(p) => p < |token| && token[p] == '~' && forall i :: 0 <= i < p && token[i] == '~' ==> EscapedAt(token, i)
                case None => forall i :: 0 <= i < |token| && token[i] == '~' ==> EscapedAt(token, i)
      decreases if pos.Some? then |token| - pos.value else 0
    {
      var p := pos.value;
      if p == |token| - 1 || (token[p + 1] != '0' && token[p + 1] != '1') {
        return false;
      }
      pos := FindChar(token, '~', p + 1);
      assert forall i :: p + 1 <= i < (if pos.Some? then pos.value else |token|) ==>
        token[i] == token[p + 1..][i - (p + 1)];
      assert pos.Some? ==> forall i :: p + 1 <= i < pos.value ==> token[i] in token[p + 1..pos.value];
    }
    assert forall i :: 0 <= i < |token| && token[i] == '~' ==> EscapedAt(token, i);
    return true;
  }

  lemma {:induction false} UnescapeAllAppend(parts: seq<string>, p: string)
    ensures UnescapeAll(parts + [p]) == UnescapeAll(parts) + [Unescape(p)]
  {
    if parts == [] {
      assert [p][1..] == [];
    } else {
      assert (parts + [p])[1..] == parts[1..] + [p];
      UnescapeAllAppend(parts[1..], p);
    }
  }

  /** The text of the token that begins at `start`. */
  function TokenText(s: string, start: nat, slash: Option<nat>): string
    requires start <= |s| && (slash.Some? ==> start <= slash.value <= |s|)
  {
    if slash.Some? then s[start..slash.value] else s[start..]
  }

  /** The part that begins at `start` ends at the next slash. */
  lemma NextPart(s: string, start: nat, slash: Option<nat>)
    requires start <= |s| && NextChar(s, '/', start, slash)
    ensures Parts(s[start..]) == [TokenText(s, start, slash)] + if slash.Some? then Parts(s[slash.value + 1..]) else []
  {
    hide Parts;
    match slash
    case Some(p) =>
      CutAtSlash(s, start, p);
      PartsOfTwo(s[start..p], s[p + 1..]);
    case None =>
      PartsOfOne(s[start..]);
  }

  lemma CutAtSlash(s: string, start: nat, p: nat)
    requires start <= p < |s| && s[p] == '/'
    ensures s[start..] == s[start..p] + "/" + s[p + 1..]
  {}

  /** The parts done so far are fine, and the tokens are theirs; `start` is 0 once there are no more. */
  ghost predicate Splitting(s: string, start: nat, done: seq<string>, result: seq<string>)
    requires s != ""
  {
    && start <= |s| && result == UnescapeAll(done) && (forall p <- done :: TildesOk(p))
    && Parts(s[1..]) == if start == 0 then done else done + Parts(s[start..])
  }

  lemma SplitStep(s: string, start: nat, slash: Option<nat>, done: seq<string>, result: seq<string>)
    requires s != "" && start != 0 && Splitting(s, start, done, result) && NextChar(s, '/', start, slash)
    ensures slash.Some? ==> start <= slash.value < |s|
    ensures var token := TokenText(s, start, slash);
            && token in Parts(s[1..])
            && (TildesOk(token) ==>
                  Splitting(s, if slash.Some? then slash.value + 1 else 0, done + [token], result + [Unescape(token)]))
  {
    hide Unescape, UnescapeAll, Parts, TildesOk;
    NextPart(s, start, slash);
    var token := TokenText(s, start, slash);
    UnescapeAllAppend(done, token);
    assert (done + Parts(s[start..]))[|done|] == token;
    if slash.Some? {
      assert done + ([token] + Parts(s[slash.value + 1..])) == (done + [token]) + Parts(s[slash.value + 1..]);
    }
  }

  /** split as the loop that it is. */
  method SplitTokens(s: string) returns (r: Result<seq<string>, Error>)
    ensures r == Split(s)
  {
    hide Unescape, UnescapeAll, Parts, TildesOk, Splitting, Split, NextChar, TokenText;
    SplitEarly(s);
    if s == "" {
      return Ok([]);
    }
    if s[0] != '/' {
      return Err(ParseError(107));
    }
    var result: seq<string> := [];
    ghost var done: seq<string> := [];
    SplitStart(s);
    var start := 1;
    var slash := FindChar(s, '/', 1);
    while start != 0
      invariant 0 <= start <= |s| && Splitting(s, start, done, result)
      invariant start != 0 ==> NextChar(s, '/', start, slash)
      decreases if start == 0 then 0 else |s| + 1 - start
    {
      SplitStep(s, start, slash, done, result);
      var token := TokenText(s, start, slash);
      var ok := TildesChecked(token);
      if !ok {
        SplitFails(s, token);
        return Err(ParseError(108));
      }
      var unescaped := UnescapeInPlace(token);
      result := result + [unescaped];
      done := done + [token];
      if slash.None? {
        start := 0;
      } else {
        start := slash.value + 1;
        slash := FindChar(s, '/', start);
      }
    }
    SplitEnd(s, done, result);
    return Ok(result);
  }

  lemma SplitStart(s: string)
    requires s != ""
    ensures Splitting(s, 1, [], [])
  {
    hide Parts;
    NoneUnescaped();
  }

  lemma SplitEnd(s: string, done: seq<string>, result: seq<string>)
    requires s != "" && s[0] == '/' && Splitting(s, 0, done, result)
    ensures Split(s) == Ok(result)
  {
    hide Parts, TildesOk, UnescapeAll;
  }

  lemma SplitFails(s: string, token: string)
    requires s != "" && s[0] == '/' && token in Parts(s[1..]) && !TildesOk(token)
    ensures Split(s) == Err(ParseError(108))
  {
    hide Parts, TildesOk, UnescapeAll;
  }

  lemma SplitEarly(s: string)
    ensures s == "" ==> Split(s) == Ok([])
    ensures s != "" && s[0] != '/' ==> Split(s) == Err(ParseError(107))
  {
  }

  lemma NoneUnescaped()
    ensures UnescapeAll([]) == []
  {
  }

  /** A pointer one token longer, as text. */
  function Below(path: string, token: string): string {
    path + "/" + Escape(token)
  }

  /** An index is appended without escaping. */
  function BelowIndex(path: string, i: nat): string {
    path + "/" + IndexToken(i)
  }

  // ---------- checked access ----------

  /** The sizes that a C++ vector can have: every index can be written in a pointer. */
  predicate Indexable(j: Json)
    decreases j
  {
    match j
    case Array(x) => |x| <= SIZE_MAX && forall i :: 0 <= i < |x| ==> Indexable(x[i])
    case Object(x) => forall k :: k in x ==> Indexable(x[k])
    case _ => true
  }

  /** at() on one reference token. */
  function Child(j: Json, token: string): Result<Json, Error> {
    match j
    case Object(m) => if token in m then Ok(m[token]) else Err(OutOfRange(403))
    case Array(items) =>
      if token == "-" then Err(OutOfRange(402))
      else
        var idx :- ArrayIndex(token);
        if idx < |items| then Ok(items[idx]) else Err(OutOfRange(401))
    case _ => Err(OutOfRange(404))
  }

  /** The value that a pointer leads to. */
  function GetChecked(j: Json, tokens: seq<string>): Result<Json, Error> {
    if tokens == [] then Ok(j)
    else
      var child :- Child(j, tokens[0]);
      GetChecked(child, tokens[1..])
  }

  /** get_checked: follows the tokens, moving the current value. */
  method Follow(j: Json, tokens: seq<string>) returns (r: Result<Json, Error>)
    ensures r == GetChecked(j, tokens)
  {
    hide Child;
    var ptr := j;
    for i := 0 to |tokens|
      invariant GetChecked(j, tokens) == GetChecked(ptr, tokens[i..])
    {
      assert tokens[i..][0] == tokens[i] && tokens[i..][1..] == tokens[i + 1..];
      var child := Child(ptr, tokens[i]);
      if child.IsFailure() {
        return Err(child.error);
      }
      ptr := child.value;
    }
    return Ok(ptr);
  }

  /** Writing through the reference that at() returns. */
  function SetChild(j: Json, token: string, v: Json): Json
    requires Child(j, token).Ok?
  {
    match j
    case Object(m) => Object(m[token := v])
    case Array(items) => Array(items[ArrayIndex(token).value := v])
  }

  function SetAt(j: Json, tokens: seq<string>, v: Json): Json
    requires GetChecked(j, tokens).Ok?
  {
    if tokens == [] then v else SetChild(j, tokens[0], SetAt(Child(j, tokens[0]).value, tokens[1..], v))
  }

  // ---------- which error ----------

  /** The exceptions of array_index: a leading zero, no number, or a number that is too large. */
  lemma ArrayIndexErrors(s: string)
    ensures ArrayIndex(s) == Err(ParseError(106)) <==> |s| > 1 && s[0] == '0'
    ensures ArrayIndex(s) == Err(ParseError(109)) <==> |s| > 1 && !('0' <= s[0] <= '9')
    ensures ArrayIndex(s).Err? && (|s| <= 1 || '1' <= s[0] <= '9') ==>
              ArrayIndex(s) == Err(OutOfRange(if s != "" && AllDigits(s) && Decimal(s) == SIZE_MAX then 410 else 404))
  {
  }

  /** The exceptions of at(): a key that is missing, an index that is none or too large, or a value without children. */
  lemma ChildErrors(j: Json, token: string)
    requires Child(j, token).Err?
    ensures var e := Child(j, token).error;
            && (j.Object? ==> e == OutOfRange(403))
            && (j.Array? && token == "-" ==> e == OutOfRange(402))
            && (j.Array? && token != "-" && ArrayIndex(token).Err? ==> e == ArrayIndex(token).error)
            && (j.Array? && token != "-" && ArrayIndex(token).Ok? ==> e == OutOfRange(401))
            && (Primitive(j) ==> e == OutOfRange(404))
  {
  }

  // ---------- reading and writing through pointers ----------

  lemma ChildLaws(j: Json, token: string, v: Json, w: Json)
    requires Child(j, token).Ok?
    ensures Child(SetChild(j, token, v), token) == Ok(v)
    ensures SetChild(SetChild(j, token, v), token, w) == SetChild(j, token, w)
    ensures SetChild(j, token, Child(j, token).value) == j
  {
    match j
    case Object(m) =>
      assert m[token := v][token := w] == m[token := w];
      assert m[token := m[token]] == m;
    case Array(items) =>
  }

  /** What is written is read back, the last write wins, and writing what is there changes nothing. */
  lemma {:induction false} SetAtLaws(j: Json, tokens: seq<string>, v: Json, w: Json)
    requires GetChecked(j, tokens).Ok?
    ensures GetChecked(SetAt(j, tokens, v), tokens) == Ok(v)
    ensures SetAt(SetAt(j, tokens, v), tokens, w) == SetAt(j, tokens, w)
    ensures SetAt(j, tokens, GetChecked(j, tokens).value) == j
  {
    if tokens != [] {
      hide Child, SetChild;
      var child := Child(j, tokens[0]).value;
      SetAtLaws(child, tokens[1..], v, w);
      ChildLaws(j, tokens[0], SetAt(child, tokens[1..], v), SetAt(child, tokens[1..], w));
    }
  }

  /** The pointers part before either ends. */
  predicate Diverge(p: seq<string>, q: seq<string>) {
    p != [] && q != [] && (p[0] != q[0] || Diverge(p[1..], q[1..]))
  }

  lemma ChildElsewhere(j: Json, token: string, v: Json, other: string)
    requires Child(j, token).Ok? && token != other
    ensures Child(SetChild(j, token, v), other) == Child(j, other)
  {
    hide ArrayIndex;
    if j.Array? && ArrayIndex(other).Ok? {
      ArrayIndexAccepts(token, ArrayIndex(token).value);
      ArrayIndexAccepts(other, ArrayIndex(other).value);
    }
  }

  /** Writing through a pointer leaves alone whatever other pointers lead to. */
  lemma {:induction false} SetAtElsewhere(j: Json, p: seq<string>, v: Json, q: seq<string>)
    requires GetChecked(j, p).Ok? && Diverge(p, q)
    ensures GetChecked(SetAt(j, p, v), q) == GetChecked(j, q)
    decreases |p|
  {
    hide Child, SetChild;
    var child := Child(j, p[0]).value;
    var below := SetAt(child, p[1..], v);
    if p[0] != q[0] {
      ChildElsewhere(j, p[0], below, q[0]);
    } else {
      SetAtElsewhere(child, p[1..], v, q[1..]);
      ChildLaws(j, p[0], below, below);
    }
  }

  /** A pointer to a child is the pointer to the parent, one token longer. */
  lemma {:induction false} ChildOfPointer(j: Json, tokens: seq<string>, token: string, v: Json)
    requires GetChecked(j, tokens).Ok?
    ensures GetChecked(j, tokens + [token]) == Child(GetChecked(j, tokens).value, token)
    ensures Child(GetChecked(j, tokens).value, token).Ok? ==>
              SetAt(j, tokens + [token], v) == SetAt(j, tokens, SetChild(GetChecked(j, tokens).value, token, v))
    decreases |tokens|
  {
    hide Child, SetChild;
    var longer := tokens + [token];
    if tokens == [] {
      assert longer[1..] == [];
    } else {
      assert longer[1..] == tokens[1..] + [token];
      ChildOfPointer(Child(j, tokens[0]).value, tokens[1..], token, v);
    }
  }

  lemma ItemChild(j: Json, i: nat, v: Json)
    requires j.Array? && i < |j.items| && i < SIZE_MAX
    ensures Child(j, IndexToken(i)) == Ok(j.items[i])
    ensures SetChild(j, IndexToken(i), v) == Array(j.items[i := v])
  {
    ArrayIndexAccepts(IndexToken(i), i);
    assert ArrayIndex("-").Err?;
  }

  lemma PathOfChild(tokens: seq<string>, token: string)
    ensures Below(ToString(tokens), token) == ToString(tokens + [token])
    ensures Split(Below(ToString(tokens), token)) == Ok(tokens + [token])
  {
    hide Escape;
    assert (tokens + [token])[..|tokens|] == tokens;
    SplitToString(tokens + [token]);
  }

  lemma PathOfIndex(tokens: seq<string>, i: nat)
    ensures BelowIndex(ToString(tokens), i) == Below(ToString(tokens), IndexToken(i))
  {
    IndexTokenNeedsNoEscape(i);
  }
}
